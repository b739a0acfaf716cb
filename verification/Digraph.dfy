// Chains and cycles of a finite relation.
module Digraph {
  import opened Common

  ghost predicate Chain<T(!new)>(edge: (T, T) -> bool, nodes: set<T>, chain: seq<T>) {
    && (forall i :: 0 <= i < |chain| ==> chain[i] in nodes)
    && forall i, j :: 0 <= i && j == i + 1 && j < |chain| ==> edge(chain[i], chain[j])
  }

  // A closed walk: its last node is its first one again.
  ghost predicate Cycle<T(!new)>(edge: (T, T) -> bool, nodes: set<T>, walk: seq<T>) {
    |walk| >= 2 && Chain(edge, nodes, walk) && walk[0] == walk[|walk| - 1]
  }

  ghost predicate HasCycle<T(!new)>(edge: (T, T) -> bool, nodes: set<T>) {
    exists walk :: Cycle(edge, nodes, walk)
  }

  ghost predicate HasSuccessor<T(!new)>(edge: (T, T) -> bool, nodes: set<T>, p: T) {
    exists q :: q in nodes && edge(p, q)
  }

  lemma {:induction false} LongChain<T(!new)>(edge: (T, T) -> bool, nodes: set<T>, start: T, length: nat) returns (chain: seq<T>)
    requires start in nodes && forall p :: p in nodes ==> HasSuccessor(edge, nodes, p)
    ensures Chain(edge, nodes, chain) && |chain| == length + 1 && chain[0] == start
    decreases length
  {
    if length == 0 {
      chain := [start];
    } else {
      var next :| next in nodes && edge(start, next);
      var rest := LongChain(edge, nodes, next, length - 1);
      chain := [start] + rest;
      ChainGrows(edge, nodes, start, rest);
    }
  }

  lemma ChainGrows<T(!new)>(edge: (T, T) -> bool, nodes: set<T>, start: T, rest: seq<T>)
    requires Chain(edge, nodes, rest) && start in nodes && (rest != [] ==> edge(start, rest[0]))
    ensures Chain(edge, nodes, [start] + rest)
  {
  }

  lemma Pigeonhole<T>(nodes: set<T>, s: seq<T>)
    requires |s| > |nodes| && forall i :: 0 <= i < |s| ==> s[i] in nodes
    ensures !Distinct(s)
  {
    DistinctSize(s);
    SubsetSize(Elements(s), nodes);
  }

  lemma Returns<T(!new)>(edge: (T, T) -> bool, nodes: set<T>, chain: seq<T>, i: nat, j: nat)
    requires Chain(edge, nodes, chain) && i < j < |chain| && chain[i] == chain[j]
    ensures Cycle(edge, nodes, chain[i..j + 1])
  {
  }

  // When every node has a successor, walking on must come back.
  lemma SuccessorsFormCycle<T(!new)>(edge: (T, T) -> bool, nodes: set<T>)
    requires nodes != {} && forall p :: p in nodes ==> HasSuccessor(edge, nodes, p)
    ensures HasCycle(edge, nodes)
  {
    var start :| start in nodes;
    var chain := LongChain(edge, nodes, start, |nodes|);
    Pigeonhole(nodes, chain);
    var i: nat, j: nat :| i < j < |chain| && chain[i] == chain[j];
    Returns(edge, nodes, chain, i, j);
  }

  // A list in which every edge goes backwards.
  ghost predicate Backwards<T(!new)>(edge: (T, T) -> bool, order: seq<T>) {
    forall i, j :: 0 <= i < |order| && 0 <= j < |order| && edge(order[i], order[j]) ==> j < i
  }

  lemma {:induction false} ChainFalls<T(!new)>(edge: (T, T) -> bool, order: seq<T>, chain: seq<T>, first: nat) returns (last: nat)
    requires Backwards(edge, order) && Chain(edge, Elements(order), chain) && chain != []
    requires first < |order| && order[first] == chain[0]
    ensures last < |order| && order[last] == chain[|chain| - 1] && last <= first && (|chain| > 1 ==> last < first)
    decreases |chain|
  {
    if |chain| == 1 {
      last := first;
    } else {
      assert chain[1] in order;
      var next :| 0 <= next < |order| && order[next] == chain[1];
      last := ChainFalls(edge, order, chain[1..], next);
    }
  }

  lemma BackwardsOrderRefutesCycle<T(!new)>(edge: (T, T) -> bool, order: seq<T>)
    requires Backwards(edge, order) && Distinct(order)
    ensures !HasCycle(edge, Elements(order))
  {
    if walk :| Cycle(edge, Elements(order), walk) {
      assert walk[0] in order;
      var first :| 0 <= first < |order| && order[first] == walk[0];
      var last := ChainFalls(edge, order, walk, first);
    }
  }
}
