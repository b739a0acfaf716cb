// The order in which the required packages are initialized.
module InitializationOrder {
  import opened Common
  import opened Text
  import opened Digraph
  import opened PackageGraph

  datatype Outcome = Order(order: seq<Package>) | DependencyAbsent | NoReadyPackage

  predicate ByPath(a: Package, b: Package) {
    Less(a.path, b.path)
  }

  ghost predicate DistinctPaths(packages: set<Package>) {
    forall p, q :: p in packages && q in packages && p.path == q.path ==> p == q
  }

  ghost predicate DependsOn(imports: Imports, p: Package, q: Package) {
    exists i :: i in imports(p) && i.target.Loaded? && i.target.dependency == q
  }

  ghost function Edges(imports: Imports): (Package, Package) -> bool {
    (p, q) => DependsOn(imports, p, q)
  }

  // All imports of the package are initialized.
  ghost predicate IsReady(imports: Imports, done: set<Package>, p: Package) {
    forall i :: i in imports(p) ==> Satisfied(i, done)
  }

  // Section "Program initialization" of The Go Programming Language Specification:
  // of the list sorted by import path, each step initializes the first package
  // that is uninitialized and has all its imports initialized.
  ghost predicate Chosen(imports: Imports, packages: set<Package>, done: set<Package>, p: Package) {
    && p in packages && p !in done && IsReady(imports, done, p)
    && forall q :: q in packages && q !in done && IsReady(imports, done, q) ==> !ByPath(q, p)
  }

  ghost predicate Stepwise(imports: Imports, packages: set<Package>, order: seq<Package>) {
    forall i :: 0 <= i < |order| ==> Chosen(imports, packages, Elements(order[..i]), order[i])
  }

  ghost predicate SpecifiedOrder(imports: Imports, packages: set<Package>, order: seq<Package>) {
    Elements(order) == packages && Stepwise(imports, packages, order)
  }

  // ---- The order in plain terms --------------------------------------------------------

  // What the import stands for is there already, or needs no initialization.
  ghost predicate Accounted(i: Import, done: seq<Package>) {
    match i.target
    case Loaded(dependency, _) => dependency in done
    case Runtime => true
    case Environment => true
    case Unresolved => false
  }

  ghost predicate AllAccounted(imports: Imports, p: Package, done: seq<Package>) {
    forall i :: i in imports(p) ==> Accounted(i, done)
  }

  // One path is a prefix of the other, or smaller where they differ first.
  ghost predicate ComesFirst(a: string, b: string) {
    a <= b || exists k :: 0 <= k < |a| && k < |b| && a[..k] == b[..k] && a[k] < b[k]
  }

  // Each package comes once and behind its imports, and of those that could come
  // next the one whose path comes first.
  ghost predicate InOrderOfPaths(imports: Imports, packages: set<Package>, order: seq<Package>) {
    && Distinct(order) && (forall p :: p in order <==> p in packages)
    && (forall k :: 0 <= k < |order| ==> AllAccounted(imports, order[k], order[..k]))
    && (forall k, q :: 0 <= k < |order| && q in packages && q !in order[..k] && AllAccounted(imports, q, order[..k]) ==>
          ComesFirst(order[k].path, q.path))
  }

  lemma ComesFirstIff(a: string, b: string)
    ensures ComesFirst(a, b) <==> !Less(b, a)
  {
    LessTotal(a, b);
    LessIffFirstDifference(a, b);
    LessIffFirstDifference(b, a);
    if Less(a, b) {
      var k: nat :| FirstDifference(a, b, k);
      assert k == |a| ==> a == a[..k] == b[..k];
    }
    if a <= b && a != b {
      assert FirstDifference(a, b, |a|);
    }
    if k :| 0 <= k < |a| && k < |b| && a[..k] == b[..k] && a[k] < b[k] {
      assert FirstDifference(a, b, k);
    }
  }

  lemma ReadyIsAccounted(imports: Imports, done: seq<Package>, p: Package)
    ensures IsReady(imports, Elements(done), p) <==> AllAccounted(imports, p, done)
  {
    forall i ensures Satisfied(i, Elements(done)) <==> Accounted(i, done) {}
  }

  lemma ChosenIff(imports: Imports, packages: set<Package>, done: seq<Package>, p: Package)
    ensures Chosen(imports, packages, Elements(done), p) <==>
      && p in packages && p !in done && AllAccounted(imports, p, done)
      && forall q :: q in packages && q !in done && AllAccounted(imports, q, done) ==> ComesFirst(p.path, q.path)
  {
    ReadyIsAccounted(imports, done, p);
    forall q ensures IsReady(imports, Elements(done), q) <==> AllAccounted(imports, q, done) {
      ReadyIsAccounted(imports, done, q);
    }
    forall q: Package ensures ComesFirst(p.path, q.path) <==> !ByPath(q, p) {
      ComesFirstIff(p.path, q.path);
    }
  }

  // The specified order is that one.
  lemma SpecifiedIffInOrderOfPaths(imports: Imports, packages: set<Package>, order: seq<Package>)
    ensures SpecifiedOrder(imports, packages, order) <==> InOrderOfPaths(imports, packages, order)
  {
    forall k | 0 <= k < |order| ensures Chosen(imports, packages, Elements(order[..k]), order[k]) <==>
      && order[k] in packages && order[k] !in order[..k] && AllAccounted(imports, order[k], order[..k])
      && forall q :: q in packages && q !in order[..k] && AllAccounted(imports, q, order[..k]) ==>
        ComesFirst(order[k].path, q.path)
    {
      ChosenIff(imports, packages, order[..k], order[k]);
    }
    assert Elements(order) == packages <==> forall p :: p in order <==> p in packages by {
      assert forall p :: p in order <==> p in Elements(order);
    }
    DistinctIffNew(order);
  }

  lemma DistinctIffNew<T>(s: seq<T>)
    ensures Distinct(s) <==> forall k :: 0 <= k < |s| ==> s[k] !in s[..k]
  {
    if Distinct(s) {
      forall k | 0 <= k < |s| ensures s[k] !in s[..k] {
        assert forall j :: 0 <= j < k ==> s[..k][j] == s[j];
      }
    }
    if forall k :: 0 <= k < |s| ==> s[k] !in s[..k] {
      forall i, j | 0 <= i < j < |s| ensures s[i] != s[j] {
        assert s[..j][i] == s[i];
      }
    }
  }

  // ---- Facts about the specified order -----------------------------------------------

  lemma ChosenUnique(imports: Imports, packages: set<Package>, done: set<Package>, p: Package, q: Package)
    requires DistinctPaths(packages) && Chosen(imports, packages, done, p) && Chosen(imports, packages, done, q)
    ensures p == q
  {
    LessTotal(p.path, q.path);
  }

  lemma PrefixesAgree<T>(a: seq<T>, b: seq<T>, k: nat)
    requires k < |a| && k < |b| && a[..k] == b[..k] && a[k] == b[k]
    ensures a[..k + 1] == b[..k + 1]
  {
    assert a[..k + 1] == a[..k] + [a[k]] && b[..k + 1] == b[..k] + [b[k]];
  }

  lemma {:induction false} StepwiseAgree(imports: Imports, packages: set<Package>, a: seq<Package>, b: seq<Package>, n: nat)
    requires DistinctPaths(packages) && Stepwise(imports, packages, a) && Stepwise(imports, packages, b)
    requires n <= |a| && n <= |b|
    ensures a[..n] == b[..n]
  {
    if n > 0 {
      var k := n - 1;
      StepwiseAgree(imports, packages, a, b, k);
      assert Chosen(imports, packages, Elements(b[..k]), b[k]);
      ChosenUnique(imports, packages, Elements(a[..k]), a[k], b[k]);
      PrefixesAgree(a, b, k);
    }
  }

  lemma {:induction false} StepwiseDistinct(imports: Imports, packages: set<Package>, order: seq<Package>)
    requires Stepwise(imports, packages, order)
    ensures Distinct(order)
  {
    forall i, j | 0 <= i < j < |order| ensures order[i] != order[j] {
      assert Chosen(imports, packages, Elements(order[..j]), order[j]);
      assert order[..j][i] == order[i];
    }
  }

  // One order only: no map iteration order can show in the result.
  lemma SpecifiedOrderUnique(imports: Imports, packages: set<Package>, a: seq<Package>, b: seq<Package>)
    requires DistinctPaths(packages) && SpecifiedOrder(imports, packages, a) && SpecifiedOrder(imports, packages, b)
    ensures a == b
  {
    StepwiseDistinct(imports, packages, a);
    StepwiseDistinct(imports, packages, b);
    DistinctSize(a);
    DistinctSize(b);
    StepwiseAgree(imports, packages, a, b, |a|);
    assert a[..|a|] == a && b[..|b|] == b;
  }

  // Dependencies stand before their dependents, so an order excludes cycles; and
  // it exists only when every import is accounted for.
  lemma OrderNeedsAcyclicClosed(imports: Imports, packages: set<Package>, order: seq<Package>)
    requires SpecifiedOrder(imports, packages, order)
    ensures Closed(imports, packages) && !HasCycle(Edges(imports), packages)
  {
    StepwiseDistinct(imports, packages, order);
    forall p, i | p in packages && i in imports(p) ensures Satisfied(i, packages) {
      var k :| 0 <= k < |order| && order[k] == p;
      assert Chosen(imports, packages, Elements(order[..k]), order[k]);
      assert Satisfied(i, Elements(order[..k]));
    }
    forall i, j | 0 <= i < |order| && 0 <= j < |order| && Edges(imports)(order[i], order[j]) ensures j < i {
      EdgeGoesBack(imports, packages, order, i, j);
    }
    BackwardsOrderRefutesCycle(Edges(imports), order);
  }

  lemma EdgeGoesBack(imports: Imports, packages: set<Package>, order: seq<Package>, i: nat, j: nat)
    requires Stepwise(imports, packages, order) && Distinct(order)
    requires i < |order| && j < |order| && DependsOn(imports, order[i], order[j])
    ensures j < i
  {
    assert Chosen(imports, packages, Elements(order[..i]), order[i]);
    assert order[j] in order[..i];
    var m :| 0 <= m < i && order[..i][m] == order[j];
    assert order[m] == order[j];
  }

  // ---- The algorithm ------------------------------------------------------------------

  datatype Readiness = Ready | Waiting | Absent

  method Check(imports: Imports, builders: set<Package>, initialized: set<Package>, candidate: Package) returns (r: Readiness)
    requires initialized <= builders
    ensures r.Ready? <==> IsReady(imports, initialized, candidate)
    ensures r.Waiting? ==> exists q :: q in builders - initialized && DependsOn(imports, candidate, q)
    ensures r.Absent? ==> exists i :: i in imports(candidate) && !Satisfied(i, builders)
  {
    for k := 0 to |imports(candidate)|
      invariant forall j :: 0 <= j < k ==> Satisfied(imports(candidate)[j], initialized)
    {
      var i := imports(candidate)[k];
      assert i in imports(candidate);
      if Exempt(i) {
        continue;
      }
      if !i.target.Loaded? || i.target.dependency !in builders {
        return Absent;
      }
      if i.target.dependency !in initialized {
        assert DependsOn(imports, candidate, i.target.dependency);
        return Waiting;
      }
    }
    return Ready;
  }

  // The first k candidates are initialized or wait for one that is not.
  ghost predicate Passed(imports: Imports, left: set<Package>, initialized: set<Package>, candidates: seq<Package>, k: nat)
    requires k <= |candidates|
  {
    forall j :: 0 <= j < k && candidates[j] !in initialized ==>
      !IsReady(imports, initialized, candidates[j]) && HasSuccessor(Edges(imports), left, candidates[j])
  }

  lemma PassOne(imports: Imports, left: set<Package>, initialized: set<Package>, candidates: seq<Package>, k: nat)
    requires k < |candidates| && Passed(imports, left, initialized, candidates, k)
    requires candidates[k] in initialized
      || (!IsReady(imports, initialized, candidates[k]) && exists q :: q in left && DependsOn(imports, candidates[k], q))
    ensures Passed(imports, left, initialized, candidates, k + 1)
  {
    if candidates[k] !in initialized {
      var q :| q in left && DependsOn(imports, candidates[k], q);
      assert Edges(imports)(candidates[k], q);
    }
  }

  lemma FirstIsChosen(imports: Imports, builders: set<Package>, initialized: set<Package>, candidates: seq<Package>, k: nat)
    requires Elements(candidates) == builders && Sorted(ByPath, candidates)
    requires k < |candidates| && Passed(imports, builders - initialized, initialized, candidates, k)
    requires candidates[k] !in initialized && IsReady(imports, initialized, candidates[k])
    ensures Chosen(imports, builders, initialized, candidates[k])
  {
    assert candidates[k] in candidates;
    forall q | q in builders && q !in initialized && IsReady(imports, initialized, q) ensures !ByPath(q, candidates[k]) {
      var j :| 0 <= j < |candidates| && candidates[j] == q;
      LessIrreflexive(q.path);
    }
  }

  lemma AllPassed(imports: Imports, builders: set<Package>, initialized: set<Package>, candidates: seq<Package>)
    requires Elements(candidates) == builders && Passed(imports, builders - initialized, initialized, candidates, |candidates|)
    ensures forall p :: p in builders - initialized ==> HasSuccessor(Edges(imports), builders - initialized, p)
  {
    forall p | p in builders - initialized ensures HasSuccessor(Edges(imports), builders - initialized, p) {
      assert p in candidates;
    }
  }

  // The first ready candidate of the sorted list.
  method Select(imports: Imports, builders: set<Package>, initialized: set<Package>, candidates: seq<Package>)
    returns (selected: Option<Package>, absent: bool)
    requires initialized <= builders && Elements(candidates) == builders && Sorted(ByPath, candidates)
    ensures selected.Some? ==> !absent && Chosen(imports, builders, initialized, selected.value)
    ensures absent ==> !Closed(imports, builders)
    ensures selected.None? && !absent ==>
      forall p :: p in builders - initialized ==> HasSuccessor(Edges(imports), builders - initialized, p)
  {
    for k := 0 to |candidates|
      invariant Passed(imports, builders - initialized, initialized, candidates, k)
    {
      var candidate := candidates[k];
      assert candidate in builders;
      if candidate !in initialized {
        var readiness := Check(imports, builders, initialized, candidate);
        if readiness.Absent? {
          return None, true;
        }
        if readiness.Ready? {
          FirstIsChosen(imports, builders, initialized, candidates, k);
          return Some(candidate), false;
        }
      }
      PassOne(imports, builders - initialized, initialized, candidates, k);
    }
    AllPassed(imports, builders, initialized, candidates);
    return None, false;
  }

  // `listed` is whatever order the map of builders is iterated in.
  method PackageInitializationOrder(imports: Imports, builders: set<Package>, listed: seq<Package>) returns (r: Outcome)
    requires Elements(listed) == builders && Distinct(listed)
    ensures r.Order? ==> SpecifiedOrder(imports, builders, r.order) && InOrderOfPaths(imports, builders, r.order)
    ensures r.Order? <==> Closed(imports, builders) && !HasCycle(Edges(imports), builders)
    ensures r.DependencyAbsent? ==> !Closed(imports, builders)
    ensures r.NoReadyPackage? ==> HasCycle(Edges(imports), builders)
  {
    StringOrder();
    var candidates := Sort(ByPath, listed);
    PermutationKeeps(candidates, listed);
    DistinctSize(listed);
    var initialized, order := {}, [];
    while |order| != |candidates|
      invariant Stepwise(imports, builders, order) && Elements(order) == initialized <= builders
      invariant |initialized| == |order| <= |candidates|
      decreases |candidates| - |order|
    {
      var selected, absent := Select(imports, builders, initialized, candidates);
      if absent {
        return DependencyAbsent;
      }
      if selected.None? {
        StuckMeansCycle(imports, builders, initialized);
        return NoReadyPackage;
      }
      SubsetSize(initialized + {selected.value}, builders);
      StepwiseExtends(imports, builders, order, selected.value);
      initialized := initialized + {selected.value};
      order := order + [selected.value];
    }
    SubsetSize(initialized, builders);
    OrderNeedsAcyclicClosed(imports, builders, order);
    SpecifiedIffInOrderOfPaths(imports, builders, order);
    return Order(order);
  }

  lemma StepwiseExtends(imports: Imports, packages: set<Package>, order: seq<Package>, next: Package)
    requires Stepwise(imports, packages, order) && Chosen(imports, packages, Elements(order), next)
    ensures Stepwise(imports, packages, order + [next])
    ensures Elements(order + [next]) == Elements(order) + {next}
  {
    var longer := order + [next];
    forall i | 0 <= i < |longer| ensures Chosen(imports, packages, Elements(longer[..i]), longer[i]) {
      assert longer[..i] == order[..i];
      assert order[..|order|] == order;
    }
  }

  lemma StuckMeansCycle(imports: Imports, builders: set<Package>, initialized: set<Package>)
    requires initialized <= builders && |initialized| < |builders|
    requires forall p :: p in builders - initialized ==> HasSuccessor(Edges(imports), builders - initialized, p)
    ensures HasCycle(Edges(imports), builders)
  {
    if builders <= initialized {
      SubsetSize(builders, initialized);
    }
    var p :| p in builders && p !in initialized;
    assert p in builders - initialized;
    SuccessorsFormCycle(Edges(imports), builders - initialized);
    var walk :| Cycle(Edges(imports), builders - initialized, walk);
    assert Cycle(Edges(imports), builders, walk);
  }
}
