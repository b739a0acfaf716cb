// Iterating over a key snapshot of a map that changes meanwhile.
module MapIter {
  import opened Common

  // ---- The iterator ---------------------------------------------------------------

  datatype Answer<+T> = Returned(value: T) | Panic

  class Box<K(==), V> {
    var entries: map<K, V>

    constructor (entries: map<K, V>)
      ensures this.entries == entries
    {
      this.entries := entries;
    }
  }

  class MapIterator<K(==), V> {
    const keys: seq<K>
    const box: Box<K, V>
    var position: int

    // `keys` is the snapshot the box operation takes, in an order of its choosing.
    constructor MapRange(box: Box<K, V>, keys: seq<K>)
      ensures this.box == box && this.keys == keys && position == -1
    {
      this.box := box;
      this.keys := keys;
      position := -1;
    }

    ghost predicate Valid()
      reads this
    {
      -1 <= position <= |keys|
    }

    ghost function Current(): State<K, V>
      reads this, box
      requires Valid()
    {
      State(position, box.entries)
    }

    method Next() returns (more: Answer<bool>)
      requires Valid()
      modifies this
      ensures Valid() && Current() == Step(keys, old(Current()), Op.Next)
      ensures more == if old(position) >= |keys| then Panic else Returned(position < |keys|)
    {
      if position >= |keys| {
        return Panic;
      }
      position := position + 1;
      while position < |keys| && keys[position] !in box.entries
        invariant old(position) < position <= |keys|
        invariant Seek(keys, box.entries, position) == Seek(keys, box.entries, old(position) + 1)
      {
        position := position + 1;
      }
      return Returned(position < |keys|);
    }

    // Key and Value answer after a successful Next, Value only while its entry lives.
    method Key() returns (key: Answer<K>)
      requires Valid()
      ensures key == if 0 <= position < |keys| then Returned(keys[position]) else Panic
    {
      if position < 0 || position >= |keys| {
        return Panic;
      }
      return Returned(keys[position]);
    }

    method Value() returns (value: Answer<V>)
      requires Valid()
      ensures value ==
        if 0 <= position < |keys| && keys[position] in box.entries then Returned(box.entries[keys[position]]) else Panic
    {
      if position < 0 || position >= |keys| || keys[position] !in box.entries {
        return Panic;
      }
      return Returned(box.entries[keys[position]]);
    }
  }

  // ---- Runs that interleave iteration with changes of the map -----------------------

  datatype State<K, V> = State(position: int, entries: map<K, V>)
  datatype Op<K, V> = Next | Insert(key: K, value: V) | Delete(key: K)

  // The first live snapshot index not below `from`, or the end.
  function Seek<K(==), V>(keys: seq<K>, entries: map<K, V>, from: nat): (i: nat)
    requires from <= |keys|
    ensures from <= i <= |keys| && (i < |keys| ==> keys[i] in entries)
    ensures forall j :: from <= j < i ==> keys[j] !in entries
    decreases |keys| - from
  {
    if from == |keys| || keys[from] in entries then from else Seek(keys, entries, from + 1)
  }

  ghost predicate Within<K, V>(keys: seq<K>, s: State<K, V>) {
    -1 <= s.position <= |keys|
  }

  function Step<K(==), V>(keys: seq<K>, s: State<K, V>, op: Op<K, V>): (r: State<K, V>)
    requires Within(keys, s)
    ensures Within(keys, r) && s.position <= r.position
  {
    match op
    case Next => if s.position >= |keys| then s else s.(position := Seek(keys, s.entries, s.position + 1))
    case Insert(k, v) => s.(entries := s.entries[k := v])
    case Delete(k) => s.(entries := s.entries - {k})
  }

  // The state before operation n of a run.
  function StateAt<K(==), V>(keys: seq<K>, s: State<K, V>, ops: seq<Op<K, V>>, n: nat): (r: State<K, V>)
    requires Within(keys, s) && n <= |ops|
    ensures Within(keys, r) && s.position <= r.position
    decreases n
  {
    if n == 0 then s else StateAt(keys, Step(keys, s, ops[0]), ops[1..], n - 1)
  }

  // The snapshot indices that the calls of Next stop at, in the order of the calls.
  function Yielded<K(==), V>(keys: seq<K>, s: State<K, V>, ops: seq<Op<K, V>>): seq<nat>
    requires Within(keys, s)
    decreases |ops|
  {
    if ops == [] then []
    else
      var t := Step(keys, s, ops[0]);
      (if ops[0].Next? && s.position < t.position < |keys| then [t.position] else []) + Yielded(keys, t, ops[1..])
  }

  // Operation n is the call of Next whose scan passes or stops at index i.
  ghost predicate Reaches<K, V>(keys: seq<K>, s: State<K, V>, ops: seq<Op<K, V>>, n: int, i: nat)
    requires Within(keys, s)
  {
    0 <= n < |ops| && ops[n].Next? && StateAt(keys, s, ops, n).position < i <= StateAt(keys, s, ops, n + 1).position
  }

  // The scan reaches index i in operation n and finds its key in the map.
  ghost predicate Finds<K, V>(keys: seq<K>, s: State<K, V>, ops: seq<Op<K, V>>, n: int, i: nat)
    requires Within(keys, s) && i < |keys|
  {
    Reaches(keys, s, ops, n, i) && keys[i] in StateAt(keys, s, ops, n).entries
  }

  ghost predicate Ascending(indices: seq<nat>, after: int, end: nat) {
    && (forall a, b :: 0 <= a < b < |indices| ==> indices[a] < indices[b])
    && (forall a :: 0 <= a < |indices| ==> after < indices[a] < end)
  }

  lemma AscendingCons(first: int, rest: seq<nat>, end: nat)
    requires Ascending(rest, first, end)
    ensures 0 <= first < end ==> Ascending([first] + rest, first - 1, end)
  {
  }

  // Keys come out in snapshot order and at most once; as the indices are those of
  // the snapshot, a key inserted later and not in it never does.
  lemma {:induction false} YieldsInOrder<K, V>(keys: seq<K>, s: State<K, V>, ops: seq<Op<K, V>>)
    requires Within(keys, s)
    ensures Ascending(Yielded(keys, s, ops), s.position, |keys|)
    decreases |ops|
  {
    if ops != [] {
      var t := Step(keys, s, ops[0]);
      YieldsInOrder(keys, t, ops[1..]);
      AscendingCons(t.position, Yielded(keys, t, ops[1..]), |keys|);
    }
  }

  lemma YieldedKeysDistinct<K, V>(keys: seq<K>, s: State<K, V>, ops: seq<Op<K, V>>)
    requires Within(keys, s) && Distinct(keys)
    ensures var y := Yielded(keys, s, ops);
      && (forall a :: 0 <= a < |y| ==> y[a] < |keys|)
      && (forall a, b :: 0 <= a < b < |y| ==> keys[y[a]] != keys[y[b]])
  {
    YieldsInOrder(keys, s, ops);
  }

  // What the first operation has passed is not reached again.
  lemma ReachedByFirst<K, V>(keys: seq<K>, s: State<K, V>, ops: seq<Op<K, V>>, i: nat)
    requires Within(keys, s) && ops != [] && i <= Step(keys, s, ops[0]).position
    ensures forall m :: Reaches(keys, s, ops, m, i) ==> m == 0
  {
    var t := Step(keys, s, ops[0]);
    forall m: nat | 0 < m < |ops| ensures !Reaches(keys, s, ops, m, i) {
      assert t.position <= StateAt(keys, t, ops[1..], m - 1).position;
    }
  }

  // No index is reached twice, and exhaustion means that all were.
  lemma {:induction false} ReachedOnce<K, V>(keys: seq<K>, s: State<K, V>, ops: seq<Op<K, V>>, i: nat)
    requires Within(keys, s) && s.position < i <= StateAt(keys, s, ops, |ops|).position
    ensures exists n :: Reaches(keys, s, ops, n, i) && forall m :: Reaches(keys, s, ops, m, i) ==> m == n
    decreases |ops|
  {
    if ops != [] {
      var t := Step(keys, s, ops[0]);
      if t.position < i {
        ReachedOnce(keys, t, ops[1..], i);
        var n :| Reaches(keys, t, ops[1..], n, i) && forall m :: Reaches(keys, t, ops[1..], m, i) ==> m == n;
        assert Reaches(keys, s, ops, n + 1, i);
        forall m | Reaches(keys, s, ops, m, i) ensures m == n + 1 {
          if m > 0 { assert Reaches(keys, t, ops[1..], m - 1, i); }
        }
      } else {
        assert StateAt(keys, s, ops, 1) == StateAt(keys, t, ops[1..], 0) == t;
        assert Reaches(keys, s, ops, 0, i);
        ReachedByFirst(keys, s, ops, i);
      }
    }
  }

  // A snapshot key is yielded exactly when it is present at the moment the scan
  // reaches it, whatever happened to it before or happens afterwards.
  lemma {:induction false} YieldedIffPresentWhenReached<K, V>(keys: seq<K>, s: State<K, V>, ops: seq<Op<K, V>>, i: nat)
    requires Within(keys, s) && s.position < i < |keys|
    ensures i in Yielded(keys, s, ops) <==>
      exists n :: Finds(keys, s, ops, n, i)
    decreases |ops|
  {
    if ops != [] {
      var t := Step(keys, s, ops[0]);
      assert StateAt(keys, s, ops, 1) == StateAt(keys, t, ops[1..], 0) == t;
      YieldsInOrder(keys, t, ops[1..]);
      if t.position < i {
        LaterReach(keys, s, ops, i);
        YieldedIffPresentWhenReached(keys, t, ops[1..], i);
      } else {
        ReachedByFirst(keys, s, ops, i);
        assert Reaches(keys, s, ops, 0, i);
        assert StateAt(keys, s, ops, 0) == s;
        assert Finds(keys, s, ops, 0, i) <==> keys[i] in s.entries;
        assert i in Yielded(keys, s, ops) <==> i == t.position;
      }
    }
  }

  lemma LaterReach<K, V>(keys: seq<K>, s: State<K, V>, ops: seq<Op<K, V>>, i: nat)
    requires Within(keys, s) && ops != [] && Step(keys, s, ops[0]).position < i < |keys|
    ensures var t := Step(keys, s, ops[0]);
      (exists n :: Finds(keys, s, ops, n, i)) <==>
      (exists n :: Finds(keys, t, ops[1..], n, i))
  {
    var t := Step(keys, s, ops[0]);
    assert StateAt(keys, s, ops, 1) == StateAt(keys, t, ops[1..], 0) == t;
    if n :| Finds(keys, s, ops, n, i) {
      assert Finds(keys, t, ops[1..], n - 1, i);
    }
    if n :| Finds(keys, t, ops[1..], n, i) {
      assert Finds(keys, s, ops, n + 1, i);
    }
  }

  // Of a full iteration: a key that stays in the map throughout is yielded, and
  // one that is gone from some moment on, before the scan reaches it, is not.
  lemma StableKeysAreYielded<K, V>(keys: seq<K>, entries: map<K, V>, ops: seq<Op<K, V>>, i: nat)
    requires i < |keys|
    requires StateAt(keys, State(-1, entries), ops, |ops|).position == |keys|
    requires forall n :: 0 <= n <= |ops| ==> keys[i] in StateAt(keys, State(-1, entries), ops, n).entries
    ensures i in Yielded(keys, State(-1, entries), ops)
  {
    var s := State(-1, entries);
    ReachedOnce(keys, s, ops, i);
    YieldedIffPresentWhenReached(keys, s, ops, i);
    var n :| Reaches(keys, s, ops, n, i);
    assert Finds(keys, s, ops, n, i);
  }

  lemma RemovedKeysAreNotYielded<K, V>(keys: seq<K>, entries: map<K, V>, ops: seq<Op<K, V>>, i: nat, removed: nat)
    requires i < |keys| && removed <= |ops|
    requires StateAt(keys, State(-1, entries), ops, removed).position < i
    requires forall n :: removed <= n <= |ops| ==> keys[i] !in StateAt(keys, State(-1, entries), ops, n).entries
    ensures i !in Yielded(keys, State(-1, entries), ops)
  {
    var s := State(-1, entries);
    YieldedIffPresentWhenReached(keys, s, ops, i);
    if n :| Finds(keys, s, ops, n, i) {
      assert n < removed;
      assert StateAt(keys, s, ops, n + 1).position >= i;
      PositionGrows(keys, s, ops, n + 1, removed);
    }
  }

  lemma {:induction false} PositionGrows<K, V>(keys: seq<K>, s: State<K, V>, ops: seq<Op<K, V>>, m: nat, n: nat)
    requires Within(keys, s) && m <= n <= |ops|
    ensures StateAt(keys, s, ops, m).position <= StateAt(keys, s, ops, n).position
    decreases n
  {
    if m > 0 {
      PositionGrows(keys, Step(keys, s, ops[0]), ops[1..], m - 1, n - 1);
    }
  }
}
