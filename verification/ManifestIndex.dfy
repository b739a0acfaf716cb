// Lookup tables built from entry lists, against a linear scan of the list.
module ManifestIndex {
  import opened Common
  import opened Text

  function Flatten<A, B>(xs: seq<A>, f: A -> seq<B>): seq<B> {
    if xs == [] then [] else f(xs[0]) + Flatten(xs[1..], f)
  }

  lemma {:induction false} FlattenAppend<A, B>(xs: seq<A>, x: A, f: A -> seq<B>)
    ensures Flatten(xs + [x], f) == Flatten(xs, f) + f(x)
  {
    if xs == [] {
      assert xs + [x] == [x] && [x][1..] == [];
      assert Flatten([x], f) == f(x);
    } else {
      FlattenAppend(xs[1..], x, f);
      assert (xs + [x])[1..] == xs[1..] + [x];
    }
  }

  lemma {:induction false} FlattenMember<A, B>(xs: seq<A>, f: A -> seq<B>, b: B)
    ensures b in Flatten(xs, f) <==> exists x :: x in xs && b in f(x)
  {
    if xs != [] {
      FlattenMember(xs[1..], f, b);
      assert xs == [xs[0]] + xs[1..];
    }
  }

  ghost function Keys<K, V>(entries: seq<(K, V)>): (keys: seq<K>)
    ensures |keys| == |entries| && forall i :: 0 <= i < |entries| ==> keys[i] == entries[i].0
  {
    seq(|entries|, i requires 0 <= i < |entries| => entries[i].0)
  }

  // The first entry under a key, as a scan of all modules would find it.
  ghost function Scan<K, V>(entries: seq<(K, V)>, key: K): Option<V> {
    if entries == [] then None
    else if entries[0].0 == key then Some(entries[0].1)
    else Scan(entries[1..], key)
  }

  ghost function Lookup<K, V>(index: map<K, V>, key: K): Option<V> {
    if key in index then Some(index[key]) else None
  }

  // Entries written one after the other: a later one replaces an earlier one.
  ghost function Written<K, V>(entries: seq<(K, V)>, index: map<K, V>): map<K, V> {
    if entries == [] then index else Written(entries[1..], index[entries[0].0 := entries[0].1])
  }

  lemma {:induction false} WrittenAppend<K, V>(a: seq<(K, V)>, b: seq<(K, V)>, index: map<K, V>)
    ensures Written(a + b, index) == Written(b, Written(a, index))
  {
    if a == [] {
      assert a + b == b;
    } else {
      WrittenAppend(a[1..], b, index[a[0].0 := a[0].1]);
      assert (a + b)[1..] == a[1..] + b;
    }
  }

  // With distinct keys the table answers exactly what the scan answers.
  lemma {:induction false} WrittenIsScan<K, V>(entries: seq<(K, V)>, index: map<K, V>, key: K)
    requires Distinct(Keys(entries))
    ensures Lookup(Written(entries, index), key) ==
      if Scan(entries, key).Some? then Scan(entries, key) else Lookup(index, key)
  {
    if entries != [] {
      var rest, k := entries[1..], entries[0].0;
      assert forall i :: 0 <= i < |rest| ==> Keys(rest)[i] == Keys(entries)[i + 1];
      WrittenIsScan(rest, index[k := entries[0].1], key);
      if key == k {
        ScanMissing(rest, k);
      }
    }
  }

  lemma {:induction false} ScanMissing<K, V>(entries: seq<(K, V)>, key: K)
    requires key !in Keys(entries)
    ensures Scan(entries, key).None?
  {
    if entries != [] {
      assert Keys(entries)[0] == entries[0].0;
      assert forall k :: k in Keys(entries[1..]) ==> k in Keys(entries) by {
        forall i | 0 <= i < |entries[1..]| ensures Keys(entries[1..])[i] == Keys(entries)[i + 1] {}
      }
      ScanMissing(entries[1..], key);
    }
  }

  lemma {:induction false} ScanFinds<K, V>(entries: seq<(K, V)>, i: nat)
    requires i < |entries| && Distinct(Keys(entries))
    ensures Scan(entries, entries[i].0) == Some(entries[i].1)
  {
    if i > 0 {
      assert Keys(entries)[0] != Keys(entries)[i];
      assert forall j :: 0 <= j < |entries[1..]| ==> Keys(entries[1..])[j] == Keys(entries)[j + 1];
      ScanFinds(entries[1..], i - 1);
    }
  }

  // Writes a list of entries into a table, as the inner loops of Parse do.
  method Write<K, V>(index: map<K, V>, entries: seq<(K, V)>) returns (written: map<K, V>)
    ensures written == Written(entries, index)
  {
    written := index;
    for i := 0 to |entries|
      invariant written == Written(entries[..i], index)
    {
      written := written[entries[i].0 := entries[i].1];
      WrittenAppend(entries[..i], [entries[i]], index);
      assert entries[..i + 1] == entries[..i] + [entries[i]];
      assert [entries[i]][1..] == [];
    }
    assert entries[..|entries|] == entries;
  }

  // Enters keys into a set unless one was there: the duplicate checks.
  method Claim<K(==)>(seen: set<K>, keys: seq<K>) returns (unclaimed: bool, now: set<K>)
    ensures unclaimed <==> Distinct(keys) && forall k :: k in keys ==> k !in seen
    ensures unclaimed ==> now == seen + Elements(keys)
  {
    now := seen;
    for i := 0 to |keys|
      invariant Distinct(keys[..i]) && forall k :: k in keys[..i] ==> k !in seen
      invariant now == seen + Elements(keys[..i])
    {
      if keys[i] in now {
        if keys[i] !in seen {
          assert keys[i] in keys[..i];
          var j :| 0 <= j < i && keys[..i][j] == keys[i];
          assert keys[j] == keys[i];
        }
        return false, now;
      }
      assert keys[..i + 1] == keys[..i] + [keys[i]];
      assert Elements(keys[..i + 1]) == Elements(keys[..i]) + {keys[i]};
      now := now + {keys[i]};
    }
    assert keys[..|keys|] == keys;
    return true, now;
  }

  // The strict-order checks, on non-empty keys.
  method StrictlyOrdered(keys: seq<string>) returns (ok: bool)
    requires "" !in keys
    ensures ok <==> StrictlySorted(Less, keys)
  {
    var previous := "";
    for i := 0 to |keys|
      invariant StrictlySorted(Less, keys[..i])
      invariant i == 0 ==> previous == ""
      invariant i > 0 ==> previous == keys[i - 1]
    {
      if previous != "" && !Less(previous, keys[i]) {
        assert i > 0;
        return false;
      }
      assert i > 0 ==> keys[i - 1] in keys;
      StringOrder();
      StrictPrefixExtends(Less, keys, i);
      previous := keys[i];
    }
    assert keys[..|keys|] == keys;
    return true;
  }

  lemma StrictIsDistinct(keys: seq<string>)
    requires StrictlySorted(Less, keys)
    ensures Distinct(keys)
  {
    StringOrder();
    StrictIsDetermined(Less, keys);
  }

  // Whether a middle key is below the wanted one decides one half of the keys.
  lemma HalfDecided(keys: seq<string>, middle: nat, wanted: string)
    requires StrictlySorted(Less, keys) && middle < |keys|
    ensures Less(keys[middle], wanted) ==> forall i :: 0 <= i <= middle ==> Less(keys[i], wanted)
    ensures !Less(keys[middle], wanted) ==> forall i :: middle <= i < |keys| ==> !Less(keys[i], wanted)
  {
    forall i | 0 <= i < middle && Less(keys[middle], wanted) ensures Less(keys[i], wanted) {
      LessTransitive(keys[i], keys[middle], wanted);
    }
    forall i | middle < i < |keys| && !Less(keys[middle], wanted) ensures !Less(keys[i], wanted) {
      if Less(keys[i], wanted) {
        LessTransitive(keys[middle], keys[i], wanted);
      }
    }
  }

  lemma NotFound(keys: seq<string>, low: nat, wanted: string)
    requires StrictlySorted(Less, keys) && low <= |keys| && (low < |keys| ==> keys[low] != wanted)
    requires forall i :: 0 <= i < low ==> Less(keys[i], wanted)
    requires forall i :: low <= i < |keys| ==> !Less(keys[i], wanted)
    ensures wanted !in keys
  {
    LessIrreflexive(wanted);
    forall i | 0 <= i < |keys| ensures keys[i] != wanted {
      if i > low {
        assert Less(keys[low], keys[i]);
      }
    }
  }

  // slices.BinarySearchFunc over keys in strict order.
  method BinarySearch(keys: seq<string>, wanted: string) returns (index: nat, found: bool)
    requires StrictlySorted(Less, keys)
    ensures found <==> wanted in keys
    ensures found ==> index < |keys| && keys[index] == wanted
  {
    var low: nat, high: nat := 0, |keys|;
    while low < high
      invariant low <= high <= |keys|
      invariant forall i :: 0 <= i < low ==> Less(keys[i], wanted)
      invariant forall i :: high <= i < |keys| ==> !Less(keys[i], wanted)
    {
      var middle := (low + high) / 2;
      HalfDecided(keys, middle, wanted);
      if Less(keys[middle], wanted) {
        low := middle + 1;
      } else {
        high := middle;
      }
    }
    index := low;
    found := low < |keys| && keys[low] == wanted;
    if !found {
      NotFound(keys, low, wanted);
    }
  }

  // ---- Entry lists of several modules ----------------------------------------

  function MapSeq<A, B>(f: A -> B, s: seq<A>): (r: seq<B>)
    ensures |r| == |s| && forall i :: 0 <= i < |s| ==> r[i] == f(s[i])
  {
    seq(|s|, i requires 0 <= i < |s| => f(s[i]))
  }

  lemma {:induction false} FlattenMapped<A, B, C>(xs: seq<A>, f: A -> seq<B>, h: B -> C, g: A -> seq<C>)
    requires forall x :: x in xs ==> g(x) == MapSeq(h, f(x))
    ensures Flatten(xs, g) == MapSeq(h, Flatten(xs, f))
  {
    if xs != [] {
      FlattenMapped(xs[1..], f, h, g);
      assert g(xs[0]) == MapSeq(h, f(xs[0]));
    }
  }

  // Keys are distinct when something they determine is distinct.
  lemma DistinctByTag<K, V, T>(entries: seq<(K, V)>, tag: ((K, V)) -> T)
    requires Distinct(MapSeq(tag, entries))
    requires forall i, j :: 0 <= i < |entries| && 0 <= j < |entries| && entries[i].0 == entries[j].0 ==>
      tag(entries[i]) == tag(entries[j])
    ensures Distinct(Keys(entries))
  {
    var keys, tags := Keys(entries), MapSeq(tag, entries);
    forall i, j | 0 <= i < j < |keys| ensures keys[i] != keys[j] {
      assert tags[i] != tags[j];
    }
  }

  // The keys of one more element, when those before it are distinct.
  lemma ClaimStep<A, K>(xs: seq<A>, i: nat, keys: A -> seq<K>)
    requires i < |xs| && Distinct(Flatten(xs[..i], keys))
    ensures Elements(Flatten(xs[..i + 1], keys)) == Elements(Flatten(xs[..i], keys)) + Elements(keys(xs[i]))
    ensures Distinct(Flatten(xs[..i + 1], keys)) <==>
      Distinct(keys(xs[i])) && forall k :: k in keys(xs[i]) ==> k !in Elements(Flatten(xs[..i], keys))
    ensures Distinct(Flatten(xs, keys)) ==> Distinct(Flatten(xs[..i + 1], keys))
  {
    FlattenStep(xs, i, keys);
    DistinctConcat(Flatten(xs[..i], keys), keys(xs[i]));
    if !Distinct(Flatten(xs[..i + 1], keys)) {
      FlattenPrefix(xs, i + 1, keys);
    }
  }

  // The duplicate check across several lists.
  method ClaimAcross<A, K(==)>(xs: seq<A>, keys: A -> seq<K>) returns (ok: bool)
    ensures ok <==> Distinct(Flatten(xs, keys))
  {
    var seen: set<K> := {};
    for i := 0 to |xs|
      invariant Distinct(Flatten(xs[..i], keys)) && seen == Elements(Flatten(xs[..i], keys))
    {
      var unclaimed, now := Claim(seen, keys(xs[i]));
      ClaimStep(xs, i, keys);
      if !unclaimed {
        return false;
      }
      seen := now;
    }
    assert xs[..|xs|] == xs;
    return true;
  }

  lemma RepeatedInPrefix<K>(a: seq<K>, b: seq<K>)
    requires !Distinct(a)
    ensures !Distinct(a + b)
  {
    var i, j :| 0 <= i < j < |a| && a[i] == a[j];
    assert (a + b)[i] == (a + b)[j];
  }

  lemma FlattenStep<A, K>(xs: seq<A>, n: nat, keys: A -> seq<K>)
    requires n < |xs|
    ensures Flatten(xs[..n + 1], keys) == Flatten(xs[..n], keys) + keys(xs[n])
  {
    FlattenAppend(xs[..n], xs[n], keys);
    assert xs[..n + 1] == xs[..n] + [xs[n]];
  }

  lemma FlattenPrefix<A, K>(xs: seq<A>, n: nat, keys: A -> seq<K>)
    requires n <= |xs| && !Distinct(Flatten(xs[..n], keys))
    ensures !Distinct(Flatten(xs, keys))
    decreases |xs| - n
  {
    if n < |xs| {
      FlattenStep(xs, n, keys);
      RepeatedInPrefix(Flatten(xs[..n], keys), keys(xs[n]));
      FlattenPrefix(xs, n + 1, keys);
    } else {
      assert xs[..n] == xs;
    }
  }

  method BuildIndex<A, K, V>(xs: seq<A>, entries: A -> seq<(K, V)>) returns (index: map<K, V>)
    ensures index == Written(Flatten(xs, entries), map[])
  {
    index := map[];
    for i := 0 to |xs|
      invariant index == Written(Flatten(xs[..i], entries), map[])
    {
      index := Write(index, entries(xs[i]));
      FlattenAppend(xs[..i], xs[i], entries);
      assert xs[..i + 1] == xs[..i] + [xs[i]];
      WrittenAppend(Flatten(xs[..i], entries), entries(xs[i]), map[]);
    }
    assert xs[..|xs|] == xs;
  }

  // The values under one key, in list order.
  ghost function Select<K, V>(entries: seq<(K, V)>, key: K): seq<V> {
    if entries == [] then []
    else
      var last := |entries| - 1;
      Select(entries[..last], key) + (if entries[last].0 == key then [entries[last].1] else [])
  }

  // Groups values by key; a key without values is absent.
  method Group<K(!new), V>(entries: seq<(K, V)>) returns (index: map<K, seq<V>>)
    ensures forall k :: Grouped(index, k) == Select(entries, k)
  {
    index := map[];
    for i := 0 to |entries|
      invariant forall k :: Grouped(index, k) == Select(entries[..i], k)
    {
      var key := entries[i].0;
      var before := if key in index then index[key] else [];
      ghost var was := index;
      index := index[key := before + [entries[i].1]];
      forall k ensures Grouped(index, k) == Select(entries[..i + 1], k) {
        assert Grouped(was, k) == Select(entries[..i], k);
        SelectStep(entries, i, k);
      }
    }
    assert entries[..|entries|] == entries;
  }

  ghost function Grouped<K, V>(index: map<K, seq<V>>, key: K): seq<V> {
    if key in index then index[key] else []
  }

  lemma {:induction false} SelectMember<K, V>(entries: seq<(K, V)>, key: K, value: V)
    requires value in Select(entries, key)
    ensures (key, value) in entries
  {
    var last := |entries| - 1;
    if value in Select(entries[..last], key) {
      SelectMember(entries[..last], key, value);
    } else {
      assert entries[last] == (key, value);
    }
  }

  lemma SelectStep<K, V>(entries: seq<(K, V)>, i: nat, key: K)
    requires i < |entries|
    ensures Select(entries[..i + 1], key) ==
      Select(entries[..i], key) + (if entries[i].0 == key then [entries[i].1] else [])
  {
    assert entries[..i + 1][..i] == entries[..i];
  }
}
