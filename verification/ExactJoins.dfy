// Joins of two record lists by deleting what has been matched.
module ExactJoins {
  import opened Common
  import opened Text
  import opened ManifestIndex

  // Builds a table from one list and consumes it with the other: every visit
  // must find its key with an equal value, and nothing may remain.
  method Match<K(==), V(==)>(table: seq<(K, V)>, visits: seq<(K, V)>) returns (ok: bool)
    ensures ok <==> Matches(table, visits)
  {
    var remaining := Write(map[], table);
    ghost var all := remaining;
    for i := 0 to |visits|
      invariant Distinct(Keys(visits[..i]))
      invariant forall j :: 0 <= j < i ==> visits[j].0 in all && all[visits[j].0] == visits[j].1
      invariant forall k :: k in remaining <==> k in all && forall j :: 0 <= j < i ==> visits[j].0 != k
      invariant forall k :: k in remaining ==> remaining[k] == all[k]
    {
      var (key, value) := visits[i];
      if key !in remaining {
        if key in all {
          ghost var j :| 0 <= j < i && visits[j].0 == key;
          assert Keys(visits)[j] == Keys(visits)[i];
        }
        return false;
      }
      if remaining[key] != value {
        return false;
      }
      remaining := remaining - {key};
      assert Keys(visits[..i + 1]) == Keys(visits[..i]) + [key];
    }
    assert visits[..|visits|] == visits;
    ok := |remaining| == 0;
    if ok {
      forall k | k in all ensures k in Keys(visits) {
        assert k !in remaining;
        var j :| 0 <= j < |visits| && visits[j].0 == k;
        assert Keys(visits)[j] == k;
      }
    } else {
      ghost var k :| k in remaining;
      assert k in all && k !in Keys(visits);
    }
  }

  // Each key of the table is visited exactly once, with its value.
  ghost predicate Matches<K, V>(table: seq<(K, V)>, visits: seq<(K, V)>) {
    var all := Written(table, map[]);
    && Distinct(Keys(visits))
    && (forall j :: 0 <= j < |visits| ==> visits[j].0 in all && all[visits[j].0] == visits[j].1)
    && (forall k :: k in all ==> k in Keys(visits))
  }

  lemma {:induction false} WrittenFrom<K, V>(table: seq<(K, V)>, index: map<K, V>)
    ensures Written(table, index).Keys == index.Keys + Elements(Keys(table))
    ensures forall k :: k in Written(table, index) ==>
      (k, Written(table, index)[k]) in table || (k in index && Written(table, index)[k] == index[k])
  {
    if table == [] {
      assert Elements(Keys(table)) == {};
    } else {
      WrittenFrom(table[1..], index[table[0].0 := table[0].1]);
      assert Keys(table) == [table[0].0] + Keys(table[1..]);
      assert table[0] == (table[0].0, table[0].1);
    }
  }

  lemma VisitedKeys<K, V>(table: seq<(K, V)>, visits: seq<(K, V)>)
    requires Matches(table, visits)
    ensures Written(table, map[]).Keys == Elements(Keys(visits))
  {
    var all := Written(table, map[]);
    forall k | k in Elements(Keys(visits)) ensures k in all {
      var j :| 0 <= j < |visits| && Keys(visits)[j] == k;
    }
  }

  lemma MatchedIsSame<K, V>(table: seq<(K, V)>, visits: seq<(K, V)>)
    requires |table| == |visits| && Matches(table, visits)
    ensures multiset(table) == multiset(visits)
  {
    var all := Written(table, map[]);
    WrittenFrom(table, map[]);
    DistinctSize(Keys(visits));
    DistinctSize(Keys(table));
    VisitedKeys(table, visits);
    forall v | v in visits ensures v in table {
      var j :| 0 <= j < |visits| && visits[j] == v;
      assert v == (v.0, v.1) && all[v.0] == v.1;
    }
    SameRecords(visits, table);
  }

  lemma SameIsMatched<K, V>(table: seq<(K, V)>, visits: seq<(K, V)>)
    requires Distinct(Keys(visits)) && multiset(table) == multiset(visits)
    ensures Matches(table, visits)
  {
    var all := Written(table, map[]);
    WrittenFrom(table, map[]);
    PermutationKeeps(table, visits);
    KeysOfSameRecords(table, visits);
    DistinctSize(Keys(visits));
    DistinctSize(Keys(table));
    assert Elements(Keys(table)) == Elements(Keys(visits));
    forall j | 0 <= j < |visits| ensures visits[j].0 in all && all[visits[j].0] == visits[j].1 {
      assert visits[j] in table;
      var i :| 0 <= i < |table| && table[i] == visits[j];
      WrittenIsScan(table, map[], table[i].0);
      ScanFinds(table, i);
    }
  }

  // With as many visits as table entries the match is a bijection: the two
  // lists hold the same records, and no key twice.
  lemma MatchIsBijection<K, V>(table: seq<(K, V)>, visits: seq<(K, V)>)
    requires |table| == |visits|
    ensures Matches(table, visits) <==> Distinct(Keys(visits)) && multiset(table) == multiset(visits)
  {
    if Matches(table, visits) {
      MatchedIsSame(table, visits);
    }
    if Distinct(Keys(visits)) && multiset(table) == multiset(visits) {
      SameIsMatched(table, visits);
    }
  }

  lemma UnrepeatedKeysMatchExactly<K, V>(table: seq<(K, V)>, visits: seq<(K, V)>)
    requires Distinct(Keys(table))
    ensures Matches(table, visits) <==> Distinct(Keys(visits)) && multiset(table) == multiset(visits)
  {
    if Matches(table, visits) {
      MatchesSize(table, visits);
      DistinctSize(Keys(table));
      MatchIsBijection(table, visits);
    }
    if multiset(table) == multiset(visits) {
      PermutationKeeps(table, visits);
      MatchIsBijection(table, visits);
    }
  }

  lemma MatchesSize<K, V>(table: seq<(K, V)>, visits: seq<(K, V)>)
    requires Matches(table, visits)
    ensures |visits| == |Elements(Keys(table))|
  {
    WrittenFrom(table, map[]);
    assert Written(table, map[]).Keys == Elements(Keys(visits));
    DistinctSize(Keys(visits));
  }

  lemma KeysOfSameRecords<K, V>(a: seq<(K, V)>, b: seq<(K, V)>)
    requires forall x :: x in a <==> x in b
    ensures forall k :: k in Keys(a) <==> k in Keys(b)
  {
    forall k ensures k in Keys(a) <==> k in Keys(b) {
      if k in Keys(a) {
        var i :| 0 <= i < |a| && Keys(a)[i] == k;
        assert a[i] in b;
        var j :| 0 <= j < |b| && b[j] == a[i];
        assert Keys(b)[j] == k;
      }
      if k in Keys(b) {
        var i :| 0 <= i < |b| && Keys(b)[i] == k;
        assert b[i] in a;
        var j :| 0 <= j < |a| && a[j] == b[i];
        assert Keys(a)[j] == k;
      }
    }
  }

  // Lists of the same length without repeated keys, one inside the other.
  lemma SameRecords<K, V>(a: seq<(K, V)>, b: seq<(K, V)>)
    requires |a| == |b| && Distinct(Keys(a)) && Distinct(Keys(b)) && forall x :: x in a ==> x in b
    ensures multiset(a) == multiset(b)
  {
    assert Distinct(a) && Distinct(b) by {
      forall i, j | 0 <= i < j < |a| ensures a[i] != a[j] { assert Keys(a)[i] != Keys(a)[j]; }
      forall i, j | 0 <= i < j < |b| ensures b[i] != b[j] { assert Keys(b)[i] != Keys(b)[j]; }
    }
    DistinctSize(a);
    DistinctSize(b);
    SubsetSize(Elements(a), Elements(b));
    DistinctMultiset(a);
    DistinctMultiset(b);
  }

  lemma {:induction false} DistinctMultiset<T>(s: seq<T>)
    requires Distinct(s)
    ensures multiset(s) == multiset(Elements(s))
  {
    if s == [] {
      assert Elements(s) == {};
    } else {
      var n := |s| - 1;
      assert s == s[..n] + [s[n]];
      DistinctMultiset(s[..n]);
      assert Elements(s) == Elements(s[..n]) + {s[n]};
      assert s[n] !in s[..n];
    }
  }

  // ---- Preparation ------------------------------------------------------------------

  // The compared fields of a module, and of one callable.
  datatype ModuleRecord = ModuleRecord(
    sourcePath: string, sourceDigest: string, exports: seq<string>, certification: seq<(string, string)>)
  datatype CallableRecord = CallableRecord(
    signature: string, bodyDigest: string, variant: string, output: string, exportName: string)

  datatype Claimed = Claimed(identity: string, signature: string, bodyDigest: string, variant: string, exportName: string)
  datatype PreparedModule = PreparedModule(
    output: string, sourcePath: string, sourceDigest: string, claims: seq<Claimed>, certification: seq<(string, string)>)

  function OutputsOf(m: PreparedModule): seq<string> {
    [m.output]
  }

  function ClaimedIdentities(m: PreparedModule): seq<string> {
    MapSeq((c: Claimed) => c.identity, m.claims)
  }

  // No output has two modules, and no source callable two implementations, within
  // a module or across all of them.
  ghost predicate Admitted(modules: seq<PreparedModule>) {
    Distinct(Flatten(modules, OutputsOf)) && Distinct(Flatten(modules, ClaimedIdentities))
  }

  datatype Evidence = Evidence(programDigest: string, modules: seq<PreparedModule>)

  // What preparation hands out, and nothing else does.
  type Prepared = e: Evidence | Admitted(e.modules) witness Evidence("", [])

  datatype Planned = Planned(
    programDigest: string, modules: seq<(string, ModuleRecord)>, targets: seq<(string, CallableRecord)>)

  // `digests` are the source programs that the modules were prepared for, none of
  // them empty: all have to be one program, and nothing may be owned twice.
  method PrepareAll(digests: seq<string>, modules: seq<PreparedModule>) returns (prepared: Option<Prepared>)
    requires |digests| == |modules| && "" !in digests
    ensures prepared.Some? <==> (forall i :: 0 <= i < |digests| ==> digests[i] == digests[0]) && Admitted(modules)
    ensures prepared.Some? ==> prepared.value == Evidence(if digests == [] then "" else digests[0], modules)
  {
    var digest, outputs, identities := "", {}, {};
    for i := 0 to |modules|
      invariant digest == if i == 0 then "" else digests[0]
      invariant forall j :: 0 <= j < i ==> digests[j] == digests[0]
      invariant Admitted(modules[..i]) && outputs == Elements(Flatten(modules[..i], OutputsOf))
      invariant identities == Elements(Flatten(modules[..i], ClaimedIdentities))
    {
      var m := modules[i];
      assert digests[0] in digests;
      if digest == "" {
        digest := digests[i];
      } else if digest != digests[i] {
        return None;
      }
      ClaimStep(modules, i, OutputsOf);
      ClaimStep(modules, i, ClaimedIdentities);
      assert Elements(OutputsOf(m)) == {m.output};
      if m.output in outputs {
        assert m.output in OutputsOf(m);
        return None;
      }
      outputs := outputs + {m.output};
      var unclaimed, now := Claim(identities, ClaimedIdentities(m));
      if !unclaimed {
        return None;
      }
      identities := now;
    }
    assert modules[..|modules|] == modules;
    return Some(Evidence(digest, modules));
  }

  // ---- Prepared callables against the handed-over plan --------------------------

  function ExportsOf(m: PreparedModule): seq<string> {
    MapSeq((c: Claimed) => c.exportName, m.claims)
  }

  function SortedExportsOf(m: PreparedModule): (r: seq<string>)
    ensures Sorted(Less, r) && multiset(r) == multiset(ExportsOf(m))
  {
    StringOrder();
    Sort(Less, ExportsOf(m))
  }

  function ExpectedModule(m: PreparedModule): (string, ModuleRecord) {
    (m.output, ModuleRecord(m.sourcePath, m.sourceDigest, SortedExportsOf(m), m.certification))
  }

  function ExpectedTargets(m: PreparedModule): seq<(string, CallableRecord)> {
    MapSeq((c: Claimed) => (c.identity, CallableRecord(c.signature, c.bodyDigest, c.variant, m.output, c.exportName)), m.claims)
  }

  function ExpectedModules(p: Evidence): seq<(string, ModuleRecord)> {
    MapSeq(ExpectedModule, p.modules)
  }

  function Expected(p: Evidence): seq<(string, CallableRecord)> {
    Flatten(p.modules, ExpectedTargets)
  }

  // As preparation admits no repetition, the join is a bijection of modules and of
  // callables: the plan holds exactly the prepared records.
  method ExactJoinPreparedCallablePlan(prepared: Prepared, plan: Planned) returns (ok: bool)
    ensures ok <==>
      && prepared.programDigest == plan.programDigest
      && multiset(ExpectedModules(prepared)) == multiset(plan.modules)
      && multiset(Expected(prepared)) == multiset(plan.targets)
  {
    if prepared.programDigest != plan.programDigest {
      return false;
    }
    var expected := ExpectedModules(prepared);
    AdmittedKeys(prepared);
    if |expected| != |plan.modules| {
      assert |expected| == |multiset(expected)| && |plan.modules| == |multiset(plan.modules)|;
      return false;
    }
    ok := Match(plan.modules, expected);
    MatchIsBijection(plan.modules, expected);
    if !ok {
      return;
    }
    ok := Match(Expected(prepared), plan.targets);
    UnrepeatedKeysMatchExactly(Expected(prepared), plan.targets);
    if multiset(Expected(prepared)) == multiset(plan.targets) {
      SameKeys(Expected(prepared), plan.targets);
    }
  }

  // What the plan has to say of a prepared module.
  ghost predicate DescribesModule(m: PreparedModule, output: string, r: ModuleRecord) {
    && output == m.output && r.sourcePath == m.sourcePath && r.sourceDigest == m.sourceDigest
    && r.certification == m.certification && Sorted(Less, r.exports)
    && multiset(r.exports) == multiset(seq(|m.claims|, i requires 0 <= i < |m.claims| => m.claims[i].exportName))
  }

  // And of one of its claims.
  ghost predicate DescribesClaim(m: PreparedModule, c: Claimed, identity: string, r: CallableRecord) {
    && identity == c.identity && r.signature == c.signature && r.bodyDigest == c.bodyDigest
    && r.variant == c.variant && r.exportName == c.exportName && r.output == m.output
  }

  lemma SortedNames(a: seq<string>, b: seq<string>)
    requires Sorted(Less, a) && Sorted(Less, b) && multiset(a) == multiset(b)
    ensures a == b
  {
    forall x, y | x in a && y in a && !Less(x, y) && !Less(y, x) ensures x == y {
      LessTotal(x, y);
    }
    SortedUnique(Less, a, b);
  }

  lemma SortedExports(m: PreparedModule, exports: seq<string>)
    ensures exports == SortedExportsOf(m) <==>
      Sorted(Less, exports) && multiset(exports) == multiset(seq(|m.claims|, i requires 0 <= i < |m.claims| => m.claims[i].exportName))
  {
    assert ExportsOf(m) == seq(|m.claims|, i requires 0 <= i < |m.claims| => m.claims[i].exportName);
    if Sorted(Less, exports) && multiset(exports) == multiset(ExportsOf(m)) {
      SortedNames(exports, SortedExportsOf(m));
    }
  }

  lemma ExpectedModulesDescribe(p: Evidence, i: nat, output: string, r: ModuleRecord)
    requires i < |p.modules|
    ensures |ExpectedModules(p)| == |p.modules|
    ensures ExpectedModules(p)[i] == (output, r) <==> DescribesModule(p.modules[i], output, r)
  {
    SortedExports(p.modules[i], r.exports);
    assert ExpectedModules(p)[i] == ExpectedModule(p.modules[i]);
  }

  lemma ExpectedDescribe(p: Evidence, identity: string, r: CallableRecord)
    ensures (identity, r) in Expected(p) <==>
      exists m, c :: m in p.modules && c in m.claims && DescribesClaim(m, c, identity, r)
  {
    FlattenMember(p.modules, ExpectedTargets, (identity, r));
    if (identity, r) in Expected(p) {
      var m :| m in p.modules && (identity, r) in ExpectedTargets(m);
      var j :| 0 <= j < |m.claims| && ExpectedTargets(m)[j] == (identity, r);
      assert m.claims[j] in m.claims && DescribesClaim(m, m.claims[j], identity, r);
    }
    if m, c :| m in p.modules && c in m.claims && DescribesClaim(m, c, identity, r) {
      var j :| 0 <= j < |m.claims| && m.claims[j] == c;
      assert ExpectedTargets(m)[j] == (identity, r);
    }
  }

  lemma SameKeys<K, V>(a: seq<(K, V)>, b: seq<(K, V)>)
    requires multiset(a) == multiset(b) && Distinct(Keys(a))
    ensures Distinct(Keys(b))
  {
    PermutationKeeps(a, b);
    KeysOfSameRecords(a, b);
    DistinctSize(Keys(a));
    DistinctSize(Keys(b));
    assert Elements(Keys(a)) == Elements(Keys(b));
  }

  // The keys that the join looks up are what preparation has admitted.
  lemma AdmittedKeys(p: Prepared)
    ensures Distinct(Keys(ExpectedModules(p))) && Distinct(Keys(Expected(p)))
  {
    var first := (e: (string, CallableRecord)) => e.0;
    forall m | m in p.modules ensures ClaimedIdentities(m) == MapSeq(first, ExpectedTargets(m)) {}
    FlattenMapped(p.modules, ExpectedTargets, first, ClaimedIdentities);
    assert Keys(Expected(p)) == MapSeq(first, Expected(p));
    FlattenSingle(p.modules);
    assert Keys(ExpectedModules(p)) == Flatten(p.modules, OutputsOf);
  }

  lemma {:induction false} FlattenSingle(modules: seq<PreparedModule>)
    ensures |Flatten(modules, OutputsOf)| == |modules|
    ensures forall i :: 0 <= i < |modules| ==> Flatten(modules, OutputsOf)[i] == modules[i].output
  {
    if modules != [] {
      FlattenSingle(modules[1..]);
      assert Flatten(modules, OutputsOf) == [modules[0].output] + Flatten(modules[1..], OutputsOf);
    }
  }

  // The join alone would not see a repetition: it accepts one callable for all
  // claims of an identity.
  lemma RepeatedKeysMatchOnce<K, V>(table: seq<(K, V)>, visits: seq<(K, V)>)
    requires Matches(table, visits)
    ensures |visits| == |Elements(Keys(table))| <= |table|
    ensures |visits| == |table| <==> Distinct(Keys(table))
  {
    MatchesSize(table, visits);
    DistinctSize(Keys(table));
  }

  // ---- Import maps ---------------------------------------------------------------

  function Get(m: map<string, string>, key: string): string {
    if key in m then m[key] else ""
  }

  // equalStringMap: a missing key reads as "".
  predicate EqualStringMap(left: map<string, string>, right: map<string, string>) {
    |left| == |right| && forall key :: key in left ==> Get(right, key) == left[key]
  }

  // The comparison means equality exactly for maps without empty values.
  lemma EqualStringMapIsEqualityIff(left: map<string, string>)
    ensures (forall right :: EqualStringMap(left, right) <==> left == right) <==>
      (forall key :: key in left ==> left[key] != "")
  {
    if forall key :: key in left ==> left[key] != "" {
      forall right ensures EqualStringMap(left, right) <==> left == right {
        if EqualStringMap(left, right) {
          forall key | key in left ensures key in right && right[key] == left[key] {
            assert Get(right, key) == left[key];
          }
          assert |left.Keys| == |left| && |right.Keys| == |right|;
          SubsetSize(left.Keys, right.Keys);
        }
      }
    } else {
      var key :| key in left && left[key] == "";
      var spare := UnusedKey(left.Keys);
      var right := (left - {key})[spare := "x"];
      assert right.Keys == (left.Keys - {key}) + {spare};
      assert |right| == |right.Keys| && |left| == |left.Keys|;
      assert EqualStringMap(left, right) && spare in right && spare !in left;
      assert left != right;
    }
  }

  // Some string lies outside any finite set.
  lemma UnusedKey(keys: set<string>) returns (key: string)
    ensures key !in keys
  {
    var length := LongerThan(keys);
    key := seq(length, _ => 'x');
  }

  lemma LongerThan(keys: set<string>) returns (length: nat)
    ensures forall k :: k in keys ==> |k| < length
    decreases |keys|
  {
    if keys == {} {
      length := 0;
    } else {
      var k :| k in keys;
      var rest := LongerThan(keys - {k});
      length := rest + |k| + 1;
    }
  }

  // Each record meets one loaded entry and none is left over.
  ghost predicate Joins<K, L, E>(loaded: map<K, L>, records: seq<E>, id: E -> K, agree: (L, E) -> bool) {
    && Distinct(MapSeq(id, records)) && Elements(MapSeq(id, records)) == loaded.Keys
    && forall r :: r in records ==> id(r) in loaded && agree(loaded[id(r)], r)
  }

  ghost predicate Ids<K, E>(records: seq<E>, id: E -> K, seen: set<K>) {
    Distinct(MapSeq(id, records)) && seen == Elements(MapSeq(id, records))
  }

  ghost predicate Merged<K, L, E>(loaded: map<K, L>, records: seq<E>, id: E -> K, agree: (L, E) -> bool,
    merge: (L, E) -> L, seen: set<K>, joined: map<K, L>)
  {
    && joined.Keys == loaded.Keys
    && (forall r :: r in records ==>
          id(r) in seen && id(r) in loaded && agree(loaded[id(r)], r) && joined[id(r)] == merge(loaded[id(r)], r))
    && (forall k :: k in loaded && k !in seen ==> joined[k] == loaded[k])
  }

  // What the joining loop has done after some of the records.
  ghost predicate Joined<K, L, E>(loaded: map<K, L>, records: seq<E>, id: E -> K, agree: (L, E) -> bool,
    merge: (L, E) -> L, seen: set<K>, joined: map<K, L>)
  {
    Ids(records, id, seen) && Merged(loaded, records, id, agree, merge, seen, joined)
  }

  lemma SameSize<K, L, E>(loaded: map<K, L>, records: seq<E>, id: E -> K, agree: (L, E) -> bool)
    ensures Joins(loaded, records, id, agree) ==> |loaded| == |records|
    ensures |loaded| == |records| && Distinct(MapSeq(id, records)) && Elements(MapSeq(id, records)) <= loaded.Keys ==>
      Elements(MapSeq(id, records)) == loaded.Keys
  {
    var ids := MapSeq(id, records);
    DistinctSize(ids);
    assert |loaded.Keys| == |loaded|;
    if Elements(ids) <= loaded.Keys {
      SubsetSize(Elements(ids), loaded.Keys);
    }
  }

  // A record that fails one of the loop's tests cannot be joined.
  lemma JoinFails<K, L, E>(loaded: map<K, L>, records: seq<E>, i: nat, id: E -> K, agree: (L, E) -> bool, seen: set<K>)
    requires i < |records| && seen == Elements(MapSeq(id, records[..i]))
    requires var k := id(records[i]); k !in loaded || k in seen || !agree(loaded[k], records[i])
    ensures !Joins(loaded, records, id, agree)
  {
    var ids, before := MapSeq(id, records), MapSeq(id, records[..i]);
    assert records[i] in records;
    if id(records[i]) in seen {
      var j :| 0 <= j < i && before[j] == id(records[i]);
      assert ids[j] == ids[i];
    }
  }

  lemma IdsExtend<K, E>(records: seq<E>, i: nat, id: E -> K, seen: set<K>)
    requires i < |records| && Ids(records[..i], id, seen) && id(records[i]) !in seen
    ensures Ids(records[..i + 1], id, seen + {id(records[i])})
  {
    var before, k := MapSeq(id, records[..i]), id(records[i]);
    assert MapSeq(id, records[..i + 1]) == before + [k];
    DistinctConcat(before, [k]);
    assert Elements([k]) == {k};
  }

  lemma MergedExtends<K, L, E>(loaded: map<K, L>, records: seq<E>, i: nat, id: E -> K, agree: (L, E) -> bool,
    merge: (L, E) -> L, seen: set<K>, joined: map<K, L>)
    requires i < |records| && Merged(loaded, records[..i], id, agree, merge, seen, joined)
    requires var k := id(records[i]); k in loaded && k !in seen && agree(loaded[k], records[i])
    ensures var e := records[i]; var k := id(e);
      Merged(loaded, records[..i + 1], id, agree, merge, seen + {k}, joined[k := merge(joined[k], e)])
  {
    assert records[..i + 1] == records[..i] + [records[i]];
  }

  // Another one is joined.
  lemma JoinExtends<K, L, E>(loaded: map<K, L>, records: seq<E>, i: nat, id: E -> K, agree: (L, E) -> bool,
    merge: (L, E) -> L, seen: set<K>, joined: map<K, L>)
    requires i < |records| && Joined(loaded, records[..i], id, agree, merge, seen, joined)
    requires var k := id(records[i]); k in loaded && k !in seen && agree(loaded[k], records[i])
    ensures var e := records[i]; var k := id(e);
      Joined(loaded, records[..i + 1], id, agree, merge, seen + {k}, joined[k := merge(joined[k], e)])
  {
    IdsExtend(records, i, id, seen);
    MergedExtends(loaded, records, i, id, agree, merge, seen, joined);
  }

  lemma JoinDone<K, L, E>(loaded: map<K, L>, records: seq<E>, id: E -> K, agree: (L, E) -> bool,
    merge: (L, E) -> L, seen: set<K>, joined: map<K, L>)
    requires |loaded| == |records| && Joined(loaded, records, id, agree, merge, seen, joined)
    ensures Joins(loaded, records, id, agree)
    ensures joined.Keys == loaded.Keys && forall e :: e in records ==> joined[id(e)] == merge(loaded[id(e)], e)
  {
    SameSize(loaded, records, id, agree);
    forall k | k in Elements(MapSeq(id, records)) ensures k in loaded {
      var j :| 0 <= j < |records| && MapSeq(id, records)[j] == k;
      assert records[j] in records;
    }
  }

  method Join<K(==), L, E>(loaded: map<K, L>, records: seq<E>, id: E -> K, agree: (L, E) -> bool,
    merge: (L, E) -> L) returns (r: Option<map<K, L>>)
    ensures r.Some? <==> Joins(loaded, records, id, agree)
    ensures r.Some? ==> r.value.Keys == loaded.Keys
    ensures r.Some? ==> forall e :: e in records ==> r.value[id(e)] == merge(loaded[id(e)], e)
  {
    SameSize(loaded, records, id, agree);
    if |loaded| != |records| {
      return None;
    }
    var seen, joined := {}, loaded;
    for i := 0 to |records|
      invariant Joined(loaded, records[..i], id, agree, merge, seen, joined)
    {
      var k := id(records[i]);
      if k !in loaded || k in seen || !agree(loaded[k], records[i]) {
        JoinFails(loaded, records, i, id, agree, seen);
        return None;
      }
      JoinExtends(loaded, records, i, id, agree, merge, seen, joined);
      seen := seen + {k};
      joined := joined[k := merge(joined[k], records[i])];
    }
    assert records[..|records|] == records;
    JoinDone(loaded, records, id, agree, merge, seen, joined);
    return Some(joined);
  }

  // ---- Package driver evidence ----------------------------------------------------

  // The fields compared in full.
  datatype Surface = Surface(
    name: string, packagePath: string, goFiles: seq<string>, compiledGoFiles: seq<string>, otherFiles: seq<string>,
    embedFiles: seq<string>, embedPatterns: seq<string>, ignoredFiles: seq<string>)
  datatype LoadedPackage = LoadedPackage(
    id: string, surface: Surface, imports: map<string, string>,
    directory: string, forTest: string, modulePath: string)
  datatype EvidenceRecord = EvidenceRecord(
    id: string, surface: Surface, imports: map<string, string>,
    directory: string, forTest: string, modulePath: string)

  function RecordId(r: EvidenceRecord): string { r.id }

  predicate JoinsRecord(p: LoadedPackage, r: EvidenceRecord) {
    p.surface == r.surface && EqualStringMap(p.imports, r.imports)
  }

  function WithEvidence(p: LoadedPackage, r: EvidenceRecord): LoadedPackage {
    p.(directory := r.directory, forTest := r.forTest, modulePath := r.modulePath)
  }

  // An import that the evidence lacks counts as one without an ID.
  ghost predicate ImportAgrees(recorded: map<string, string>, path: string, id: string) {
    (path in recorded && recorded[path] == id) || (path !in recorded && id == "")
  }

  // Field by field.
  ghost predicate Agrees(p: LoadedPackage, r: EvidenceRecord) {
    && p.surface.name == r.surface.name && p.surface.packagePath == r.surface.packagePath
    && p.surface.goFiles == r.surface.goFiles && p.surface.compiledGoFiles == r.surface.compiledGoFiles
    && p.surface.otherFiles == r.surface.otherFiles && p.surface.embedFiles == r.surface.embedFiles
    && p.surface.embedPatterns == r.surface.embedPatterns && p.surface.ignoredFiles == r.surface.ignoredFiles
    && |p.imports| == |r.imports| && forall path :: path in p.imports ==> ImportAgrees(r.imports, path, p.imports[path])
  }

  // The records pair off with the loaded packages of their IDs and agree with them.
  ghost predicate PairOff(loaded: map<string, LoadedPackage>, records: seq<EvidenceRecord>) {
    && (forall i, j :: 0 <= i < j < |records| ==> records[i].id != records[j].id)
    && (forall id :: id in loaded ==> exists j :: 0 <= j < |records| && records[j].id == id)
    && forall j :: 0 <= j < |records| ==> records[j].id in loaded && Agrees(loaded[records[j].id], records[j])
  }

  lemma AgreesIff(p: LoadedPackage, r: EvidenceRecord)
    ensures JoinsRecord(p, r) <==> Agrees(p, r)
  {
    forall path | path in p.imports ensures ImportAgrees(r.imports, path, p.imports[path]) <==> Get(r.imports, path) == p.imports[path] {}
  }

  lemma IdsPairOff<K, L, E>(loaded: map<K, L>, records: seq<E>, id: E -> K)
    ensures Distinct(MapSeq(id, records)) && Elements(MapSeq(id, records)) == loaded.Keys <==>
      && (forall i, j :: 0 <= i < j < |records| ==> id(records[i]) != id(records[j]))
      && (forall k :: k in loaded ==> exists j :: 0 <= j < |records| && id(records[j]) == k)
      && forall j :: 0 <= j < |records| ==> id(records[j]) in loaded
  {
    var ids := MapSeq(id, records);
    assert forall j :: 0 <= j < |records| ==> ids[j] in Elements(ids) && ids[j] == id(records[j]);
    forall k ensures k in Elements(ids) <==> exists j :: 0 <= j < |records| && id(records[j]) == k {
      if k in Elements(ids) {
        var j :| 0 <= j < |ids| && ids[j] == k;
        assert id(records[j]) == k;
      }
    }
  }

  lemma JoinsIffPairOff(loaded: map<string, LoadedPackage>, records: seq<EvidenceRecord>)
    ensures Joins(loaded, records, RecordId, JoinsRecord) <==> PairOff(loaded, records)
  {
    IdsPairOff(loaded, records, RecordId);
    forall p, r ensures JoinsRecord(p, r) <==> Agrees(p, r) {
      AgreesIff(p, r);
    }
    assert forall j :: 0 <= j < |records| ==> records[j] in records && RecordId(records[j]) == records[j].id;
  }

  // `loaded` is the response by package ID.
  method JoinDriverEvidence(roots: seq<string>, loaded: map<string, LoadedPackage>,
    evidenceRoots: seq<string>, records: seq<EvidenceRecord>) returns (r: Option<map<string, LoadedPackage>>)
    ensures r.Some? <==> roots == evidenceRoots && PairOff(loaded, records)
    ensures r.Some? ==> r.value.Keys == loaded.Keys
    ensures r.Some? ==> forall e :: e in records ==>
      && r.value[e.id].directory == e.directory && r.value[e.id].forTest == e.forTest
      && r.value[e.id].modulePath == e.modulePath && r.value[e.id].id == loaded[e.id].id
      && r.value[e.id].surface == loaded[e.id].surface && r.value[e.id].imports == loaded[e.id].imports
  {
    JoinsIffPairOff(loaded, records);
    if roots != evidenceRoots {
      return None;
    }
    r := Join(loaded, records, RecordId, JoinsRecord, WithEvidence);
    if r.Some? {
      forall e | e in records ensures r.value[e.id] == WithEvidence(loaded[e.id], e) {
        assert RecordId(e) == e.id;
      }
    }
  }
}
