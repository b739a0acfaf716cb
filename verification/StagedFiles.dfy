// The life of the staged protocol files: staging, the files appended by
// callable verification, and the final clean-up of both directories.
module StagedFiles {
  import opened Common
  import opened Text
  import opened ManifestIndex
  import opened Encodings
  import opened PrintPlan

  datatype Node = Directory | Content(payload: Bytes)
  type Entries = map<string, Node>
  type Naming = nat -> string

  // The staged paths of a directory, by index.
  function Names(directory: string): Naming {
    (i: nat) => StagedPath(directory, i)
  }

  // A path below a directory, at any depth.
  predicate Inside(directory: string, path: string) {
    |path| > |directory| + 1 && path[..|directory| + 1] == directory + "/"
  }

  // One AST file per payload, named by its index.
  ghost function Staged(names: Naming, payloads: seq<Bytes>): Entries {
    if payloads == [] then map[]
    else
      var last := |payloads| - 1;
      Staged(names, payloads[..last])[names(last) := Content(payloads[last])]
  }

  ghost predicate NothingInside(entries: Entries, directory: string) {
    directory !in entries && forall p :: p in entries ==> !Inside(directory, p)
  }

  // What the scratch directory holds before its inner directory is made.
  ghost function Main(base: Entries, directory: string, payloads: seq<Bytes>): Entries {
    base[directory := Directory] + Staged(Names(directory), payloads)
  }

  // What both directories hold while a plan is staged.
  ghost function Held(base: Entries, directory: string, payloads: seq<Bytes>, generated: Option<seq<Bytes>>): Entries {
    if generated.None? then Main(base, directory, payloads)
    else
      var inner := PathIn(directory, GENERATED);
      Main(base, directory, payloads)[inner := Directory] + Staged(Names(inner), generated.value)
  }

  ghost predicate Injective(names: Naming) {
    forall i: nat, j: nat :: names(i) == names(j) ==> i == j
  }

  lemma {:induction false} StagedKeys(names: Naming, payloads: seq<Bytes>, path: string)
    ensures path in Staged(names, payloads) <==> exists i: nat :: i < |payloads| && path == names(i)
  {
    if payloads != [] {
      StagedKeys(names, payloads[..|payloads| - 1], path);
    }
  }

  lemma {:induction false} StagedAt(names: Naming, payloads: seq<Bytes>, i: nat)
    requires i < |payloads| && Injective(names)
    ensures names(i) in Staged(names, payloads) && Staged(names, payloads)[names(i)] == Content(payloads[i])
  {
    var last := |payloads| - 1;
    if i < last { StagedAt(names, payloads[..last], i); }
  }

  lemma StagedNext(names: Naming, payloads: seq<Bytes>, payload: Bytes)
    ensures Staged(names, payloads + [payload]) == Staged(names, payloads)[names(|payloads|) := Content(payload)]
  {
    assert (payloads + [payload])[..|payloads|] == payloads;
  }

  // One more payload lands at a place that was free.
  lemma StagedStep(base: Entries, names: Naming, payloads: seq<Bytes>, i: nat)
    requires i < |payloads| && Injective(names) && names(i) !in base
    ensures names(i) !in base + Staged(names, payloads[..i])
    ensures base + Staged(names, payloads[..i + 1]) ==
      (base + Staged(names, payloads[..i]))[names(i) := Content(payloads[i])]
  {
    StagedKeys(names, payloads[..i], names(i));
    StagedAfter(base, names, payloads[..i], payloads[i]);
    assert payloads[..i + 1] == payloads[..i] + [payloads[i]];
  }

  // ---- Names ------------------------------------------------------------------

  lemma PaddedDigit(n: nat)
    ensures Padded(n) != "" && Padded(n)[0] != 's'
  {
    ItoaDigits(n);
    assert Itoa(n)[0] in Itoa(n);
  }

  lemma StagedIsInside(directory: string, i: nat)
    ensures Inside(directory, StagedPath(directory, i))
    ensures !Inside(PathIn(directory, GENERATED), StagedPath(directory, i))
    ensures StagedPath(directory, i) != PathIn(directory, GENERATED)
  {
    var p, inner := StagedPath(directory, i), PathIn(directory, GENERATED);
    PaddedDigit(i);
    assert p[|directory| + 1] == Padded(i)[0];
    assert inner[|directory| + 1] == 's' && (inner + "/")[|directory| + 1] == 's';
    assert |p| > |inner| + 1 ==> p[..|inner| + 1][|directory| + 1] == p[|directory| + 1];
  }

  // The names of a directory are distinct, lie in it, and keep clear of the
  // directory of the source-implementation files.
  lemma NameFacts(directory: string)
    ensures Injective(Names(directory))
    ensures forall i: nat :: Inside(directory, Names(directory)(i))
    ensures forall i: nat :: Names(directory)(i) != PathIn(directory, GENERATED)
    ensures forall i: nat :: !Inside(PathIn(directory, GENERATED), Names(directory)(i))
  {
    forall i: nat, j: nat | Names(directory)(i) == Names(directory)(j) ensures i == j {
      StagedPathsDiffer(directory, i, j);
    }
    forall i: nat
      ensures Inside(directory, Names(directory)(i)) && Names(directory)(i) != PathIn(directory, GENERATED)
      ensures !Inside(PathIn(directory, GENERATED), Names(directory)(i))
    {
      StagedIsInside(directory, i);
    }
  }

  lemma InnerIsInside(directory: string)
    ensures Inside(directory, PathIn(directory, GENERATED))
    ensures PathIn(directory, GENERATED) != directory
    ensures forall path :: Inside(PathIn(directory, GENERATED), path) ==> Inside(directory, path)
  {
    var inner := PathIn(directory, GENERATED);
    assert inner[..|directory| + 1] == directory + "/";
    forall path | Inside(inner, path) ensures Inside(directory, path) {
      assert path[..|directory| + 1] == path[..|inner| + 1][..|directory| + 1] == (inner + "/")[..|directory| + 1];
    }
  }

  // Nothing staged in the main directory is, or is below, the inner one.
  lemma MainIsClear(base: Entries, directory: string, payloads: seq<Bytes>)
    requires NothingInside(base, directory)
    ensures NothingInside(Main(base, directory, payloads), PathIn(directory, GENERATED))
  {
    var sub := PathIn(directory, GENERATED);
    InnerIsInside(directory);
    NameFacts(directory);
    forall p | p in Main(base, directory, payloads) ensures p != sub && !Inside(sub, p) {
      StagedKeys(Names(directory), payloads, p);
    }
  }

  lemma NextIsFree(base: Entries, directory: string, payloads: seq<Bytes>, generated: Option<seq<Bytes>>)
    requires NothingInside(base, directory)
    ensures Names(directory)(|payloads|) !in Held(base, directory, payloads, generated)
  {
    var path, sub := Names(directory)(|payloads|), PathIn(directory, GENERATED);
    NameFacts(directory);
    NameFacts(sub);
    InnerIsInside(directory);
    StagedKeys(Names(directory), payloads, path);
    if generated.Some? {
      StagedKeys(Names(sub), generated.value, path);
    }
  }

  lemma WrittenBelow(main: Entries, staged: Entries, sub: string, path: string, node: Node)
    requires path != sub && path !in staged
    ensures (main[sub := Directory] + staged)[path := node] == main[path := node][sub := Directory] + staged
  {
  }

  lemma NextIsHeld(base: Entries, directory: string, payloads: seq<Bytes>, generated: Option<seq<Bytes>>, payload: Bytes)
    requires NothingInside(base, directory)
    ensures Held(base, directory, payloads, generated)[Names(directory)(|payloads|) := Content(payload)]
         == Held(base, directory, payloads + [payload], generated)
  {
    MainNext(base, directory, payloads, payload);
    if generated.Some? {
      var sub := PathIn(directory, GENERATED);
      NextIsFree(base, directory, payloads, generated);
      WrittenBelow(Main(base, directory, payloads), Staged(Names(sub), generated.value), sub,
        Names(directory)(|payloads|), Content(payload));
    }
  }

  lemma MainNext(base: Entries, directory: string, payloads: seq<Bytes>, payload: Bytes)
    ensures Main(base, directory, payloads + [payload]) ==
      Main(base, directory, payloads)[Names(directory)(|payloads|) := Content(payload)]
  {
    StagedNext(Names(directory), payloads, payload);
  }

  lemma WrittenLast(held: Entries, staged: Entries, path: string, node: Node)
    ensures (held + staged)[path := node] == held + staged[path := node]
  {
  }

  // The names that continue after n files.
  function Following(directory: string, n: nat): Naming {
    From(Names(directory), n)
  }

  function From(names: Naming, n: nat): Naming {
    (i: nat) => names(n + i)
  }

  // A tree that grows by one file with each payload.
  ghost predicate Appends(tree: seq<Bytes> -> Entries, names: Naming) {
    forall ps, p {:trigger tree(ps + [p])} :: tree(ps + [p]) == tree(ps)[names(|ps|) := Content(p)]
  }

  lemma OneMore(tree: seq<Bytes> -> Entries, names: Naming, payloads: seq<Bytes>, init: seq<Bytes>, payload: Bytes)
    requires Appends(tree, names)
    ensures tree(payloads + (init + [payload])) == tree(payloads + init)[From(names, |payloads|)(|init|) := Content(payload)]
  {
    Associate(payloads, init, [payload]);
  }

  lemma {:induction false} AppendAll(tree: seq<Bytes> -> Entries, names: Naming, payloads: seq<Bytes>, more: seq<Bytes>)
    requires Appends(tree, names)
    ensures tree(payloads) + Staged(From(names, |payloads|), more) == tree(payloads + more)
  {
    var after := From(names, |payloads|);
    if more == [] {
      assert payloads + more == payloads;
    } else {
      var last := |more| - 1;
      var init, payload := more[..last], more[last];
      AppendAll(tree, names, payloads, init);
      StagedAfter(tree(payloads), after, init, payload);
      assert init + [payload] == more;
      OneMore(tree, names, payloads, init, payload);
    }
  }

  lemma HeldAppend(base: Entries, directory: string, payloads: seq<Bytes>, generated: Option<seq<Bytes>>, more: seq<Bytes>)
    requires NothingInside(base, directory)
    ensures Held(base, directory, payloads, generated) + Staged(Following(directory, |payloads|), more)
         == Held(base, directory, payloads + more, generated)
  {
    var tree := (ps: seq<Bytes>) => Held(base, directory, ps, generated);
    forall ps, p ensures tree(ps + [p]) == tree(ps)[Names(directory)(|ps|) := Content(p)] {
      NextIsHeld(base, directory, ps, generated, p);
    }
    AppendAll(tree, Names(directory), payloads, more);
  }

  lemma StagedAfter(held: Entries, names: Naming, payloads: seq<Bytes>, payload: Bytes)
    ensures held + Staged(names, payloads + [payload]) ==
      (held + Staged(names, payloads))[names(|payloads|) := Content(payload)]
  {
    StagedNext(names, payloads, payload);
    WrittenLast(held, Staged(names, payloads), names(|payloads|), Content(payload));
  }

  lemma FollowingFacts(base: Entries, directory: string, payloads: seq<Bytes>, generated: Option<seq<Bytes>>)
    requires NothingInside(base, directory)
    ensures Injective(Following(directory, |payloads|))
    ensures forall i: nat :: Following(directory, |payloads|)(i) !in Held(base, directory, payloads, generated)
  {
    var sub := PathIn(directory, GENERATED);
    NameFacts(directory);
    NameFacts(sub);
    InnerIsInside(directory);
    forall i: nat ensures Following(directory, |payloads|)(i) !in Held(base, directory, payloads, generated) {
      var path := Names(directory)(|payloads| + i);
      StagedKeys(Names(directory), payloads, path);
      if generated.Some? { StagedKeys(Names(sub), generated.value, path); }
    }
  }

  // ---- The file tree ------------------------------------------------------------

  class Scratch {
    var entries: Entries

    constructor (entries: Entries)
      ensures this.entries == entries
    {
      this.entries := entries;
    }

    method Mkdir(path: string) returns (ok: bool)
      modifies this
      ensures ok <==> path !in old(entries)
      ensures entries == if ok then old(entries)[path := Directory] else old(entries)
    {
      ok := path !in entries;
      if ok { entries := entries[path := Directory]; }
    }

    method WriteFile(path: string, payload: Bytes) returns (ok: bool)
      modifies this
      ensures ok <==> (path in old(entries) ==> old(entries)[path].Content?)
      ensures entries == if ok then old(entries)[path := Content(payload)] else old(entries)
    {
      ok := path in entries ==> entries[path].Content?;
      if ok { entries := entries[path := Content(payload)]; }
    }

    method WriteExclusive(path: string, payload: Bytes) returns (ok: bool)
      modifies this
      ensures ok <==> path !in old(entries)
      ensures entries == if ok then old(entries)[path := Content(payload)] else old(entries)
    {
      ok := path !in entries;
      if ok { entries := entries[path := Content(payload)]; }
    }

    ghost predicate Removable(path: string)
      reads this
    {
      path in entries && (entries[path].Directory? ==> forall p :: p in entries ==> !Inside(path, p))
    }

    // A directory is removed only when nothing is left in it.
    method Remove(path: string) returns (ok: bool)
      modifies this
      ensures ok <==> old(Removable(path))
      ensures entries == if ok then old(entries) - {path} else old(entries)
    {
      ok := path in entries && (entries[path].Directory? ==> forall p :: p in entries ==> !Inside(path, p));
      if ok { entries := entries - {path}; }
    }

    // Stages payloads one by one under names that are not in use.
    method StageFiles(names: Naming, targets: seq<(string, Bytes)>, sha: Bytes -> Hash)
      returns (ok: bool, files: seq<PlanFile>)
      requires Injective(names) && forall i: nat :: names(i) !in entries
      modifies this
      ensures ok && entries == old(entries) + Staged(names, Payloads(targets))
      ensures Describes(files, names, targets, sha)
    {
      files := [];
      ghost var base, payloads := entries, Payloads(targets);
      for i := 0 to |targets|
        invariant entries == base + Staged(names, payloads[..i])
        invariant |files| == i
        invariant forall j :: 0 <= j < i ==> files[j] == PlanFile(targets[j].0, names(j), sha(targets[j].1))
      {
        StagedStep(base, names, payloads, i);
        var written := WriteFile(names(i), targets[i].1);
        files := files + [PlanFile(targets[i].0, names(i), sha(targets[i].1))];
      }
      assert payloads[..|targets|] == payloads;
      ok := true;
    }

    // stagePrintPlan as far as files go; it fails when the scratch exists.
    method Stage(directory: string, targets: seq<(string, Bytes)>, generated: Option<seq<(string, Bytes)>>, sha: Bytes -> Hash)
      returns (ok: bool, files: seq<PlanFile>, inner: seq<PlanFile>)
      requires directory !in entries ==> NothingInside(entries, directory)
      modifies this
      ensures ok <==> directory !in old(entries)
      ensures !ok ==> entries == old(entries)
      ensures ok ==> entries == Held(old(entries), directory, Payloads(targets), OptionalPayloads(generated))
      ensures ok ==> Describes(files, Names(directory), targets, sha)
      ensures ok && generated.Some? ==> Describes(inner, Names(PathIn(directory, GENERATED)), generated.value, sha)
    {
      files, inner := [], [];
      ok := Mkdir(directory);
      if !ok {
        return;
      }
      NameFacts(directory);
      ok, files := StageFiles(Names(directory), targets, sha);
      if generated.Some? {
        var sub := PathIn(directory, GENERATED);
        MainIsClear(old(entries), directory, Payloads(targets));
        ok := Mkdir(sub);
        NameFacts(sub);
        InnerIsInside(directory);
        ok, inner := StageFiles(Names(sub), generated.value, sha);
      }
    }

    // Writes under names that must not exist yet; none of the writes collides.
    method AppendFiles(names: Naming, targets: seq<(string, Bytes)>, sha: Bytes -> Hash)
      returns (ok: bool, files: seq<PlanFile>)
      requires Injective(names) && forall i: nat :: names(i) !in entries
      modifies this
      ensures ok && entries == old(entries) + Staged(names, Payloads(targets))
      ensures Describes(files, names, targets, sha)
    {
      files := [];
      ghost var base, payloads := entries, Payloads(targets);
      for i := 0 to |targets|
        invariant entries == base + Staged(names, payloads[..i])
        invariant |files| == i
        invariant forall j :: 0 <= j < i ==> files[j] == PlanFile(targets[j].0, names(j), sha(targets[j].1))
      {
        StagedStep(base, names, payloads, i);
        ok := WriteExclusive(names(i), targets[i].1);
        if !ok {
          return;
        }
        files := files + [PlanFile(targets[i].0, names(i), sha(targets[i].1))];
      }
      assert payloads[..|targets|] == payloads;
      ok := true;
    }

    // Appends the verified modules to a staged plan.
    method Append(ghost base: Entries, directory: string, ghost payloads: seq<Bytes>, ghost generated: Option<seq<Bytes>>,
      files: seq<PlanFile>, verified: seq<(string, Bytes)>, sha: Bytes -> Hash)
      returns (ok: bool, appended: seq<PlanFile>)
      requires NothingInside(base, directory) && |files| == |payloads|
      requires entries == Held(base, directory, payloads, generated)
      modifies this
      ensures ok && entries == Held(base, directory, payloads + Payloads(verified), generated)
      ensures |appended| == |files| + |verified| && appended[..|files|] == files
      ensures Describes(appended[|files|..], Following(directory, |files|), verified, sha)
    {
      FollowingFacts(base, directory, payloads, generated);
      var more;
      ok, more := AppendFiles(Following(directory, |files|), verified, sha);
      HeldAppend(base, directory, payloads, generated, Payloads(verified));
      appended := files + more;
      assert appended[|files|..] == more;
    }

    // Removes one list of staged files again.
    method RemoveFiles(ghost rest: Entries, ghost names: Naming, ghost payloads: seq<Bytes>, files: seq<PlanFile>)
      returns (ok: bool)
      requires |files| == |payloads| && forall i :: 0 <= i < |files| ==> files[i].protocolPath == names(i)
      requires Injective(names) && forall i: nat :: names(i) !in rest
      requires entries == rest + Staged(names, payloads)
      modifies this
      ensures ok && entries == rest
    {
      ghost var staged, removed: set<string> := Staged(names, payloads), {};
      for i := 0 to |files|
        invariant entries == (rest + staged) - removed
        invariant forall p :: p in removed <==> exists j: nat :: j < i && p == names(j)
      {
        StagedAt(names, payloads, i);
        ok := Remove(files[i].protocolPath);
        if !ok {
          return;
        }
        removed := removed + {names(i)};
      }
      forall p ensures p in staged <==> p in removed { StagedKeys(names, payloads, p); }
      assert entries == rest;
      ok := true;
    }

    // A directory of staged files goes with its files.
    method RemoveDirectory(ghost rest: Entries, directory: string, ghost payloads: seq<Bytes>, files: seq<PlanFile>)
      returns (ok: bool)
      requires NothingInside(rest, directory)
      requires |files| == |payloads| && forall i :: 0 <= i < |files| ==> files[i].protocolPath == Names(directory)(i)
      requires entries == rest[directory := Directory] + Staged(Names(directory), payloads)
      modifies this
      ensures ok && entries == rest
    {
      NameFacts(directory);
      ok := RemoveFiles(rest[directory := Directory], Names(directory), payloads, files);
      if !ok {
        return;
      }
      ok := Remove(directory);
      assert entries == rest;
    }

    // Every staged file is found, both directories are empty when their turn
    // comes, and nothing of the plan is left behind.
    method RemoveProtocolScratch(ghost base: Entries, directory: string, ghost payloads: seq<Bytes>,
      ghost generated: Option<seq<Bytes>>, files: seq<PlanFile>, inner: seq<PlanFile>, hasSource: bool)
      returns (ok: bool)
      requires NothingInside(base, directory) && entries == Held(base, directory, payloads, generated)
      requires |files| == |payloads| && forall i :: 0 <= i < |files| ==> files[i].protocolPath == Names(directory)(i)
      requires hasSource == generated.Some?
      requires hasSource ==> |inner| == |generated.value|
      requires forall i :: 0 <= i < |inner| ==> inner[i].protocolPath == Names(PathIn(directory, GENERATED))(i)
      modifies this
      ensures ok && entries == base
    {
      var sub := PathIn(directory, GENERATED);
      MainIsClear(base, directory, payloads);
      NameFacts(directory);
      NameFacts(sub);
      InnerIsInside(directory);
      ghost var main := Main(base, directory, payloads);
      if hasSource {
        ok := RemoveDirectory(main, sub, generated.value, inner);
        if !ok {
          return;
        }
      }
      ok := RemoveDirectory(base, directory, payloads, files);
    }
  }

  ghost function Payloads(targets: seq<(string, Bytes)>): (r: seq<Bytes>)
    ensures |r| == |targets| && forall i :: 0 <= i < |r| ==> r[i] == targets[i].1
  {
    seq(|targets|, i requires 0 <= i < |targets| => targets[i].1)
  }

  ghost function OptionalPayloads(targets: Option<seq<(string, Bytes)>>): Option<seq<Bytes>> {
    if targets.Some? then Some(Payloads(targets.value)) else None
  }

  // Every target is in the plan exactly once, at its index, with its digest.
  ghost predicate Describes(files: seq<PlanFile>, names: Naming, targets: seq<(string, Bytes)>, sha: Bytes -> Hash) {
    && |files| == |targets|
    && forall j :: 0 <= j < |files| ==> files[j] == PlanFile(targets[j].0, names(j), sha(targets[j].1))
  }

  // ---- Plans across the steps -----------------------------------------------------

  lemma MoreOutputsKeepCallable(platform: Platform, c: CallableImplementation, few: seq<string>, many: seq<string>)
    requires ValidCallable(platform, c, few) && forall o :: o in few ==> o in many
    ensures ValidCallable(platform, c, many)
  {
    forall t | t in c.targets ensures ValidTarget(t, c.modules, many) {
      assert ValidTarget(t, c.modules, few);
    }
  }

  // Appending at the next indexes keeps a plan valid exactly if the outputs are
  // there, new and distinct.
  lemma AppendKeepsValid(platform: Platform, p: Plan, outputDirectory: string, appended: seq<PlanFile>)
    requires ValidPlan(platform, p, outputDirectory)
    requires |appended| >= |p.files| && appended[..|p.files|] == p.files
    requires forall i :: |p.files| <= i < |appended| ==> appended[i].protocolPath == Names(p.protocolDirectory)(i)
    ensures ValidPlan(platform, p.(files := appended), outputDirectory) <==>
      Distinct(Outputs(appended)) && forall i :: |p.files| <= i < |appended| ==> appended[i].outputPath != ""
  {
    assert forall i :: 0 <= i < |p.files| ==> appended[i] == p.files[i];
    forall o | o in Outputs(p.files) ensures o in Outputs(appended) {
      var i :| 0 <= i < |p.files| && Outputs(p.files)[i] == o;
      assert Outputs(appended)[i] == o;
    }
    if p.hasCallable {
      MoreOutputsKeepCallable(platform, p.callable, Outputs(p.files), Outputs(appended));
    }
  }

  method Collides(p: Plan) returns (collision: bool)
    ensures collision <==> exists m :: m in p.callable.modules && m.outputPath in Outputs(p.files)
  {
    var existing := Outputs(p.files);
    for i := 0 to |p.callable.modules|
      invariant forall j :: 0 <= j < i ==> p.callable.modules[j].outputPath !in existing
    {
      if p.callable.modules[i].outputPath in existing {
        assert p.callable.modules[i] in p.callable.modules;
        return true;
      }
    }
    return false;
  }

  predicate ByOutput(a: (string, Bytes), b: (string, Bytes)) {
    Less(a.0, b.0)
  }

  // The files of callable verification, which is asked for one file per module;
  // `sorted` is what the unstable sort makes of its answer. Refused exactly when a
  // module output is already generated or the number differs; whether the extended
  // plan is valid depends on the outputs of the answer, which are not compared.
  method AppendVerifiedModules(platform: Platform, p: Plan, outputDirectory: string, scratch: Scratch,
    ghost base: Entries, ghost payloads: seq<Bytes>, ghost generated: Option<seq<Bytes>>,
    verified: seq<(string, Bytes)>, sorted: seq<(string, Bytes)>, sha: Bytes -> Hash) returns (r: Option<Plan>)
    requires ValidPlan(platform, p, outputDirectory) && p.hasCallable
    requires Sorted(ByOutput, sorted) && multiset(sorted) == multiset(verified)
    requires NothingInside(base, p.protocolDirectory) && |payloads| == |p.files|
    requires scratch.entries == Held(base, p.protocolDirectory, payloads, generated)
    modifies scratch
    ensures r.Some? <==>
      |verified| == |p.callable.modules| && forall m :: m in p.callable.modules ==> m.outputPath !in Outputs(p.files)
    ensures r.None? ==> scratch.entries == old(scratch.entries)
    ensures r.Some? ==> Extends(p, sorted, sha, r.value)
    ensures r.Some? ==> scratch.entries == Held(base, p.protocolDirectory, payloads + Payloads(sorted), generated)
    ensures r.Some? ==> (ValidPlan(platform, r.value, outputDirectory) <==> FitsBehind(p, sorted))
  {
    var collision := Collides(p);
    if collision || |verified| != |p.callable.modules| {
      return None;
    }
    PermutationKeeps(sorted, verified);
    var ok, appended := scratch.Append(base, p.protocolDirectory, payloads, generated, p.files, sorted, sha);
    AppendedPlan(platform, p, outputDirectory, sorted, sha, appended);
    return Some(p.(files := appended));
  }

  lemma AppendedPlan(platform: Platform, p: Plan, outputDirectory: string, sorted: seq<(string, Bytes)>, sha: Bytes -> Hash,
    appended: seq<PlanFile>)
    requires ValidPlan(platform, p, outputDirectory)
    requires |appended| == |p.files| + |sorted| && appended[..|p.files|] == p.files
    requires Describes(appended[|p.files|..], Following(p.protocolDirectory, |p.files|), sorted, sha)
    ensures Extends(p, sorted, sha, p.(files := appended))
    ensures ValidPlan(platform, p.(files := appended), outputDirectory) <==> FitsBehind(p, sorted)
  {
    AppendedAt(appended, p.files, p.protocolDirectory, sorted, sha);
    AppendedOutputs(p, sorted, appended);
    AppendKeepsValid(platform, p, outputDirectory, appended);
  }

  // The plan with the verified files behind its own, and otherwise as it was.
  ghost predicate Extends(p: Plan, verified: seq<(string, Bytes)>, sha: Bytes -> Hash, longer: Plan) {
    && |longer.files| == |p.files| + |verified| && longer == p.(files := longer.files)
    && longer.files[..|p.files|] == p.files
    && Describes(longer.files[|p.files|..], Following(p.protocolDirectory, |p.files|), verified, sha)
  }

  // The outputs are there, distinct and not in the plan yet.
  ghost predicate FitsBehind(p: Plan, verified: seq<(string, Bytes)>) {
    "" !in VerifiedOutputs(verified) && Distinct(Outputs(p.files) + VerifiedOutputs(verified))
  }

  function VerifiedOutputs(verified: seq<(string, Bytes)>): (r: seq<string>)
    ensures |r| == |verified| && forall i :: 0 <= i < |r| ==> r[i] == verified[i].0
  {
    seq(|verified|, i requires 0 <= i < |verified| => verified[i].0)
  }

  lemma AppendedOutputs(p: Plan, verified: seq<(string, Bytes)>, appended: seq<PlanFile>)
    requires |appended| == |p.files| + |verified|
    requires forall i :: 0 <= i < |p.files| ==> appended[i] == p.files[i]
    requires forall i :: |p.files| <= i < |appended| ==> appended[i].outputPath == VerifiedOutputs(verified)[i - |p.files|]
    ensures FitsBehind(p, verified) <==>
      Distinct(Outputs(appended)) && forall i :: |p.files| <= i < |appended| ==> appended[i].outputPath != ""
  {
    var outputs := VerifiedOutputs(verified);
    assert Outputs(appended) == Outputs(p.files) + outputs;
    if forall i :: |p.files| <= i < |appended| ==> appended[i].outputPath != "" {
      forall k | 0 <= k < |outputs| ensures outputs[k] != "" {
        assert appended[|p.files| + k].outputPath == outputs[k];
      }
    }
    if "" !in outputs {
      forall i | |p.files| <= i < |appended| ensures appended[i].outputPath != "" {
        assert outputs[i - |p.files|] in outputs;
      }
    }
  }

  // One file for each module output is what fits, if no output is generated already.
  lemma ModuleOutputsFit(platform: Platform, p: Plan, outputDirectory: string, verified: seq<(string, Bytes)>)
    requires ValidPlan(platform, p, outputDirectory) && p.hasCallable
    requires forall m :: m in p.callable.modules ==> m.outputPath != "" && m.outputPath !in Outputs(p.files)
    requires multiset(VerifiedOutputs(verified)) == multiset(ModuleOutputs(p.callable.modules))
    ensures |verified| == |p.callable.modules| && FitsBehind(p, verified)
  {
    var outputs, modules := VerifiedOutputs(verified), ModuleOutputs(p.callable.modules);
    PermutationKeeps(outputs, modules);
    DistinctPermutation(outputs, modules);
    forall o | o in outputs ensures o != "" && o !in Elements(Outputs(p.files)) {
      var k :| 0 <= k < |modules| && modules[k] == o;
      assert p.callable.modules[k] in p.callable.modules;
    }
    DistinctConcat(Outputs(p.files), outputs);
  }

  lemma AppendedAt(appended: seq<PlanFile>, files: seq<PlanFile>, directory: string, verified: seq<(string, Bytes)>, sha: Bytes -> Hash)
    requires |appended| >= |files| && appended[..|files|] == files
    requires Describes(appended[|files|..], Following(directory, |files|), verified, sha)
    ensures forall i :: 0 <= i < |files| ==> appended[i] == files[i]
    ensures forall i :: |files| <= i < |appended| ==>
      appended[i].outputPath == VerifiedOutputs(verified)[i - |files|] && appended[i].protocolPath == Names(directory)(i)
  {
    var more := appended[|files|..];
    forall i | |files| <= i < |appended|
      ensures appended[i].outputPath == VerifiedOutputs(verified)[i - |files|]
      ensures appended[i].protocolPath == Names(directory)(i)
    {
      var j: nat := i - |files|;
      assert appended[i] == more[j];
      assert more[j] == PlanFile(verified[j].0, Following(directory, |files|)(j), sha(verified[j].1));
    }
  }

  // The whole life of a plan's files, from staging to clean-up: whatever is
  // staged and appended, the tree ends as it began.
  method StageAppendAndRemove(scratch: Scratch, directory: string, targets: seq<(string, Bytes)>,
    generated: Option<seq<(string, Bytes)>>, verified: seq<(string, Bytes)>, sha: Bytes -> Hash) returns (ok: bool)
    requires directory !in scratch.entries ==> NothingInside(scratch.entries, directory)
    modifies scratch
    ensures ok <==> directory !in old(scratch.entries)
    ensures scratch.entries == old(scratch.entries)
  {
    ghost var base := scratch.entries;
    var files, inner;
    ok, files, inner := scratch.Stage(directory, targets, generated, sha);
    if !ok {
      return;
    }
    var appended;
    ok, appended := scratch.Append(base, directory, Payloads(targets), OptionalPayloads(generated), files, verified, sha);
    AppendedAt(appended, files, directory, verified, sha);
    ok := scratch.RemoveProtocolScratch(base, directory, Payloads(targets) + Payloads(verified),
      OptionalPayloads(generated), appended, if generated.Some? then inner else [], generated.Some?);
  }
}
