// The print plan handed from compilation to printing, and its validation.
module PrintPlan {
  import opened Common
  import opened Text
  import opened ManifestIndex
  import opened Encodings

  type Hash = b: Bytes | |b| == 32 witness seq(32, _ => 0 as Byte)

  datatype PlanFile = PlanFile(outputPath: string, protocolPath: string, protocolHash: Hash)
  datatype Artifact = Artifact(outputPath: string, payload: Bytes)
  datatype SourcePackage = SourcePackage(packagePath: string, assemblyPath: string, exports: seq<string>)
  datatype CertificationSource = CertificationSource(sourcePath: string, sourceDigest: string)
  datatype CallableModule = CallableModule(
    sourcePath: string, outputPath: string, sourceDigest: string, exports: seq<string>,
    certificationSources: seq<CertificationSource>)
  // Kind 1 is a module function, kind 2 a static method.
  datatype CallableTarget = CallableTarget(
    sourceIdentity: string, sourceSignature: string, sourceBodyDigest: string, variant: string,
    implementationOutput: string, implementationExport: string, generatedOutput: string,
    kind: nat, generatedExport: string, className: string, memberName: string)

  datatype SourceImplementation = SourceImplementation(generated: seq<PlanFile>, packages: seq<SourcePackage>)
  datatype CallableImplementation = CallableImplementation(
    programDigest: string, modules: seq<CallableModule>, targets: seq<CallableTarget>)

  datatype Plan = Plan(
    files: seq<PlanFile>,
    protocolDirectory: string,
    source: SourceImplementation,
    hasSource: bool,
    callable: CallableImplementation,
    hasCallable: bool,
    runtimeManifest: Artifact,
    hasRuntimeManifest: bool,
    packageDocument: Bytes)

  // Path rules of the host that are not part of this model.
  datatype Platform = Platform(absolute: string -> bool, clean: string -> bool, callablePath: string -> bool)

  const PROTOCOL := ".gotots-protocol"
  const GENERATED := "source-implementation-generated"

  // filepath.Join of a clean directory and a name.
  function PathIn(directory: string, name: string): string {
    directory + ("/" + name)
  }

  function StagedPath(directory: string, index: nat): string {
    PathIn(directory, Padded(index) + ".ast")
  }

  lemma StagedPathsDiffer(directory: string, i: nat, j: nat)
    requires StagedPath(directory, i) == StagedPath(directory, j)
    ensures i == j
  {
    CancelPrefix(directory, "/" + (Padded(i) + ".ast"), "/" + (Padded(j) + ".ast"));
    CancelPrefix("/", Padded(i) + ".ast", Padded(j) + ".ast");
    CancelSuffix(Padded(i), Padded(j), ".ast");
    PaddedInjective(i, j);
  }

  function Outputs(files: seq<PlanFile>): (paths: seq<string>)
    ensures |paths| == |files| && forall i :: 0 <= i < |paths| ==> paths[i] == files[i].outputPath
  {
    seq(|files|, i requires 0 <= i < |files| => files[i].outputPath)
  }

  // ---- What is valid ----------------------------------------------------------

  ghost predicate ValidFiles(files: seq<PlanFile>, directory: string) {
    && files != []
    && (forall i :: 0 <= i < |files| ==>
          files[i].outputPath != "" && files[i].protocolPath == StagedPath(directory, i))
    && Distinct(Outputs(files))
  }

  ghost predicate ValidPackages(s: SourceImplementation, files: seq<PlanFile>) {
    && s.packages != []
    && (forall p :: p in s.packages ==>
          p.packagePath != "" && p.assemblyPath != "" && p.exports != [] &&
          p.assemblyPath in Outputs(files) && p.assemblyPath in Outputs(s.generated))
    && Distinct(PackagePaths(s.packages))
  }

  function PackagePaths(packages: seq<SourcePackage>): (paths: seq<string>)
    ensures |paths| == |packages| && forall i :: 0 <= i < |paths| ==> paths[i] == packages[i].packagePath
  {
    seq(|packages|, i requires 0 <= i < |packages| => packages[i].packagePath)
  }

  predicate ValidCertification(platform: Platform, c: CertificationSource, m: CallableModule) {
    && platform.absolute(c.sourcePath) && platform.clean(c.sourcePath)
    && |c.sourcePath| >= 5 && c.sourcePath[|c.sourcePath| - 5..] == ".d.ts"
    && c.sourcePath != m.sourcePath && IsSHA256(c.sourceDigest)
  }

  function CertificationPaths(sources: seq<CertificationSource>): (paths: seq<string>)
    ensures |paths| == |sources| && forall i :: 0 <= i < |paths| ==> paths[i] == sources[i].sourcePath
  {
    seq(|sources|, i requires 0 <= i < |sources| => sources[i].sourcePath)
  }

  ghost predicate ValidModule(platform: Platform, m: CallableModule) {
    && platform.absolute(m.sourcePath) && platform.callablePath(m.outputPath) && IsSHA256(m.sourceDigest)
    && m.exports != [] && "" !in m.exports && StrictlySorted(Less, m.exports)
    && (forall c :: c in m.certificationSources ==> ValidCertification(platform, c, m))
    && StrictlySorted(Less, CertificationPaths(m.certificationSources))
  }

  function ModuleOutputs(modules: seq<CallableModule>): (paths: seq<string>)
    ensures |paths| == |modules| && forall i :: 0 <= i < |paths| ==> paths[i] == modules[i].outputPath
  {
    seq(|modules|, i requires 0 <= i < |modules| => modules[i].outputPath)
  }

  function Identities(targets: seq<CallableTarget>): (names: seq<string>)
    ensures |names| == |targets| && forall i :: 0 <= i < |names| ==> names[i] == targets[i].sourceIdentity
  {
    seq(|targets|, i requires 0 <= i < |targets| => targets[i].sourceIdentity)
  }

  predicate TargetShape(t: CallableTarget) {
    && t.sourceIdentity != "" && t.sourceSignature != "" && IsSHA256(t.sourceBodyDigest)
    && (t.variant == "source" || t.variant == "kernel") && t.implementationExport != ""
    && ((t.kind == 1 && t.generatedExport != "" && t.className == "" && t.memberName == "")
        || (t.kind == 2 && t.generatedExport == "" && t.className != "" && t.memberName != ""))
  }

  // The target names an export of a module and a file of the plan.
  predicate Implements(t: CallableTarget, m: CallableModule) {
    t.implementationOutput == m.outputPath && t.implementationExport in m.exports
  }

  ghost predicate ValidTarget(t: CallableTarget, modules: seq<CallableModule>, outputs: seq<string>) {
    && TargetShape(t) && t.generatedOutput in outputs
    && exists i :: 0 <= i < |modules| && Implements(t, modules[i])
  }

  function UsedExports(targets: seq<CallableTarget>, output: string): set<string> {
    set t | t in targets && t.implementationOutput == output :: t.implementationExport
  }

  ghost predicate ValidTargets(targets: seq<CallableTarget>, modules: seq<CallableModule>, outputs: seq<string>) {
    && targets != []
    && (forall t :: t in targets ==> ValidTarget(t, modules, outputs))
    && Distinct(Identities(targets))
    && (forall m :: m in modules ==> |UsedExports(targets, m.outputPath)| == |m.exports|)
  }

  ghost predicate ValidCallable(platform: Platform, c: CallableImplementation, outputs: seq<string>) {
    && IsSHA256(c.programDigest) && c.modules != []
    && (forall m :: m in c.modules ==> ValidModule(platform, m))
    && Distinct(ModuleOutputs(c.modules))
    && ValidTargets(c.targets, c.modules, outputs)
  }

  ghost predicate ValidPlan(platform: Platform, p: Plan, outputDirectory: string) {
    && p.protocolDirectory == PathIn(outputDirectory, PROTOCOL)
    && ValidFiles(p.files, p.protocolDirectory)
    && (if p.hasSource then
          ValidFiles(p.source.generated, PathIn(p.protocolDirectory, GENERATED)) && ValidPackages(p.source, p.files)
        else p.source == SourceImplementation([], []))
    && (if p.hasCallable then ValidCallable(platform, p.callable, Outputs(p.files))
        else p.callable == CallableImplementation("", [], []))
    && p.packageDocument != []
    && (p.hasRuntimeManifest ==> p.runtimeManifest.outputPath != "" && p.runtimeManifest.payload != [])
  }

  // ---- Validation ---------------------------------------------------------------

  method ValidateFiles(files: seq<PlanFile>, directory: string) returns (ok: bool)
    ensures ok <==> ValidFiles(files, directory)
  {
    if files == [] {
      return false;
    }
    for i := 0 to |files|
      invariant forall j :: 0 <= j < i ==>
        files[j].outputPath != "" && files[j].protocolPath == StagedPath(directory, j)
    {
      if files[i].outputPath == "" || files[i].protocolPath != StagedPath(directory, i) {
        return false;
      }
    }
    var paths;
    ok, paths := Claim({}, Outputs(files));
  }

  method ValidatePackages(s: SourceImplementation, files: seq<PlanFile>) returns (ok: bool)
    ensures ok <==> ValidPackages(s, files)
  {
    if s.packages == [] {
      return false;
    }
    var installed, ordinary := Outputs(files), Outputs(s.generated);
    for i := 0 to |s.packages|
      invariant forall j :: 0 <= j < i ==>
        var p := s.packages[j];
        p.packagePath != "" && p.assemblyPath != "" && p.exports != [] &&
        p.assemblyPath in installed && p.assemblyPath in ordinary
    {
      var p := s.packages[i];
      assert p in s.packages;
      if p.packagePath == "" || p.assemblyPath == "" || p.exports == [] ||
         p.assemblyPath !in installed || p.assemblyPath !in ordinary {
        return false;
      }
    }
    var paths;
    ok, paths := Claim({}, PackagePaths(s.packages));
  }

  method ValidateModule(platform: Platform, m: CallableModule) returns (ok: bool)
    ensures ok <==> ValidModule(platform, m)
  {
    if !platform.absolute(m.sourcePath) || !platform.callablePath(m.outputPath) || !IsSHA256(m.sourceDigest) ||
       m.exports == [] || "" in m.exports {
      return false;
    }
    ok := StrictlyOrdered(m.exports);
    if !ok { return; }
    for i := 0 to |m.certificationSources|
      invariant forall j :: 0 <= j < i ==> ValidCertification(platform, m.certificationSources[j], m)
    {
      assert m.certificationSources[i] in m.certificationSources;
      if !ValidCertification(platform, m.certificationSources[i], m) {
        return false;
      }
    }
    forall i | 0 <= i < |m.certificationSources| ensures CertificationPaths(m.certificationSources)[i] != "" {
      assert |m.certificationSources[i].sourcePath| >= 5;
    }
    ok := StrictlyOrdered(CertificationPaths(m.certificationSources));
  }

  function Used(used: map<string, set<string>>, output: string): set<string> {
    if output in used then used[output] else {}
  }

  method CheckTargets(targets: seq<CallableTarget>, modules: seq<CallableModule>, outputs: seq<string>)
    returns (ok: bool, used: map<string, set<string>>)
    requires Distinct(ModuleOutputs(modules))
    ensures ok <==> forall t :: t in targets ==> ValidTarget(t, modules, outputs)
    ensures ok ==> forall o :: Used(used, o) == UsedExports(targets, o)
  {
    var entries := seq(|modules|, i requires 0 <= i < |modules| => (modules[i].outputPath, modules[i]));
    var byOutput := Write(map[], entries);
    OutputsFound(modules, entries);
    used := map[];
    for i := 0 to |targets|
      invariant forall j :: 0 <= j < i ==> ValidTarget(targets[j], modules, outputs)
      invariant forall o :: Used(used, o) == UsedExports(targets[..i], o)
    {
      var t := targets[i];
      assert t in targets;
      var valid := CheckTarget(t, modules, outputs, byOutput);
      if !valid {
        return false, used;
      }
      UsedStep(targets, i, used);
      used := used[t.implementationOutput := Used(used, t.implementationOutput) + {t.implementationExport}];
    }
    assert targets[..|targets|] == targets;
    return true, used;
  }

  method CheckTarget(t: CallableTarget, modules: seq<CallableModule>, outputs: seq<string>,
    byOutput: map<string, CallableModule>) returns (ok: bool)
    requires forall o :: o in byOutput ==> byOutput[o] in modules && byOutput[o].outputPath == o
    requires forall m :: m in modules ==> m.outputPath in byOutput && byOutput[m.outputPath] == m
    ensures ok <==> ValidTarget(t, modules, outputs)
  {
    if !TargetShape(t) || t.generatedOutput !in outputs || t.implementationOutput !in byOutput {
      assert forall i :: 0 <= i < |modules| ==> modules[i] in modules;
      return false;
    }
    ok := t.implementationExport in byOutput[t.implementationOutput].exports;
    if ok {
      assert Implements(t, byOutput[t.implementationOutput]);
    } else {
      assert forall i :: 0 <= i < |modules| ==> modules[i] in modules;
    }
  }

  lemma UsedStep(targets: seq<CallableTarget>, i: nat, used: map<string, set<string>>)
    requires i < |targets| && forall o :: Used(used, o) == UsedExports(targets[..i], o)
    ensures var t := targets[i];
      var now := used[t.implementationOutput := Used(used, t.implementationOutput) + {t.implementationExport}];
      forall o :: Used(now, o) == UsedExports(targets[..i + 1], o)
  {
    var t := targets[i];
    var now := used[t.implementationOutput := Used(used, t.implementationOutput) + {t.implementationExport}];
    assert targets[..i + 1] == targets[..i] + [t];
    forall o ensures Used(now, o) == UsedExports(targets[..i + 1], o) {
      assert Used(used, o) == UsedExports(targets[..i], o);
    }
  }

  method ValidateTargets(targets: seq<CallableTarget>, modules: seq<CallableModule>, outputs: seq<string>)
    returns (ok: bool)
    requires Distinct(ModuleOutputs(modules))
    ensures ok <==> ValidTargets(targets, modules, outputs)
  {
    if targets == [] {
      return false;
    }
    var used;
    ok, used := CheckTargets(targets, modules, outputs);
    if !ok { return; }
    var identities;
    ok, identities := Claim({}, Identities(targets));
    if !ok { return; }
    for i := 0 to |modules|
      invariant forall j :: 0 <= j < i ==> |UsedExports(targets, modules[j].outputPath)| == |modules[j].exports|
    {
      assert modules[i] in modules;
      if |Used(used, modules[i].outputPath)| != |modules[i].exports| {
        return false;
      }
    }
    return true;
  }

  // The module table finds exactly the modules, each under its own output.
  lemma {:induction false} OutputsFound(modules: seq<CallableModule>, entries: seq<(string, CallableModule)>)
    requires Distinct(ModuleOutputs(modules)) && |entries| == |modules|
    requires forall i :: 0 <= i < |modules| ==> entries[i] == (modules[i].outputPath, modules[i])
    ensures forall o :: o in Written(entries, map[]) ==>
      Written(entries, map[])[o] in modules && Written(entries, map[])[o].outputPath == o
    ensures forall m :: m in modules ==>
      m.outputPath in Written(entries, map[]) && Written(entries, map[])[m.outputPath] == m
  {
    assert ManifestIndex.Keys(entries) == ModuleOutputs(modules);
    forall m | m in modules
      ensures m.outputPath in Written(entries, map[]) && Written(entries, map[])[m.outputPath] == m
    {
      var i :| 0 <= i < |modules| && modules[i] == m;
      WrittenIsScan(entries, map[], m.outputPath);
      ScanFinds(entries, i);
    }
    forall o | o in Written(entries, map[])
      ensures Written(entries, map[])[o] in modules && Written(entries, map[])[o].outputPath == o
    {
      WrittenIsScan(entries, map[], o);
      if forall i :: 0 <= i < |entries| ==> entries[i].0 != o {
        ScanMissing(entries, o);
      } else {
        var i :| 0 <= i < |entries| && entries[i].0 == o;
        ScanFinds(entries, i);
      }
    }
  }

  method ValidateCallable(platform: Platform, c: CallableImplementation, outputs: seq<string>) returns (ok: bool)
    ensures ok <==> ValidCallable(platform, c, outputs)
  {
    if !IsSHA256(c.programDigest) || c.modules == [] || c.targets == [] {
      return false;
    }
    for i := 0 to |c.modules|
      invariant forall j :: 0 <= j < i ==> ValidModule(platform, c.modules[j])
    {
      assert c.modules[i] in c.modules;
      var valid := ValidateModule(platform, c.modules[i]);
      if !valid { return false; }
    }
    var paths;
    ok, paths := Claim({}, ModuleOutputs(c.modules));
    if !ok { return; }
    ok := ValidateTargets(c.targets, c.modules, outputs);
  }

  method Validate(platform: Platform, p: Plan, outputDirectory: string) returns (ok: bool)
    ensures ok <==> ValidPlan(platform, p, outputDirectory)
  {
    if p.protocolDirectory != PathIn(outputDirectory, PROTOCOL) {
      return false;
    }
    ok := ValidateFiles(p.files, p.protocolDirectory);
    if !ok { return; }
    if p.hasSource {
      ok := ValidateFiles(p.source.generated, PathIn(p.protocolDirectory, GENERATED));
      if !ok { return; }
      ok := ValidatePackages(p.source, p.files);
      if !ok { return; }
    } else if |p.source.generated| != 0 || |p.source.packages| != 0 {
      return false;
    }
    if p.hasCallable {
      ok := ValidateCallable(platform, p.callable, Outputs(p.files));
      if !ok { return; }
    } else if p.callable.programDigest != "" || |p.callable.modules| != 0 || |p.callable.targets| != 0 {
      return false;
    }
    if p.packageDocument == [] {
      return false;
    }
    return !p.hasRuntimeManifest || (p.runtimeManifest.outputPath != "" && p.runtimeManifest.payload != []);
  }

  // ---- Consequences ---------------------------------------------------------------

  // Counting is enough: as many used exports as exports, all of them exports of
  // the module, means that none is left over.
  lemma EveryExportIsUsed(platform: Platform, c: CallableImplementation, outputs: seq<string>, m: CallableModule, e: string)
    requires ValidCallable(platform, c, outputs) && m in c.modules && e in m.exports
    ensures exists t :: t in c.targets && t.implementationOutput == m.outputPath && t.implementationExport == e
  {
    var used := UsedExports(c.targets, m.outputPath);
    forall x | x in used ensures x in Elements(m.exports) {
      var t :| t in c.targets && t.implementationOutput == m.outputPath && t.implementationExport == x;
      var i :| 0 <= i < |c.modules| && Implements(t, c.modules[i]);
      var j :| 0 <= j < |c.modules| && c.modules[j] == m;
      assert ModuleOutputs(c.modules)[i] == ModuleOutputs(c.modules)[j];
      assert i == j;
    }
    assert ValidModule(platform, m);
    StrictIsDistinct(m.exports);
    DistinctSize(m.exports);
    SubsetSize(used, Elements(m.exports));
    assert e in Elements(m.exports);
  }

  // What a target uses, and what the modules export, each with its output.
  function Uses(targets: seq<CallableTarget>): (uses: seq<(string, string)>)
    ensures |uses| == |targets|
    ensures forall i :: 0 <= i < |uses| ==> uses[i] == (targets[i].implementationOutput, targets[i].implementationExport)
  {
    seq(|targets|, i requires 0 <= i < |targets| => (targets[i].implementationOutput, targets[i].implementationExport))
  }

  function ExportsOf(m: CallableModule): seq<(string, string)> {
    MapSeq((e: string) => (m.outputPath, e), m.exports)
  }

  function CountExports(modules: seq<CallableModule>): nat {
    if modules == [] then 0 else |modules[0].exports| + CountExports(modules[1..])
  }

  lemma ExportsDistinct(m: CallableModule)
    requires Distinct(m.exports)
    ensures Distinct(ExportsOf(m)) && |ExportsOf(m)| == |m.exports|
    ensures forall p :: p in ExportsOf(m) <==> p.0 == m.outputPath && p.1 in m.exports
  {
    forall e | e in m.exports ensures (m.outputPath, e) in ExportsOf(m) {
      var k :| 0 <= k < |m.exports| && m.exports[k] == e;
      assert ExportsOf(m)[k] == (m.outputPath, e);
    }
  }

  ghost predicate IsExport(modules: seq<CallableModule>, p: (string, string)) {
    exists m :: m in modules && p.0 == m.outputPath && p.1 in m.exports
  }

  lemma {:induction false} AllExports(modules: seq<CallableModule>)
    requires Distinct(ModuleOutputs(modules)) && forall m :: m in modules ==> Distinct(m.exports)
    ensures var all := Flatten(modules, ExportsOf);
      && Distinct(all) && |all| == CountExports(modules)
      && forall p :: p in all <==> IsExport(modules, p)
  {
    if modules != [] {
      var m, rest := modules[0], modules[1..];
      OutputsBehindFirst(modules);
      AllExports(rest);
      ExportsDistinct(m);
      DistinctConcat(ExportsOf(m), Flatten(rest, ExportsOf));
      assert forall p :: p in Flatten(modules, ExportsOf) <==> p in ExportsOf(m) || p in Flatten(rest, ExportsOf);
      assert forall n :: n in modules <==> n == m || n in rest;
    }
  }

  lemma OutputsBehindFirst(modules: seq<CallableModule>)
    requires modules != [] && Distinct(ModuleOutputs(modules))
    ensures Distinct(ModuleOutputs(modules[1..]))
    ensures forall n :: n in modules[1..] ==> n.outputPath != modules[0].outputPath
  {
    var outputs := ModuleOutputs(modules);
    assert forall i :: 0 <= i < |modules| - 1 ==> ModuleOutputs(modules[1..])[i] == outputs[i + 1];
    forall n | n in modules[1..] ensures n.outputPath != modules[0].outputPath {
      var i :| 0 <= i < |modules| - 1 && modules[1..][i] == n;
      assert outputs[0] != outputs[i + 1];
    }
  }

  lemma UseIsExport(c: CallableImplementation, outputs: seq<string>, i: nat)
    requires i < |c.targets| && ValidTargets(c.targets, c.modules, outputs)
    ensures IsExport(c.modules, Uses(c.targets)[i])
  {
    assert ValidTarget(c.targets[i], c.modules, outputs);
    var j :| 0 <= j < |c.modules| && Implements(c.targets[i], c.modules[j]);
    assert c.modules[j] in c.modules;
  }

  lemma ExportIsUse(platform: Platform, c: CallableImplementation, outputs: seq<string>, m: CallableModule, e: string)
    requires ValidCallable(platform, c, outputs) && m in c.modules && e in m.exports
    ensures (m.outputPath, e) in Uses(c.targets)
  {
    EveryExportIsUsed(platform, c, outputs, m, e);
    var t :| t in c.targets && t.implementationOutput == m.outputPath && t.implementationExport == e;
    var i :| 0 <= i < |c.targets| && c.targets[i] == t;
    assert Uses(c.targets)[i] == (m.outputPath, e);
  }

  lemma UsesAreExports(platform: Platform, c: CallableImplementation, outputs: seq<string>)
    requires ValidCallable(platform, c, outputs)
    ensures forall p :: p in Uses(c.targets) <==> IsExport(c.modules, p)
  {
    forall p ensures p in Uses(c.targets) <==> IsExport(c.modules, p) {
      if p in Uses(c.targets) {
        var i :| 0 <= i < |c.targets| && Uses(c.targets)[i] == p;
        UseIsExport(c, outputs, i);
      }
      if IsExport(c.modules, p) {
        var m :| m in c.modules && p.0 == m.outputPath && p.1 in m.exports;
        ExportIsUse(platform, c, outputs, m, p.1);
      }
    }
  }

  // Each export serves one target exactly if there are as many targets as exports.
  lemma ExportsServeOnceIff(platform: Platform, c: CallableImplementation, outputs: seq<string>)
    requires ValidCallable(platform, c, outputs)
    ensures |c.targets| >= CountExports(c.modules)
    ensures Distinct(Uses(c.targets)) <==> |c.targets| == CountExports(c.modules)
  {
    forall m | m in c.modules ensures Distinct(m.exports) {
      assert ValidModule(platform, m);
      StrictIsDistinct(m.exports);
    }
    var all, uses := Flatten(c.modules, ExportsOf), Uses(c.targets);
    AllExports(c.modules);
    UsesAreExports(platform, c, outputs);
    assert Elements(all) == Elements(uses);
    DistinctSize(all);
    DistinctSize(uses);
  }

  // ---- A plan in which one export serves two targets ------------------------------------

  lemma OneModuleImplements(t: CallableTarget, m: CallableModule, output: string)
    requires TargetShape(t) && Implements(t, m) && t.generatedOutput == output
    ensures ValidTarget(t, [m], [output])
  {
    assert Implements(t, [m][0]) && output in [output];
  }

  // A module with one export, and two targets that name it.
  function Shared(source: string, output: string, generated: string, digest: string): CallableImplementation {
    var t := CallableTarget("a", "s", digest, "source", output, "e", generated, 1, "g", "", "");
    CallableImplementation(digest, [CallableModule(source, output, digest, ["e"], [])],
      [t, t.(sourceIdentity := "b")])
  }

  function SharedPlan(outputDirectory: string, source: string, output: string, generated: string, digest: string): Plan {
    var protocol := PathIn(outputDirectory, PROTOCOL);
    var file := PlanFile(generated, StagedPath(protocol, 0), seq(32, _ => 0 as Byte));
    Plan([file], protocol, SourceImplementation([], []), false, Shared(source, output, generated, digest), true,
      Artifact("", []), false, [0 as Byte])
  }

  lemma SharedTargets(source: string, output: string, generated: string, digest: string)
    requires IsSHA256(digest)
    ensures var c := Shared(source, output, generated, digest); ValidTargets(c.targets, c.modules, [generated])
  {
    var c := Shared(source, output, generated, digest);
    var m, t, u := c.modules[0], c.targets[0], c.targets[1];
    OneModuleImplements(t, m, generated);
    OneModuleImplements(u, m, generated);
    assert t in c.targets && UsedExports(c.targets, output) == {"e"};
    assert Identities(c.targets)[0] != Identities(c.targets)[1];
  }

  // Used at least once is all that follows: with any paths that the platform takes
  // there is a valid plan in which two targets share an export.
  lemma ExportMayBeUsedTwice(platform: Platform, outputDirectory: string, source: string, output: string, generated: string,
    digest: string)
    requires platform.absolute(source) && platform.callablePath(output) && generated != "" && IsSHA256(digest)
    ensures var p := SharedPlan(outputDirectory, source, output, generated, digest);
      ValidPlan(platform, p, outputDirectory) && !Distinct(Uses(p.callable.targets))
  {
    var p := SharedPlan(outputDirectory, source, output, generated, digest);
    SharedTargets(source, output, generated, digest);
    assert ValidModule(platform, p.callable.modules[0]);
    assert Outputs(p.files) == [generated];
    assert Uses(p.callable.targets)[0] == Uses(p.callable.targets)[1];
  }
}
