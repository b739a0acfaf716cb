// The document in which the compilation worker hands its print plan over.
module WorkerDocument {
  import opened Common
  import opened ManifestIndex
  import opened Encodings
  import opened PrintPlan

  const SCHEMA_VERSION := 5

  datatype WorkerFile = WorkerFile(outputPath: string, protocolHash: string)
  datatype WorkerArtifact = WorkerArtifact(outputPath: string, payload: string)
  datatype WorkerPackage = WorkerPackage(packagePath: string, assemblyPath: string, exports: seq<string>)
  datatype WorkerSource = WorkerSource(sourcePath: string, sourceDigest: string)
  datatype WorkerModule = WorkerModule(
    sourcePath: string, outputPath: string, sourceDigest: string, exports: seq<string>,
    certificationSources: seq<WorkerSource>)
  datatype WorkerTarget = WorkerTarget(
    sourceIdentity: string, sourceSignature: string, sourceBodyDigest: string, variant: string,
    implementationOutput: string, implementationExport: string, generatedOutput: string,
    kind: nat, generatedExport: string, className: string, memberName: string)
  datatype WorkerSourceImplementation = WorkerSourceImplementation(
    generated: seq<WorkerFile>, packages: seq<WorkerPackage>)
  datatype WorkerCallableImplementation = WorkerCallableImplementation(
    programDigest: string, modules: seq<WorkerModule>, targets: seq<WorkerTarget>)

  datatype Document = Document(
    schemaVersion: int,
    workerPid: int,
    semanticDigest: string,
    files: seq<WorkerFile>,
    runtimeManifest: Option<WorkerArtifact>,
    source: Option<WorkerSourceImplementation>,
    callable: Option<WorkerCallableImplementation>,
    packageDocument: string)

  // ---- Encoding -----------------------------------------------------------------

  function EncodeFile(f: PlanFile): WorkerFile {
    WorkerFile(f.outputPath, HexEncode(f.protocolHash))
  }

  function EncodePackage(p: SourcePackage): WorkerPackage {
    WorkerPackage(p.packagePath, p.assemblyPath, p.exports)
  }

  function EncodeModule(m: CallableModule): WorkerModule {
    WorkerModule(m.sourcePath, m.outputPath, m.sourceDigest, m.exports,
      MapSeq((c: CertificationSource) => WorkerSource(c.sourcePath, c.sourceDigest), m.certificationSources))
  }

  function EncodeTarget(t: CallableTarget): WorkerTarget {
    WorkerTarget(t.sourceIdentity, t.sourceSignature, t.sourceBodyDigest, t.variant,
      t.implementationOutput, t.implementationExport, t.generatedOutput,
      t.kind, t.generatedExport, t.className, t.memberName)
  }

  function Encode(p: Plan, semanticDigest: string, workerPid: int): Option<Document> {
    if workerPid <= 0 || !IsSHA256(semanticDigest) then None
    else Some(Document(SCHEMA_VERSION, workerPid, semanticDigest, MapSeq(EncodeFile, p.files),
      if p.hasRuntimeManifest then
        Some(WorkerArtifact(p.runtimeManifest.outputPath, Base64Encode(p.runtimeManifest.payload)))
      else None,
      if p.hasSource then
        Some(WorkerSourceImplementation(MapSeq(EncodeFile, p.source.generated), MapSeq(EncodePackage, p.source.packages)))
      else None,
      if p.hasCallable then
        Some(WorkerCallableImplementation(p.callable.programDigest,
          MapSeq(EncodeModule, p.callable.modules), MapSeq(EncodeTarget, p.callable.targets)))
      else None,
      Base64Encode(p.packageDocument)))
  }

  // ---- Decoding -----------------------------------------------------------------

  // The protocol path is not in the document: it follows from the index.
  function DecodeFile(f: WorkerFile, directory: string, index: nat): Option<PlanFile> {
    if IsSHA256(f.protocolHash) then
      Some(PlanFile(f.outputPath, StagedPath(directory, index), HexDecode(f.protocolHash).value))
    else None
  }

  predicate Decodable(files: seq<WorkerFile>) {
    forall f :: f in files ==> IsSHA256(f.protocolHash)
  }

  function DecodedFiles(files: seq<WorkerFile>, directory: string): (r: seq<PlanFile>)
    requires Decodable(files)
    ensures |r| == |files| && forall i :: 0 <= i < |r| ==> Some(r[i]) == DecodeFile(files[i], directory, i)
  {
    seq(|files|, i requires 0 <= i < |files| =>
      assert files[i] in files; DecodeFile(files[i], directory, i).value)
  }

  method DecodeFiles(files: seq<WorkerFile>, directory: string) returns (r: Option<seq<PlanFile>>)
    ensures r == if Decodable(files) then Some(DecodedFiles(files, directory)) else None
  {
    var result: seq<PlanFile> := [];
    for i := 0 to |files|
      invariant |result| == i
      invariant forall j :: 0 <= j < i ==> Some(result[j]) == DecodeFile(files[j], directory, j)
      invariant forall j :: 0 <= j < i ==> IsSHA256(files[j].protocolHash)
    {
      assert files[i] in files;
      var file := DecodeFile(files[i], directory, i);
      if file.None? {
        return None;
      }
      result := result + [file.value];
    }
    assert result == DecodedFiles(files, directory);
    return Some(result);
  }

  function DecodePackage(p: WorkerPackage): SourcePackage {
    SourcePackage(p.packagePath, p.assemblyPath, p.exports)
  }

  function DecodeModule(m: WorkerModule): CallableModule {
    CallableModule(m.sourcePath, m.outputPath, m.sourceDigest, m.exports,
      MapSeq((c: WorkerSource) => CertificationSource(c.sourcePath, c.sourceDigest), m.certificationSources))
  }

  function DecodeTarget(t: WorkerTarget): CallableTarget {
    CallableTarget(t.sourceIdentity, t.sourceSignature, t.sourceBodyDigest, t.variant,
      t.implementationOutput, t.implementationExport, t.generatedOutput,
      t.kind, t.generatedExport, t.className, t.memberName)
  }

  predicate Identified(d: Document, expectedPid: int, ownPid: int) {
    && d.schemaVersion == SCHEMA_VERSION
    && expectedPid > 0 && expectedPid != ownPid && d.workerPid == expectedPid
    && IsSHA256(d.semanticDigest) && d.files != []
  }

  // The parts that have to be decoded from text.
  predicate TextDecodes(d: Document) {
    && Decodable(d.files)
    && Base64Decode(d.packageDocument).Some?
    && (d.runtimeManifest.Some? ==> Base64Decode(d.runtimeManifest.value.payload).Some?)
    && (d.source.Some? ==> Decodable(d.source.value.generated))
  }

  function DecodedPlan(d: Document, outputDirectory: string): Plan
    requires TextDecodes(d)
  {
    var directory := PathIn(outputDirectory, PROTOCOL);
    Plan(
      DecodedFiles(d.files, directory),
      directory,
      if d.source.Some? then
        SourceImplementation(
          DecodedFiles(d.source.value.generated, PathIn(directory, GENERATED)),
          MapSeq(DecodePackage, d.source.value.packages))
      else SourceImplementation([], []),
      d.source.Some?,
      if d.callable.Some? then
        CallableImplementation(d.callable.value.programDigest,
          MapSeq(DecodeModule, d.callable.value.modules), MapSeq(DecodeTarget, d.callable.value.targets))
      else CallableImplementation("", [], []),
      d.callable.Some?,
      if d.runtimeManifest.Some? then
        Artifact(d.runtimeManifest.value.outputPath, Base64Decode(d.runtimeManifest.value.payload).value)
      else Artifact("", []),
      d.runtimeManifest.Some?,
      Base64Decode(d.packageDocument).value)
  }

  ghost function Decode(platform: Platform, d: Document, outputDirectory: string, expectedPid: int, ownPid: int)
    : Option<(Plan, string)>
  {
    if Identified(d, expectedPid, ownPid) && TextDecodes(d) &&
       ValidPlan(platform, DecodedPlan(d, outputDirectory), outputDirectory)
    then Some((DecodedPlan(d, outputDirectory), d.semanticDigest))
    else None
  }

  // Reads a hand-off; whatever it accepts is a valid plan.
  method ReadCompileWorkerDocument(platform: Platform, d: Document, outputDirectory: string, expectedPid: int, ownPid: int)
    returns (r: Option<(Plan, string)>)
    ensures r == Decode(platform, d, outputDirectory, expectedPid, ownPid)
    ensures r.Some? ==> ValidPlan(platform, r.value.0, outputDirectory)
  {
    if !Identified(d, expectedPid, ownPid) {
      return None;
    }
    var directory := PathIn(outputDirectory, PROTOCOL);
    var files := DecodeFiles(d.files, directory);
    var packageDocument := Base64Decode(d.packageDocument);
    if files.None? || packageDocument.None? {
      return None;
    }
    var manifest := Artifact("", []);
    if d.runtimeManifest.Some? {
      var payload := Base64Decode(d.runtimeManifest.value.payload);
      if payload.None? {
        return None;
      }
      manifest := Artifact(d.runtimeManifest.value.outputPath, payload.value);
    }
    var source := SourceImplementation([], []);
    if d.source.Some? {
      var generated := DecodeFiles(d.source.value.generated, PathIn(directory, GENERATED));
      if generated.None? {
        return None;
      }
      source := SourceImplementation(generated.value, MapSeq(DecodePackage, d.source.value.packages));
    }
    var callable := CallableImplementation("", [], []);
    if d.callable.Some? {
      callable := CallableImplementation(d.callable.value.programDigest,
        MapSeq(DecodeModule, d.callable.value.modules), MapSeq(DecodeTarget, d.callable.value.targets));
    }
    var plan := Plan(files.value, directory, source, d.source.Some?, callable, d.callable.Some?,
      manifest, d.runtimeManifest.Some?, packageDocument.value);
    assert plan == DecodedPlan(d, outputDirectory);
    var ok := Validate(platform, plan, outputDirectory);
    if !ok {
      return None;
    }
    return Some((plan, d.semanticDigest));
  }

  // ---- Round trip -------------------------------------------------------------------

  lemma FilesRoundTrip(files: seq<PlanFile>, directory: string)
    requires forall i :: 0 <= i < |files| ==> files[i].protocolPath == StagedPath(directory, i)
    ensures Decodable(MapSeq(EncodeFile, files))
    ensures DecodedFiles(MapSeq(EncodeFile, files), directory) == files
  {
    var encoded := MapSeq(EncodeFile, files);
    forall i | 0 <= i < |files|
      ensures IsSHA256(encoded[i].protocolHash) && DecodeFile(encoded[i], directory, i) == Some(files[i])
    {
      HexRoundTrip(files[i].protocolHash);
    }
    assert Decodable(encoded);
    forall i | 0 <= i < |files| ensures DecodedFiles(encoded, directory)[i] == files[i] {
      assert Some(DecodedFiles(encoded, directory)[i]) == DecodeFile(encoded[i], directory, i);
    }
  }

  lemma ModulesRoundTrip(modules: seq<CallableModule>)
    ensures MapSeq(DecodeModule, MapSeq(EncodeModule, modules)) == modules
  {
    forall i | 0 <= i < |modules| ensures DecodeModule(EncodeModule(modules[i])) == modules[i] {
      assert DecodeModule(EncodeModule(modules[i])).certificationSources == modules[i].certificationSources;
    }
  }

  // What survives the hand-off: everything except the contents of a runtime
  // manifest that the plan does not select.
  function Selected(p: Plan): Plan {
    if p.hasRuntimeManifest then p else p.(runtimeManifest := Artifact("", []))
  }

  lemma EncodedPlanDecodes(platform: Platform, p: Plan, semanticDigest: string, pid: int, outputDirectory: string)
    requires ValidPlan(platform, p, outputDirectory) && pid > 0 && IsSHA256(semanticDigest)
    ensures var d := Encode(p, semanticDigest, pid).value;
      TextDecodes(d) && DecodedPlan(d, outputDirectory) == Selected(p)
  {
    var d := Encode(p, semanticDigest, pid).value;
    FilesRoundTrip(p.files, p.protocolDirectory);
    Base64RoundTrip(p.packageDocument);
    Base64RoundTrip(p.runtimeManifest.payload);
    if p.hasSource {
      FilesRoundTrip(p.source.generated, PathIn(p.protocolDirectory, GENERATED));
      assert MapSeq(DecodePackage, d.source.value.packages) == p.source.packages;
    }
    if p.hasCallable {
      ModulesRoundTrip(p.callable.modules);
      assert MapSeq(DecodeTarget, d.callable.value.targets) == p.callable.targets;
    }
  }

  // A valid plan comes back unchanged exactly when it carries no runtime
  // manifest it does not select: validation lets such a remnant pass.
  lemma HandOffRoundTrip(platform: Platform, p: Plan, semanticDigest: string, pid: int, ownPid: int, outputDirectory: string)
    requires ValidPlan(platform, p, outputDirectory)
    requires pid > 0 && pid != ownPid && IsSHA256(semanticDigest)
    ensures Encode(p, semanticDigest, pid).Some?
    ensures Decode(platform, Encode(p, semanticDigest, pid).value, outputDirectory, pid, ownPid) ==
      Some((Selected(p), semanticDigest))
    ensures Decode(platform, Encode(p, semanticDigest, pid).value, outputDirectory, pid, ownPid) == Some((p, semanticDigest))
      <==> (p.hasRuntimeManifest || p.runtimeManifest == Artifact("", []))
  {
    EncodedPlanDecodes(platform, p, semanticDigest, pid, outputDirectory);
    SelectedIsValid(platform, p, outputDirectory);
  }

  lemma SelectedIsValid(platform: Platform, p: Plan, outputDirectory: string)
    requires ValidPlan(platform, p, outputDirectory)
    ensures ValidPlan(platform, Selected(p), outputDirectory)
  {
  }
}
