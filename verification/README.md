# Verified models of the Go-to-TypeScript compiler's coordination code

The compiler translates Go packages to TypeScript. Around the syntax handlers it
runs worklists, indexes, canonical encodings, staged file protocols and a small Go
runtime library. This project models those parts in Dafny and proves what they
promise, for all inputs and all runs:

| part | files |
|---|---|
| Runtime library: `reflect.DeepEqual`, `reflect.MapIter`, `fs.WalkDir` | `DeepEqual`, `MapIter`, `WalkDir` |
| Sealed Go roots: inspection, copy, publication by concurrent sealers | `RootPaths`, `RootManifest`, `RootCopy`, `RootSealing`, `RootPublication` |
| Compilation session: schedulers, settling, initialization order, declaration table | `Schedulers`, `PackageGraph`, `Digraph`, `Settlement`, `InitializationOrder`, `DeclarationTable` |
| Provider manifest: canonical keys, validation, indexes, capability resolution | `ContractTypes`, `GenericOperations`, `ProviderProtocol`, `ProfileKeys`, `ManifestIndex`, `ProviderManifest`, `ManifestContents` |
| Framing and hand-off: snapshot stream, worker document, staged files, joins, installation | `SnapshotStream`, `Encodings`, `PrintPlan`, `WorkerDocument`, `StagedFiles`, `ExactJoins`, `OutputTransaction` |
| Shared: options, finite sets, text order, sorting, numerals | `Common`, `Text` |

`dafny verify dfyconfig.toml` checks all of it.

## Conventions

- Go strings are sequences of characters compared in byte order; the characters
  that matter (line break, slash, NUL, digits) are ASCII.
- SHA-256 is a parameter or left out: claims are about the hashed text. JSON
  documents are datatypes. Where a digest function is a parameter nothing is
  assumed about it, so it may collide.
- `sort.Slice` is unstable. Where ties can occur the model takes the sorted list as
  a parameter that is any sorted permutation; elsewhere it is shown that ties are equal.
- Map iteration is a nondeterministic choice of the next key.
- Hidden code (emit handlers, the requirement scheduler, the artifact graph) is an
  arbitrary function that answers with any list of requests, or fails.
- Errors are an absent result or a small tag.

## What turned out not to hold as promised

Each of these is proved, together with the exact condition under which the promise
does hold:

- `DeepEqual` is bisimilarity, but not a symmetric relation: a map with one NaN key
  equals any map of size one, because a missing key is only noticed for keys that
  can be looked up (`NaNKeyBreaksSymmetry`). Boxes that are equal one way are equal the
  other way exactly when a bisimulation relates them that pairs maps with the same keys
  only (`SymmetricIff`); a caller can rely on it when no NaN key is reachable from the
  left one (`Symmetric`). There is no shortcut for identical pointers, so a value equals
  itself exactly when no NaN and no unsupported value is reachable
  (`EqualToItselfIffReproducible`).
- `WalkDir` hands on a skip that comes back from a root that is a file, or from the
  report of a failed `Stat`; `io/fs` returns nil there (`Walker.WalkDir`, last clause).
- Protocol identities, profile keys and capability references are written without
  escaping. Method keys are injective for every name (`MethodKeyInjective`), but a name or
  an identity with a line break can stand for several lines. Every accepted protocol
  interface has the hashed text of one with a single method (`UnrestrictedNamesCollide`),
  and every accepted profile with an interface that of one with a single method
  (`UnrestrictedIdentitiesCollide`). If its own names have no line break, an interface
  shares its text with another exactly when it has two methods or more
  (`CollidesIffMoreMethods`), and a profile exactly when it has an interface and more than
  one method or callable (`CollidesIffMoreLines`). A NUL in an identity
  can leave a capability of an accepted document unresolved (`NulLeavesCapabilityUnresolved`);
  it resolves exactly if what stands under its joined names has those names
  (`CapabilityResolvesIffNamesKept`).
- The worker hand-off drops a runtime manifest that is present but not selected;
  `validate` accepts such a plan (`HandOffRoundTrip`).
- `equalStringMap` reads a missing key as an empty value. It decides equality exactly
  for maps without empty values (`EqualStringMapIsEqualityIff`).
- An export of a callable implementation may serve two targets of a valid plan
  (`ExportMayBeUsedTwice`); each serves one exactly when there are as many targets as
  exports (`ExportsServeOnceIff`).
- "Package initialization ran before complete state storage" is reported only if a root or
  a handler has asked for a variable that the scope of its ordinary package does not list
  (`Session.Settle`), and one such request is enough (`UnlistedRequestIsReported`). So it
  is a condition on the hidden code; the file roots skip blank variables, and the
  public roots refuse objects without a package scope.
- An owner lies in one target file only as far as the operations agree on its file: then
  the ownership error is unreachable (`OwnersAreExclusive`), and two operations that do not
  agree suffice for it (`TwoPathsAreInconsistent`). This is a condition on the hidden code:
  the path is that of a source site, of an artifact or of the support file, and each of
  them is fixed.
- The directory modes of a copied root are set by falling path length. The root's path
  is a dot, so it ties with one-letter directories, and the sort is unstable. Every
  order of the ties succeeds exactly when the owner is privileged, the root's mode lets
  its owner search it, or no other directory has a path of one letter (`UnblockedIffSafe`);
  otherwise setting a mode fails in some order (`UnsafeIsBlocked`). Such a copy could not
  be inspected either.
- A failed seal removes its candidate without looking at the result. What is left is the
  rest of a candidate of its own, never anything of the store (`Cache.SealRootContract`).
- The files of callable verification are counted, but their outputs are not compared with
  the module outputs: the extended plan is valid exactly if the outputs are distinct and new
  (`AppendVerifiedModules`).
- When installing an output fails and moving the previous output back fails too, the
  previous output waits under the backup name, and the reported artifact is the staging
  directory (`OutputTree.InstallOutputDirectory`).

## Model

| member | source | states |
|---|---|---|
| DeepEqual.Comparison.DeepValueEqual | gostdlib/src/reflect.ts:970-995 | with the pair table shared and never popped, true means that every pair entered since is justified by pairs in the table; false means the two boxes are not bisimilar; the unvisited pairs decrease |
| DeepEqual.Comparison.CompareEntered | gostdlib/src/reflect.ts:996-1107 | the case split by kind: true only if the children are related by the table, false only if they are not related by bisimilarity |
| DeepEqual.Comparison.CompareSlots | gostdlib/src/reflect.ts:1034-1073 | the loops over struct fields and slice elements relate all slots pairwise, nil ones only to nil |
| DeepEqual.Comparison.CompareEntries | gostdlib/src/reflect.ts:1074-1101 | the loop over a map finds every left key on the right with a related value, or a witness that it does not |
| DeepEqual.DeepEqual | gostdlib/src/reflect.ts:960-1107 | on every finite box graph, cycles included, the result is bisimilarity, which is that every path of selectors from the two boxes shows the same; with supported kinds it never panics |
| DeepEqual.BisimilarIffLooksAlike | gostdlib/src/reflect.ts:960-1107 | boxes are equal exactly when every path of pointees, fields, elements and left map keys that leads somewhere from one leads somewhere from the other, and what is seen there agrees: type, value of an integer, boolean or string, number of a float (zeros alike, infinities by sign, NaN never), nilness and length |
| DeepEqual.BisimilarityIsGreatest | gostdlib/src/reflect.ts:970-1107 | the union of all bisimulations is one and contains every other |
| DeepEqual.BisimilarIffEveryUnfoldingAgrees | gostdlib/src/reflect.ts:970-1107 | boxes are bisimilar exactly when no finite unfolding of the two graphs differs |
| DeepEqual.EqualToItselfIffReproducible | gostdlib/src/reflect.ts:987-1107 | a box equals itself exactly when no NaN and no unsupported value is reachable from it |
| DeepEqual.SymmetricIff | gostdlib/src/reflect.ts:1074-1101 | for bisimilar boxes the other direction holds exactly when a bisimulation relates them that pairs maps with the same lookup keys only |
| DeepEqual.Symmetric | gostdlib/src/reflect.ts:1074-1101 | it is enough that no map reachable from the left box has a NaN key |
| DeepEqual.NaNKeyBreaksSymmetry | gostdlib/src/reflect.ts:1074-1101 | with a NaN key it need not hold: a well-typed, supported graph where only one direction does |
| MapIter.MapIterator.Next | gostdlib/src/reflect.ts:812-831 | moves to the first snapshot key behind the position that is still in the map and says whether there is one; panics only on an exhausted iterator |
| MapIter.MapIterator.Key | gostdlib/src/reflect.ts:781-811 | answers the key at the position, or panics before the first and behind the last one |
| MapIter.MapIterator.Value | gostdlib/src/reflect.ts:832-843 | answers the current value of the key, or panics also when its entry was deleted |
| MapIter.YieldsInOrder | gostdlib/src/reflect.ts:812-831 | in any interleaving of Next with inserts and deletes the yielded snapshot indices strictly ascend |
| MapIter.YieldedKeysDistinct | gostdlib/src/reflect.ts:747-777 | with distinct snapshot keys no key is yielded twice, and only snapshot keys are, so later inserts of new keys never show |
| MapIter.ReachedOnce | gostdlib/src/reflect.ts:812-831 | each index that the scan has passed was reached by exactly one call of Next |
| MapIter.YieldedIffPresentWhenReached | gostdlib/src/reflect.ts:812-831 | a snapshot key is yielded exactly when it is in the map at the call of Next whose scan reaches it |
| MapIter.StableKeysAreYielded | gostdlib/src/reflect.ts:812-831 | a full iteration yields every snapshot key that stays in the map throughout |
| MapIter.RemovedKeysAreNotYielded | gostdlib/src/reflect.ts:812-831 | a key that is gone from before the scan reaches it is never yielded |
| WalkDir.Walker.WalkEntry | gostdlib/src/io/fs.ts:336-368 | the recursion with its loop makes the calls and returns the error of the recursive definition |
| WalkDir.Walker.WalkDir | gostdlib/src/io/fs.ts:315-334 | from a directory root: the calls and the result of the documented pruning semantics, for every history-dependent visitor; from any root exactly unless a skip is handed on |
| WalkDir.WalkVisits | gostdlib/src/io/fs.ts:336-368 | walking one entry is visiting its stretch of the flat list of all possible calls, with SkipDir as a jump behind the directory, or behind the rest of a file's directory |
| WalkDir.WalkFollowsDocumentation | gostdlib/src/io/fs.ts:315-368 | the whole walk is that visit from the first call on, with skips returned as nil |
| WalkDir.StopsAreListed | gostdlib/src/io/fs.ts:336-368 | the calls a walk can make, in order: one for each entry, with the path spelled by the names that lead to it, and a second one for a directory that cannot be read |
| WalkDir.UnprunedWalk | gostdlib/src/io/fs.ts:336-368 | a visitor that prunes nothing is called for exactly these |
| RootPaths.TextInjective | internal/toolchain/root_manifest.go:184-191 | no two valid root paths are written alike |
| RootPaths.AncestorFirst | internal/toolchain/root_manifest.go:102-104 | the text of a proper ancestor other than the root is shorter and sorts first |
| RootManifest.EvalIsPhysical | internal/toolchain/root_manifest.go:111-128 | whatever chain of links is followed, the place found is in the tree, is no link and is reached through directories |
| RootManifest.ValidateRootManifest | internal/toolchain/root_manifest.go:130-182 | accepts exactly the manifests in strict text order with valid entries, a root and a tool directory, and executable compile and link tools |
| RootManifest.InspectRootManifest | internal/toolchain/root_manifest.go:46-109 | yields a manifest exactly when one describes the root: one record for each node in strict text order, all readable, valid and within the root |
| RootManifest.InspectionUnique | internal/toolchain/root_manifest.go:61-108 | an unchanged root has one manifest only |
| RootManifest.ManifestDecidesTree | internal/toolchain/root_manifest.go:61-98 | two roots with one manifest have the same nodes at the same places: modes, sizes, digests and link targets |
| RootCopy.TargetRoot.CopyRootFile | internal/toolchain/root_snapshot.go:224-252 | succeeds exactly when mode, size and digest are the recorded ones and the target can be created, and leaves the source's node |
| RootCopy.TargetRoot.CopyRootSnapshot | internal/toolchain/root_snapshot.go:172-222 | copying an unchanged source creates the exact image of its entries; it fails only when a directory mode has its turn after a root mode that locks the owner out, and never for entries with safe modes |
| RootCopy.TargetRoot.ChmodDirectories | internal/toolchain/root_snapshot.go:210-221 | the modes are set children first; only the root can block, in the order that the sort has made |
| RootCopy.UnblockedIffSafe | internal/toolchain/root_snapshot.go:210-220 | every order that the unstable sort may make succeeds exactly when the owner is privileged, the root mode keeps the owner's search bit, or no other directory has a path of one letter |
| RootCopy.UnsafeIsBlocked | internal/toolchain/root_snapshot.go:210-220 | for all other entries there is an order in which setting a mode fails |
| RootCopy.SourceIsTreeShaped | internal/toolchain/root_manifest.go:61-98 | every proper ancestor of a recorded entry is recorded as a directory |
| RootCopy.NextIsCreatable | internal/toolchain/root_snapshot.go:177-209 | in manifest order every parent exists and is open when an entry is created, and no entry is created twice |
| RootCopy.ReachableInTurn | internal/toolchain/root_snapshot.go:210-220 | a directory is reachable in its turn exactly when the root does not block it |
| RootCopy.RelativeStepsLead | internal/toolchain/root_snapshot.go:200-205 | the relative link text leads from its directory to the recorded target |
| RootCopy.LinkLeads | internal/toolchain/root_snapshot.go:192-207 | a link of the copy resolves to the target that the source's link, or chain of links, resolved to |
| RootCopy.RecordSurvives | internal/toolchain/root_manifest.go:69-96 | each node of the copy gives the record of its source |
| RootCopy.CopyIsFaithful | internal/toolchain/root_snapshot.go:172-222 | re-inspecting a copy, wherever it stands, gives back the manifest exactly when its owner can read it, and nothing else can come out |
| RootCopy.ReadableCopyIsFinished | internal/toolchain/root_snapshot.go:210-220 | when the owner can read the copy no mode change was blocked |
| RootSealing.StepKeeps | internal/toolchain/root_snapshot.go:26-101 | every step of every sealer keeps all published containers verified and leaves them as they are |
| RootSealing.PublishedForever | internal/toolchain/root_snapshot.go:83-101 | in every interleaving, with any source changes, faults and hooks, a published container holds a manifest of its digest equal to an inspection of its own root, and is never replaced |
| RootSealing.SealersAgree | internal/toolchain/root_snapshot.go:103-170 | all sealers that succeed with one digest have the published manifest, also if digests collide |
| RootSealing.PublicationNeedsUnchangedSource | internal/toolchain/root_snapshot.go:50-101 | in every run, whoever brings a container into the store has made its eight operations without a fault, and its source inspected to the published manifest before and after the copy |
| RootSealing.ChangedSourceIsNotPublished | internal/toolchain/root_snapshot.go:72-78 | a sealer whose source inspects differently after the copy publishes nothing |
| RootSealing.RunPast | internal/toolchain/root_snapshot.go:26-101 | in every run each sealer stands where its own operations have brought it |
| RootSealing.Cache.SealRootContract | internal/toolchain/root_snapshot.go:26-101 | the procedure with its early returns, interrupted by other sealers between any two operations, is a run of the protocol that does the given operations in order, and returns a contract exactly when the protocol has it done; the contract is what the source inspected to, also after the copy if the digest was not there; nothing is left of its candidate but what a failed removal left |
| RootSealing.Cache.PublishCandidate | internal/toolchain/root_snapshot.go:89-100 | a rename loses against a container that is there; otherwise the verified candidate is the container |
| RootSealing.UndisturbedSealerSucceeds | internal/toolchain/root_snapshot.go:26-101 | a sealer without faults, whose source does not change, succeeds exactly if the manifest published under its digest is its own, or none is and its copy inspects to its manifest; then the copy is published |
| RootSealing.LaterSealersAgree | internal/toolchain/root_snapshot.go:103-170 | whoever succeeds later with a digest that is taken has the published manifest, and the container is as it was |
| RootPublication.UnchangingRootIsPublished | internal/toolchain/root_snapshot.go:26-222 | for an unchanging readable source inspected, copied and sealed without a fault: with a new digest the seal succeeds exactly if the owner of the copy can read it, and the copy is what is published |
| RootPublication.PublishedCopyStays | internal/toolchain/root_snapshot.go:26-222 | that copy is there after any further events of any sealers, and all that end with its digest end with its manifest |
| Schedulers.DeclarationScheduler.Enqueue | internal/emit/declaration_assembly.go:128-136 | appends a declaration exactly when it was never enqueued before |
| Schedulers.DeclarationScheduler.Next | internal/emit/declaration_assembly.go:138-148 | pops the first declaration and marks it as emitted |
| Schedulers.DeclarationScheduler.HasPending | internal/emit/declaration_assembly.go:150-160 | the queue and the records agree about pending work |
| Schedulers.InitializationScheduler.Enqueue | internal/emit/package_state.go:107-116 | appends a package exactly when it was never enqueued before |
| Schedulers.InitializationScheduler.Next | internal/emit/package_state.go:118-127 | pops the first package and marks it as emitted |
| Schedulers.InitializationScheduler.HasPending | internal/emit/package_state.go:129-131 | queue and pending set agree about pending work |
| Settlement.Session.RequirePackage | internal/emit/package_state.go:133-239 | on success the package has a builder, all its imports have, its variables and then itself are enqueued; nothing is added but builders of packages in any import-closed set with the package, and variables of theirs; it terminates on import cycles |
| Settlement.Session.RequireUse | internal/emit/environment_contract_assembly.go:69-165 | a source declaration is enqueued only after its package got a builder |
| Settlement.Session.EmitPackageStorage | internal/emit/package_state.go:241-292 | calls the handler once for the declaration, and fails only through it: the owner was always reached and the storage is never there twice |
| Settlement.Session.Emit | internal/emit/program.go:450-507 | calls the handler once for a popped declaration; a variable of an ordinary package has its storage afterwards |
| Settlement.Session.EmitPackageInitialization | internal/emit/package_state.go:488-528 | calls the handler once for the package, unless a source implements it or its storage is incomplete; missing owners and missing storage cannot be reported; incomplete storage is reported exactly when a variable was asked for that the scope of this ordinary package does not list |
| Settlement.Session.FinalizeRemovals | internal/emit/requirements/scheduler.go:303-325 | orphaned requirements are gone afterwards, and exactly the owners of those that are not live again are pending |
| Settlement.Session.Step | internal/emit/declaration_requirement_coordination.go:320-370 | one iteration keeps every invariant; handlers are called for the first source of work that has any, and for nothing else; it reports an end only when all queues are empty at that moment; without further requests there is one piece of work less |
| Settlement.Session.Settle | internal/emit/declaration_requirement_coordination.go:320-370 | for any handlers and any number of iterations: each declaration popped and each package initialized at most once; a handler was called for each popped declaration, and for each popped package without source implementation when nothing else was pending, in popping order; a failing call is the last one and its failure is that of the run; incomplete storage is reported only if an unlisted variable was asked for; at a regular end all queues are empty, exactly the required packages were initialized, their imports are closed and their storage is complete; when nothing more is asked for, the run ends, with that report exactly if an unlisted variable is waiting |
| Settlement.LoggedOnce | internal/emit/declaration_requirement_coordination.go:322-347 | exactly one call for each declaration that was popped and for each package that was popped and has no source implementation, and none for any other |
| Settlement.PendingIff | internal/emit/declaration_requirement_coordination.go:320-370 | after the requests of a handler that is pending which was asked for and not taken back later |
| Settlement.UnlistedRequestIsReported | internal/emit/package_state.go:512-521 | one request for an unlisted variable of an ordinary package ends in the report of incomplete storage |
| Settlement.Session.VerifyTargetFilesSettled | internal/emit/target_files.go:208-220 | after every regular end of settling the check for pending work passes, so the answer is that of the artifact closure |
| Settlement.StorageComplete | internal/emit/package_state.go:501-521 | with an empty declaration queue every variable of a required ordinary package has storage |
| Settlement.SettleAndOrder | internal/emit/target_files.go:493-549 | behind a settled session no initialization dependency is absent; the order is the specified one unless imports form a cycle |
| InitializationOrder.PackageInitializationOrder | internal/emit/target_files.go:493-549 | yields the order of the language specification, exactly when every import has a builder and imports form no cycle: each package once, behind its imports, and of those that could come next the one whose path is a prefix of the others or smaller at the first difference |
| InitializationOrder.SpecifiedIffInOrderOfPaths | internal/emit/target_files.go:493-549 | the stepwise order of the specification and that description are the same |
| Text.LessIffFirstDifference | internal/emit/target_files.go:501-504 | strings are ordered by their first difference, prefixes first |
| InitializationOrder.Check | internal/emit/target_files.go:513-534 | decides whether all imports of a candidate are initialized, else names one that waits or is absent |
| InitializationOrder.Select | internal/emit/target_files.go:508-544 | selects the ready package of least path, or shows that every remaining one waits for another |
| InitializationOrder.SpecifiedOrderUnique | internal/emit/target_files.go:497-504 | with distinct paths there is one specified order, so map iteration cannot show |
| InitializationOrder.OrderNeedsAcyclicClosed | internal/emit/target_files.go:507-548 | an order puts dependencies first, hence excludes cycles and absent imports |
| DeclarationTable.FileBuilder.Append | internal/emit/program.go:494-505 | appends a declaration and keeps the index the exact inverse of the list |
| DeclarationTable.FileBuilder.Place | internal/emit/generated_artifact_assembly.go:143-183 | replaces the owner's declaration in place, counting reconstructions, or appends it |
| DeclarationTable.FileBuilder.Remove | internal/emit/declaration_requirement_coordination.go:425-433 | cuts out one declaration, keeps the order of the others and re-indexes exactly those behind it |
| DeclarationTable.Table.Emit | internal/emit/program.go:461-505 | appends exactly for an owner without a declaration in the file; an error of the package export comes after the append and leaves the declaration there |
| DeclarationTable.Table.Reconstruct | internal/emit/generated_artifact_assembly.go:117-184 | replaces or appends the owner's declaration |
| DeclarationTable.Table.RemoveTargetDeclaration | internal/emit/declaration_requirement_coordination.go:408-439 | fails exactly if two files hold the owner, and then has removed the declaration it met first; otherwise removes the one there is, reports whether there was one, and an emptied file disappears |
| DeclarationTable.Table.Retire | internal/emit/external_package_artifact_lifecycle.go:535-588 | succeeds exactly for a committed retirement of a declaration that the file of the artifact holds and no other file does; it is then gone |
| DeclarationTable.HeldAfter | internal/emit/declaration_requirement_coordination.go:408-439 | a step makes a file hold exactly the owner it places there, and takes from one file the owner it retires |
| DeclarationTable.EntryAfter | internal/emit/generated_artifact_assembly.go:143-183 | what stands for an owner after a step: the new declaration, its reconstruction counted after the former one, or what stood there |
| DeclarationTable.ExclusiveAfter | internal/emit/declaration_requirement_coordination.go:412-424 | a step keeps each owner in one file exactly if it does not place an owner that another file holds |
| DeclarationTable.OwnersAreExclusive | internal/emit/declaration_requirement_coordination.go:408-439 | over any run, with any failures, whose operations agree on the file of each owner no two files hold one owner, so the inconsistency error is unreachable |
| DeclarationTable.TwoPathsAreInconsistent | internal/emit/declaration_requirement_coordination.go:417-424 | two operations that place an owner in different files make its retirement fail |
| DeclarationTable.RunKeepsOrder | internal/emit/declaration_requirement_coordination.go:425-433 | over any run of emit, reconstruct and retire, declarations of a file that are not retired stay there in their relative order |
| ContractTypes.TypeKeyUnique | internal/contracts/gostdlib/generic_operation.go:358-386 | keys of valid type expressions are prefix-free and uniquely decodable |
| ContractTypes.SameKeyIffEqual | internal/contracts/gostdlib/generic_operation.go:288-340 | comparing keys is comparing type expressions |
| GenericOperations.BuildOperationKey | internal/contracts/gostdlib/generic_operation.go:342-356 | the loops write the key |
| GenericOperations.OperationKeyInjective | internal/contracts/gostdlib/generic_operation.go:342-356 | valid operations with equal keys are equal |
| GenericOperations.ValidateGenericOperations | internal/contracts/gostdlib/generic_operation.go:186-227 | accepts exactly the valid lists, in strict key order when that is required |
| GenericOperations.CanonicalGenericOperations | internal/contracts/gostdlib/generic_operation.go:120-135 | sorts a list, and fails exactly on an invalid or repeated operation |
| GenericOperations.CanonicalIgnoresOrder | internal/contracts/gostdlib/generic_operation.go:120-135 | permuted inputs have the same canonical form |
| GenericOperations.CanonicalIsIdempotent | internal/contracts/gostdlib/generic_operation.go:120-135 | canonicalising again changes nothing, and the form holds the same operations in strict order |
| GenericOperations.ShapeIsStructural | internal/contracts/gostdlib/generic_operation.go:288-340 | operations of valid types are accepted exactly if they take and return, as type expressions, what their kind asks for |
| ProviderProtocol.ValidateProtocol | internal/contracts/gostdlib/provider_protocol.go:140-179 | accepts exactly valid methods in strict name order |
| ProviderProtocol.BuildIdentityPayload | internal/contracts/gostdlib/provider_protocol.go:26-58 | the hashed text is that of the canonical interface, and exists exactly when there is one |
| ProviderProtocol.MethodKeyInjective | internal/contracts/gostdlib/provider_protocol.go:216-238 | method keys of valid methods are injective, whatever their names |
| ProviderProtocol.PayloadDecidesMethods | internal/contracts/gostdlib/provider_protocol.go:42-58 | hashed texts are equal exactly when the interfaces hold the same methods in any order, for names without line breaks |
| ProviderProtocol.UnrestrictedNamesCollide | internal/contracts/gostdlib/provider_protocol.go:181-184 | as only the first rune of a name is checked, every accepted interface shares its text with one of a single method |
| ProviderProtocol.CollidesIffMoreMethods | internal/contracts/gostdlib/provider_protocol.go:26-58 | an accepted interface without line breaks in its names shares its text with another, of any names, exactly when it has more than one method |
| ProfileKeys.WriteMethods | internal/contracts/gostdlib/provider_callable_profile.go:300-316 | writes the method lines, exactly for methods in strict order with valid effects |
| ProfileKeys.WriteCallables | internal/contracts/gostdlib/provider_callable_profile.go:318-333 | writes the callable lines, exactly for non-negative parameters in strict order |
| ProfileKeys.WriteInterfaces | internal/contracts/gostdlib/provider_callable_profile.go:286-317 | writes the interface blocks, exactly for complete interfaces in strict order |
| ProfileKeys.BuildProviderCallableProfileKey | internal/contracts/gostdlib/provider_callable_profile.go:256-336 | the hashed text is that of the sorted profile, and exists exactly when that is accepted |
| ProfileKeys.PayloadInjective | internal/contracts/gostdlib/provider_callable_profile.go:284-336 | accepted profiles with equal texts, and identities without line breaks, are equal |
| ProfileKeys.PayloadDecidesProfile | internal/contracts/gostdlib/provider_callable_profile.go:256-336 | texts are equal exactly when the interface sets, their method sets and the callable sets are |
| ProfileKeys.UnrestrictedIdentitiesCollide | internal/contracts/gostdlib/provider_callable_profile.go:296-315 | as identities are not restricted, every accepted profile with an interface shares its text with one that has a single method and no callable |
| ProfileKeys.CollidesIffMoreLines | internal/contracts/gostdlib/provider_callable_profile.go:256-336 | an accepted profile without line breaks in its identities shares its text with another, of any identities, exactly when it has an interface and is not a single interface with a single method and no callable |
| ManifestIndex.WrittenIsScan | internal/contracts/gostdlib/codec.go:45-153 | a table filled from entries with distinct keys answers what a linear scan answers |
| ManifestIndex.BinarySearch | internal/contracts/gostdlib/model.go:454-466 | finds a key in strictly ordered keys exactly when it is there |
| ManifestIndex.Group | internal/contracts/gostdlib/codec.go:45-153 | a table of lists answers the entries of a key in their order |
| ProviderManifest.ClaimExports | internal/contracts/gostdlib/codec_facet_module.go:303-415 | accepts exactly the claims in which equal exports agree about their target |
| ProviderManifest.ValidateCapabilities | internal/contracts/gostdlib/provider_interface_capability_codec.go:5-94 | accepts exactly ordered capabilities whose base and view are listed with the named profile |
| ProviderManifest.ResolveCapability | internal/contracts/gostdlib/provider_interface_capability.go:53-88 | the search loops find the profile, base and target interface of the specification |
| ProviderManifest.CapabilityResolvesIffNamesKept | internal/contracts/gostdlib/provider_interface_capability.go:53-106 | a capability of an accepted module resolves to a valid one exactly if the profile under its joined names has those names and its base is listed under its own |
| ProviderManifest.AcceptedCapabilityResolves | internal/contracts/gostdlib/provider_interface_capability.go:53-106 | in an accepted module with identities free of NUL every capability resolves to one that is valid |
| ProviderManifest.NulLeavesCapabilityUnresolved | internal/contracts/gostdlib/provider_interface_capability_codec.go:5-94 | with a NUL it need not: an accepted document, for any module names, profile key and evidence, with a capability that stays unresolved |
| ProviderManifest.ValidateFacetModule | internal/contracts/gostdlib/codec_facet_module.go:9-273 | accepts exactly modules with ordered facets, representations, interfaces, profiles and capabilities, resolvable references and exclusive exports |
| ProviderManifest.ValidateRepresentations | internal/contracts/gostdlib/codec_facet_module.go:417-471 | accepts exactly representations in strict order with strictly ordered methods |
| ProviderManifest.ValidateDocument | internal/contracts/gostdlib/codec.go:162-276 | accepts exactly documents whose modules, specifiers, bindings and facets are unique across all modules |
| ProviderManifest.Parse | internal/contracts/gostdlib/codec.go:45-153 | succeeds exactly on accepted documents, and every index answers what a scan of all modules would |
| ManifestContents.ParsedHoldsDocument | internal/contracts/gostdlib/codec.go:77-153 | the parsed manifest holds, key by key, what the document says: bindings, representations, interfaces, both kinds of profiles, facets under each capability with the representation they name, capabilities under their base; and nothing else |
| ManifestContents.FacetsHeld | internal/contracts/gostdlib/codec.go:122-141 | of facets: each is found under its identity, kind and each of its capabilities, with the specifier of its module and the representation of the export it names |
| ManifestContents.CapabilitiesHeld | internal/contracts/gostdlib/codec.go:111-121 | of capabilities: under each base identity those of all modules in document order, each with the first profile, base and last target that its names stand for |
| ProviderManifest.IndexedCapabilitiesAreValid | internal/contracts/gostdlib/provider_interface_capability.go:90-106 | every capability that an index of an accepted document returns is valid and filed under its base |
| ProviderManifest.FacetResolves | internal/contracts/gostdlib/facet.go:219-269 | a facet that names a representation is bound to a representation of that name |
| ProviderManifest.ViewsAreExclusive | internal/contracts/gostdlib/codec_facet_module.go:303-415 | in an accepted module the view export of a capability is the export of no representation, interface or profile |
| ProviderManifest.ProfilesShareTargets | internal/contracts/gostdlib/codec_facet_module.go:303-415 | callable profiles with one export have one identity and evidence, and no stateful profile has that export |
| ProviderManifest.RepeatedInterfaceIsProvided | internal/contracts/gostdlib/codec_facet_module.go:303-415 | a profile interface with the export of a provider interface is that interface |
| ProviderManifest.FindMethod | internal/contracts/gostdlib/facet.go:395-411 | binary search finds a method of an accepted representation exactly when there is one |
| SnapshotStream.Digest.WritePackage | internal/load/source_snapshot.go:57-123 | the loops write the framed bytes of a package with sorted files |
| SnapshotStream.SealSourceSnapshot | internal/load/source_snapshot.go:30-55 | hashes the stream, exactly for complete packages with distinct file identities |
| SnapshotStream.PackageUnique | internal/load/source_snapshot.go:57-123 | package bytes are prefix-free and decide the package up to the order of its files |
| SnapshotStream.StreamDecidesSnapshot | internal/load/source_snapshot.go:30-123 | equal streams mean equal schema, toolchain, profile, tag sets, package sequence and file lists per category, and only they |
| SnapshotStream.VarintUnique | internal/load/source_snapshot.go:252-270 | length prefixes are prefix-free |
| Encodings.HexRoundTrip | internal/command/compile_worker.go:344-370 | decoding an encoded digest gives it back |
| Encodings.Base64RoundTrip | internal/command/compile_worker.go:344-447 | decoding an encoded payload gives it back, for every length |
| Encodings.PaddedInjective | internal/command/output_lifecycle.go:135-138 | the six-digit names of different indexes differ, also beyond a million |
| PrintPlan.ValidateTargets | internal/command/output_lifecycle.go:463-515 | accepts exactly targets that are distinct and use as many exports of each module as it has |
| PrintPlan.Validate | internal/command/output_lifecycle.go:317-524 | accepts exactly valid plans |
| PrintPlan.EveryExportIsUsed | internal/command/output_lifecycle.go:463-515 | counting suffices: each export of each module is used by some target |
| PrintPlan.ExportsServeOnceIff | internal/command/output_lifecycle.go:463-515 | there are at least as many targets as exports, and each export serves one target exactly when there are as many |
| PrintPlan.ExportMayBeUsedTwice | internal/command/output_lifecycle.go:463-515 | an export may serve two targets: a valid plan, for any paths and digests, in which two share one |
| WorkerDocument.ReadCompileWorkerDocument | internal/command/compile_worker.go:196-342 | accepts exactly documents that identify their worker and decode to a valid plan |
| WorkerDocument.EncodedPlanDecodes | internal/command/compile_worker.go:344-447 | every text of an encoded plan decodes, with paths rebuilt from indexes |
| WorkerDocument.HandOffRoundTrip | internal/command/compile_worker.go:196-447 | a valid plan comes back with its digest, unchanged exactly when it carries no unselected runtime manifest |
| StagedFiles.Scratch.Stage | internal/command/output_lifecycle.go:114-214 | fails only when the scratch exists, as far as writing itself does not fail; otherwise holds every payload once under its own name |
| StagedFiles.Scratch.Append | internal/command/callable_implementation_verification.go:145-171 | no exclusive write collides, and the appended files follow the staged ones |
| StagedFiles.Scratch.RemoveProtocolScratch | internal/command/output_lifecycle.go:526-555 | every staged file is found, both directories are empty in their turn and nothing is left behind |
| StagedFiles.AppendKeepsValid | internal/command/callable_implementation_verification.go:145-171 | appending files at the next indexes keeps the plan valid exactly if their outputs are there, new and distinct |
| StagedFiles.AppendVerifiedModules | internal/command/callable_implementation_verification.go:16-172 | refuses exactly when a module output is already generated or the number of files differs from that of modules; otherwise the files follow in sorted order, and the plan is valid exactly if their outputs are new and distinct |
| StagedFiles.ModuleOutputsFit | internal/command/callable_implementation_verification.go:60-172 | one file for each module output is such an answer |
| StagedFiles.StageAppendAndRemove | internal/command/output_lifecycle.go:114-555 | staging, appending and cleaning up leave the tree as it was |
| ExactJoins.Match | internal/command/callable_implementation_verification.go:192-252 | deleting what is matched succeeds exactly when each key of the table is visited once with its value |
| ExactJoins.MatchIsBijection | internal/command/callable_implementation_verification.go:192-231 | with equal counts that is a bijection: the same records and no key twice |
| ExactJoins.PrepareAll | internal/emit/callableimplementation/prepare.go:38-67 | hands out modules exactly when they were prepared for one source program and no output and no source identity has two owners |
| ExactJoins.AdmittedKeys | internal/emit/callableimplementation/prepare.go:51-66 | hence the keys of both joins are distinct |
| ExactJoins.RepeatedKeysMatchOnce | internal/command/callable_implementation_verification.go:200-231 | the join alone would accept one record for all repetitions of a key |
| ExactJoins.ExactJoinPreparedCallablePlan | internal/command/callable_implementation_verification.go:175-252 | succeeds exactly when the digest is the prepared one and modules and callables are, record by record, the prepared ones: a bijection, without a condition on the claims |
| ExactJoins.ExpectedModulesDescribe | internal/command/callable_implementation_verification.go:196-222 | what the plan must say of a module, field by field: paths, digest, certification and the sorted exports of its claims |
| ExactJoins.ExpectedDescribe | internal/command/callable_implementation_verification.go:204-212 | what it must say of a callable: exactly the prepared claims, field by field, with the output of their module |
| ExactJoins.EqualStringMapIsEqualityIff | internal/load/packages_evidence.go:247-257 | the comparison decides equality exactly when no left value is empty |
| ExactJoins.JoinDriverEvidence | internal/load/packages_evidence.go:105-166 | succeeds exactly when roots agree and records and loaded packages pair off by ID, with equal name, package path and file lists and agreeing imports; each package then carries its evidence and is otherwise as it was |
| OutputTransaction.OutputTree.InstallOutputDirectory | internal/command/output_transaction.go:54-80 | at every crash point and for every pattern of failures the new output is whole, and the previous one is until the new one is in place; it succeeds exactly if no operation on the way fails and no old backup is in the way of a new one, and then leaves the new output and no backup |
| OutputTransaction.OutputTree.FinishOutputTransaction | internal/command/output_transaction.go:22-52 | is done exactly if the output was written and installed; a failure names the staging directory only while it exists |

## Left out

- TypeScript syntax construction, printing, the emit handlers and checker internals: hidden behind other packages, here arbitrary handlers.
- The requirement scheduler, the artifact graph and the naming registry: sets of pending owners that handlers change at will; their priorities and revisions are not modelled.
- JSON text, SHA-256, clocks, file contents read twice, fsync and process handling: parameters or left out.
- Error texts: failures carry a small tag at most.
- Clone functions, and the difference between nil and empty slices.
- DeepEqual.DeepEqual: the box graph is an input with stable child boxes; generated reflection operations, clone facets and the iteration order of a right-hand map are not part of this model.
- MapIter.MapIterator.Next: a nil receiver, which panics; the boxes of keys are their identities.
- WalkDir.Walker.WalkDir: a partial listing that comes with a ReadDir failure is dropped, as the code does; io/fs goes on with it when the report returns nil. An undefined visitor is not modelled.
- RootManifest.InspectRootManifest: the root path is canonical, as its only caller makes it; Windows paths and executable suffixes, and the census counter, are not modelled; permission bits are, by a predicate.
- RootCopy.TargetRoot.CopyRootSnapshot: no umask, ownership change or full disk; the source does not change while it is copied here. A source that does change is the subject of the sealing model, where a copy may be any tree.
- RootSealing.PublishedForever: candidates are private outside the hook and nobody else writes to the store; renaming onto an existing container fails.
- Settlement.Session.Settle: a run of any number of iterations; that settling ends is claimed for handlers that ask for nothing more, as it depends on the hidden code otherwise.
- Settlement.Session.RequirePackage: the failures of path construction, contexts and assembly owners are not modelled; sites of variables belong to the package whose scope lists them.
- Settlement.Session.RequireUse: demands, the selection of a provider and the route checks are part of the hidden code.
- Settlement.Session.VerifyTargetFilesSettled: whether the artifact graph is closed (published providers, present facets) is a parameter.
- DeclarationTable.Table.Emit: the package export table itself; that recording an export may fail is a parameter, as are the file context and the revision.
- DeclarationTable.Table.Reconstruct: the five generated-artifact variants share this step; a revision does not itself change the table.
- ProviderManifest.Parse: the comparison of the manifest digest and the canonical encoding of the document, which come before and after validation.
- ProviderManifest.ValidateFacetModule: the checks of single fields, and that a module without any facet, profile, interface and capability is refused.
- ProviderManifest.ValidateRepresentations: source types, source interfaces, implementation owners and fingerprints of representations.
- ProviderManifest.ValidateCapabilities: the implementation owner and the view fingerprint of a capability.
- ProviderManifest.ValidateDocument: the checks of single fields (versions, digests, source paths, effects, signatures) and the invocation transport are not part of this model, and the passes over a module run one after another instead of interleaved.
- ProviderProtocol.ValidateProtocol: unicode.IsUpper is a parameter.
- BuildImplementedResultProfileKey, which differs from the profile key in its first line only.
- PrintPlan.Validate: the compatibility of paths with the host platform is a parameter.
- StagedFiles.Scratch.Append: writes and encodings that fail for other reasons than an existing file; the same holds for Scratch.Stage.
- SnapshotStream.SealSourceSnapshot: the validity of the build profile, file versions and failing reads.
- StagedFiles.Scratch.Stage: names and payloads of staged files only; dependencies, claims and manifests of the plan are taken as given. The claims of callable targets are consumed in the way of ExactJoins.Match.
- OutputTransaction.OutputTree.InstallOutputDirectory: a rename never replaces something; an empty directory at the backup name is not modelled.
- ExactJoins.JoinDriverEvidence: the response is a map by package ID; a duplicated ID in it is refused before.
- Configuration, flags, environment filtering, tool execution and re-export modules: plumbing.
