// Many sealers publishing Go roots into one store, while their sources change.
module RootSealing {
  import opened Common
  import opened RootPaths
  import opened RootManifest

  datatype Document = Document(rootDigest: string, manifest: Manifest)
  datatype Seal = Seal(rootDigest: string, manifestDigest: string)

  // A directory with a root tree, manifest.json and seal.json.
  datatype Container = Container(root: Option<World>, document: Option<Document>, seal: Option<Seal>)

  // Digests are arbitrary functions, also when they collide; inspect stands for an
  // inspection of the tree with the given tool directory.
  datatype Host = Host(
    inspectSource: (World, Path) -> Option<Manifest>, inspect: (World, Path) -> Option<Manifest>,
    rootDigest: Manifest -> string, documentDigest: Document -> string, tool: nat -> Path)

  // ---- One sealer ------------------------------------------------------------------------

  // Where a sealer stands, with the manifest of its first inspection.
  datatype Pc =
    | Start | Inspected(m: Manifest) | TargetAbsent(m: Manifest) | CandidateMade(m: Manifest) | Copied(m: Manifest)
    | Unchanged(m: Manifest) | MetadataWritten(m: Manifest) | Hooked(m: Manifest) | Verified(m: Manifest)
    | Opening(m: Manifest) | Done(m: Manifest) | Failed

  datatype State = State(store: map<string, Container>, candidates: map<nat, Container>, pcs: map<nat, Pc>)

  // A step of one sealer: the file tree with its source as it is now, whether an
  // operation fails now, what a copy or the hook makes of its candidate, and what
  // is left of the candidate when its removal fails.
  datatype Event = Event(sealer: nat, source: World, fault: bool, left: Container, leftover: Option<Container>)

  function PcOf(s: State, i: nat): Pc {
    if i in s.pcs then s.pcs[i] else Start
  }

  // verifyRootSnapshot, together with decodeRootManifest.
  predicate Verifies(h: Host, c: Container, expected: Manifest, digest: string) {
    && c.seal.Some? && c.document.Some? && c.root.Some?
    && c.seal.value.rootDigest == digest && c.seal.value.manifestDigest == h.documentDigest(c.document.value)
    && c.document.value.rootDigest == h.rootDigest(c.document.value.manifest)
    && c.document.value.rootDigest == digest && c.document.value.manifest == expected
    && h.inspect(c.root.value, c.document.value.manifest.tool) == Some(c.document.value.manifest)
  }

  function Candidate(s: State, i: nat): Option<Container> {
    if i in s.candidates then Some(s.candidates[i]) else None
  }

  function Content(candidate: Option<Container>): Container {
    if candidate.Some? then candidate.value else Container(None, None, None)
  }

  // What a step makes of a sealer: where it stands, the candidate it has, and the
  // digest under which it publishes the candidate it had.
  datatype Change = Change(pc: Pc, candidate: Option<Container>, published: Option<string>)

  // An error before there is a candidate.
  function Fail(): Change {
    Change(Failed, None, None)
  }

  // An error afterwards removes the candidate, and does not look whether that works.
  function Discard(e: Event): Change {
    Change(Failed, e.leftover, None)
  }

  function Advance(h: Host, store: map<string, Container>, pc: Pc, candidate: Option<Container>, e: Event): Change {
    var held := Content(candidate);
    match pc
    case Start =>
      var m := h.inspectSource(e.source, h.tool(e.sealer));
      if e.fault || m.None? then Fail() else Change(Inspected(m.value), None, None)
    case Inspected(m) =>
      if e.fault then Fail()
      else Change(if h.rootDigest(m) in store then Opening(m) else TargetAbsent(m), None, None)
    case TargetAbsent(m) =>
      if e.fault then Fail() else Change(CandidateMade(m), Some(Container(None, None, None)), None)
    case CandidateMade(m) =>
      if e.fault || e.left.root.None? then Discard(e) else Change(Copied(m), Some(held.(root := e.left.root)), None)
    case Copied(m) =>
      if e.fault || h.inspectSource(e.source, h.tool(e.sealer)) != Some(m) then Discard(e)
      else Change(Unchanged(m), Some(held), None)
    case Unchanged(m) =>
      var document := Document(h.rootDigest(m), m);
      if e.fault then Discard(e)
      else Change(MetadataWritten(m),
        Some(held.(document := Some(document), seal := Some(Seal(h.rootDigest(m), h.documentDigest(document))))), None)
    case MetadataWritten(m) =>
      if e.fault then Discard(e) else Change(Hooked(m), Some(e.left), None)
    case Hooked(m) =>
      if e.fault || !Verifies(h, held, m, h.rootDigest(m)) then Discard(e) else Change(Verified(m), Some(held), None)
    case Verified(m) =>
      if h.rootDigest(m) in store then Change(Opening(m), e.leftover, None)
      else if e.fault then Discard(e)
      else Change(Opening(m), None, Some(h.rootDigest(m)))
    case Opening(m) =>
      var digest := h.rootDigest(m);
      Change(if e.fault || digest !in store || !Verifies(h, store[digest], m, digest) then Failed else Done(m), candidate, None)
    case Done(_) => Change(pc, candidate, None)
    case Failed => Change(pc, candidate, None)
  }

  function Step(h: Host, s: State, e: Event): State {
    var i := e.sealer;
    var c := Advance(h, s.store, PcOf(s, i), Candidate(s, i), e);
    State(
      if c.published.Some? then s.store[c.published.value := Content(Candidate(s, i))] else s.store,
      if c.candidate.Some? then s.candidates[i := c.candidate.value] else s.candidates - {i},
      s.pcs[i := c.pc])
  }

  function Run(h: Host, s: State, events: seq<Event>): State
    decreases |events|
  {
    if events == [] then s else Run(h, Step(h, s, events[0]), events[1..])
  }

  function Initial(): State {
    State(map[], map[], map[])
  }

  // ---- What every run keeps ------------------------------------------------------------------

  // The container holds a manifest of its digest, and that is what an inspection
  // of its own root yields.
  ghost predicate Published(h: Host, digest: string, c: Container) {
    && c.seal.Some? && c.document.Some? && c.root.Some?
    && c.seal.value == Seal(digest, h.documentDigest(c.document.value))
    && c.document.value.rootDigest == digest == h.rootDigest(c.document.value.manifest)
    && h.inspect(c.root.value, c.document.value.manifest.tool) == Some(c.document.value.manifest)
  }

  // What a sealer relies on is its own candidate and a store that only grows.
  ghost predicate Relies(h: Host, store: map<string, Container>, pc: Pc, candidate: Option<Container>) {
    match pc
    case Verified(m) => Verifies(h, Content(candidate), m, h.rootDigest(m))
    case Opening(m) => h.rootDigest(m) in store
    case Done(m) => h.rootDigest(m) in store && Verifies(h, store[h.rootDigest(m)], m, h.rootDigest(m))
    case _ => true
  }

  ghost predicate SealerKeeps(h: Host, s: State, i: nat) {
    Relies(h, s.store, PcOf(s, i), Candidate(s, i))
  }

  ghost predicate Good(h: Host, s: State) {
    && (forall d :: d in s.store ==> Published(h, d, s.store[d]))
    && (forall i: nat :: SealerKeeps(h, s, i))
  }

  ghost predicate Extends(old_: State, new_: State) {
    forall d :: d in old_.store ==> d in new_.store && new_.store[d] == old_.store[d]
  }

  // Publishing needs a verified candidate and a free place.
  lemma PublishesVerified(h: Host, s: State, e: Event)
    requires SealerKeeps(h, s, e.sealer)
    ensures var c := Advance(h, s.store, PcOf(s, e.sealer), Candidate(s, e.sealer), e);
      c.published.Some? ==> c.published.value !in s.store && Published(h, c.published.value, Content(Candidate(s, e.sealer)))
  {
  }

  lemma StoreKeeps(h: Host, s: State, e: Event)
    requires SealerKeeps(h, s, e.sealer) && forall d :: d in s.store ==> Published(h, d, s.store[d])
    ensures Extends(s, Step(h, s, e))
    ensures forall d :: d in Step(h, s, e).store ==> Published(h, d, Step(h, s, e).store[d])
  {
    PublishesVerified(h, s, e);
  }

  lemma AdvanceKeeps(h: Host, s: State, e: Event)
    requires SealerKeeps(h, s, e.sealer)
    ensures SealerKeeps(h, Step(h, s, e), e.sealer)
  {
    var c := Advance(h, s.store, PcOf(s, e.sealer), Candidate(s, e.sealer), e);
    assert PcOf(Step(h, s, e), e.sealer) == c.pc;
    assert Candidate(Step(h, s, e), e.sealer) == c.candidate;
  }

  // A step by one sealer leaves the others where they are.
  lemma OthersKeep(h: Host, s: State, e: Event, i: nat)
    requires SealerKeeps(h, s, i) && i != e.sealer && Extends(s, Step(h, s, e))
    ensures SealerKeeps(h, Step(h, s, e), i)
  {
    var t := Step(h, s, e);
    assert PcOf(t, i) == PcOf(s, i) && Candidate(t, i) == Candidate(s, i);
  }

  lemma StepKeeps(h: Host, s: State, e: Event)
    requires Good(h, s)
    ensures Good(h, Step(h, s, e)) && Extends(s, Step(h, s, e))
  {
    assert SealerKeeps(h, s, e.sealer);
    StoreKeeps(h, s, e);
    AdvanceKeeps(h, s, e);
    forall i: nat | i != e.sealer ensures SealerKeeps(h, Step(h, s, e), i) {
      assert SealerKeeps(h, s, i);
      OthersKeep(h, s, e, i);
    }
  }

  lemma {:induction false} RunKeeps(h: Host, s: State, events: seq<Event>)
    requires Good(h, s)
    ensures Good(h, Run(h, s, events)) && Extends(s, Run(h, s, events))
    decreases |events|
  {
    if events != [] {
      StepKeeps(h, s, events[0]);
      RunKeeps(h, Step(h, s, events[0]), events[1..]);
    }
  }

  lemma {:induction false} RunSplits(h: Host, s: State, a: seq<Event>, b: seq<Event>)
    ensures Run(h, s, a + b) == Run(h, Run(h, s, a), b)
    decreases |a|
  {
    if a == [] {
      assert a + b == b;
    } else {
      assert (a + b)[1..] == a[1..] + b;
      RunSplits(h, Step(h, s, a[0]), a[1..], b);
    }
  }

  // In any interleaving, with any source changes, hooks and faults: what is
  // published is complete and verified, and stays as it is.
  lemma PublishedForever(h: Host, events: seq<Event>, more: seq<Event>, digest: string)
    requires digest in Run(h, Initial(), events).store
    ensures var c := Run(h, Initial(), events).store[digest];
      && Published(h, digest, c)
      && digest in Run(h, Initial(), events + more).store && Run(h, Initial(), events + more).store[digest] == c
  {
    RunKeeps(h, Initial(), events);
    RunSplits(h, Initial(), events, more);
    RunKeeps(h, Run(h, Initial(), events), more);
  }

  // Whoever succeeds later with a digest that is taken has the manifest that took it.
  lemma LaterSealersAgree(h: Host, s: State, events: seq<Event>, digest: string, i: nat)
    requires Good(h, s) && digest in s.store && s.store[digest].document.Some?
    ensures var last := Run(h, s, events);
      && digest in last.store && last.store[digest] == s.store[digest]
      && (PcOf(last, i).Done? && h.rootDigest(PcOf(last, i).m) == digest ==>
        PcOf(last, i).m == s.store[digest].document.value.manifest)
  {
    RunKeeps(h, s, events);
    assert SealerKeeps(h, Run(h, s, events), i);
  }

  // Sealers that succeed with one digest have one manifest, whenever they
  // finish, and it is the published one; also if manifests collide.
  lemma SealersAgree(h: Host, events: seq<Event>, i: nat, j: nat)
    requires var s := Run(h, Initial(), events);
      PcOf(s, i).Done? && PcOf(s, j).Done? && h.rootDigest(PcOf(s, i).m) == h.rootDigest(PcOf(s, j).m)
    ensures var s := Run(h, Initial(), events); var m := PcOf(s, i).m;
      && PcOf(s, j).m == m
      && h.rootDigest(m) in s.store && s.store[h.rootDigest(m)].document == Some(Document(h.rootDigest(m), m))
  {
    RunKeeps(h, Initial(), events);
    var s := Run(h, Initial(), events);
    assert SealerKeeps(h, s, i) && SealerKeeps(h, s, j);
  }

  // ---- What a sealer has met and done ------------------------------------------------

  // The events of one sealer, in their order.
  function Own(events: seq<Event>, i: nat): seq<Event> {
    if events == [] then []
    else
      var last := events[|events| - 1];
      Own(events[..|events| - 1], i) + (if last.sealer == i then [last] else [])
  }

  // The store that the second operation of the sealer has met: it looks for the digest there.
  ghost function Met(h: Host, events: seq<Event>, i: nat): Option<map<string, Container>> {
    if events == [] then None
    else
      var init, last := events[..|events| - 1], events[|events| - 1];
      if Met(h, init, i).Some? then Met(h, init, i)
      else if last.sealer == i && |Own(init, i)| == 1 then Some(Run(h, Initial(), init).store)
      else None
  }

  // The first n operations of the sealer went well: inspecting, looking for the digest,
  // making the candidate, copying, inspecting again, writing, the hook, verifying.
  ghost predicate Begun(h: Host, own: seq<Event>, i: nat, m: Manifest, n: nat) {
    && n <= |own| && (forall k :: 0 <= k < n ==> !own[k].fault)
    && (n > 0 ==> h.inspectSource(own[0].source, h.tool(i)) == Some(m))
    && (n > 3 ==> own[3].left.root.Some?)
    && (n > 4 ==> h.inspectSource(own[4].source, h.tool(i)) == Some(m))
  }

  // The operations of a sealer that has succeeded: it opened what was there, or
  // made and published a container first.
  ghost predicate Sealed(h: Host, own: seq<Event>, i: nat, m: Manifest, met: Option<map<string, Container>>) {
    && met.Some? && Begun(h, own, i, m, 2)
    && (h.rootDigest(m) in met.value ==> |own| > 2 && !own[2].fault)
    && (h.rootDigest(m) !in met.value ==> Begun(h, own, i, m, 8) && |own| > 9 && !own[9].fault)
  }

  // What brought the sealer to where it stands.
  ghost predicate Past(h: Host, own: seq<Event>, i: nat, pc: Pc, candidate: Option<Container>, met: Option<map<string, Container>>) {
    match pc
    case Start => own == [] && met == None
    case Inspected(m) => |own| == 1 && Begun(h, own, i, m, 1) && met == None
    case TargetAbsent(m) => |own| == 2 && Begun(h, own, i, m, 2) && Lacks(h, met, m)
    case CandidateMade(m) => |own| == 3 && Begun(h, own, i, m, 3) && Lacks(h, met, m)
    case Copied(m) => |own| == 4 && Begun(h, own, i, m, 4) && Lacks(h, met, m)
    case Unchanged(m) => |own| == 5 && Begun(h, own, i, m, 5) && Lacks(h, met, m)
    case MetadataWritten(m) => |own| == 6 && Begun(h, own, i, m, 6) && Lacks(h, met, m)
    case Hooked(m) => |own| == 7 && Begun(h, own, i, m, 7) && Lacks(h, met, m) && candidate == Some(own[6].left)
    case Verified(m) => |own| == 8 && Begun(h, own, i, m, 8) && Lacks(h, met, m) && candidate == Some(own[6].left)
    case Opening(m) =>
      && met.Some?
      && if h.rootDigest(m) in met.value then |own| == 2 && Begun(h, own, i, m, 2) else |own| == 9 && Begun(h, own, i, m, 8)
    case Done(m) => Sealed(h, own, i, m, met)
    case Failed => |own| > 0 && (|own| > 1 ==> met.Some?)
  }

  ghost predicate Lacks(h: Host, met: Option<map<string, Container>>, m: Manifest) {
    met.Some? && h.rootDigest(m) !in met.value
  }

  // What an operation must be like to be the next one that goes well.
  ghost predicate GoesWell(h: Host, e: Event, i: nat, m: Manifest, n: nat) {
    && !e.fault && (n == 3 ==> e.left.root.Some?)
    && (n == 0 || n == 4 ==> h.inspectSource(e.source, h.tool(i)) == Some(m))
  }

  lemma BegunGoesOn(h: Host, own: seq<Event>, e: Event, i: nat, m: Manifest, n: nat)
    requires Begun(h, own, i, m, n)
    ensures Begun(h, own + [e], i, m, n)
    ensures |own| == n && GoesWell(h, e, i, m, n) ==> Begun(h, own + [e], i, m, n + 1)
  {
    assert forall k :: 0 <= k < |own| ==> (own + [e])[k] == own[k];
    assert (own + [e])[|own|] == e;
  }

  // The store met so far, with another operation in the given store.
  ghost function MetNow(own: seq<Event>, met: Option<map<string, Container>>, store: map<string, Container>): Option<map<string, Container>> {
    if met.Some? || |own| != 1 then met else Some(store)
  }

  lemma AdvancePast(h: Host, store: map<string, Container>, pc: Pc, candidate: Option<Container>, e: Event,
    own: seq<Event>, met: Option<map<string, Container>>)
    requires Past(h, own, e.sealer, pc, candidate, met) && (|own| > 1 ==> met.Some?)
    ensures var c := Advance(h, store, pc, candidate, e);
      Past(h, own + [e], e.sealer, c.pc, c.candidate, MetNow(own, met, store))
  {
    if Early(pc) {
      EarlyPast(h, store, pc, candidate, e, own, met);
    } else {
      LatePast(h, store, pc, candidate, e, own, met);
    }
  }

  lemma EarlyPast(h: Host, store: map<string, Container>, pc: Pc, candidate: Option<Container>, e: Event,
    own: seq<Event>, met: Option<map<string, Container>>)
    requires Past(h, own, e.sealer, pc, candidate, met) && (|own| > 1 ==> met.Some?) && Early(pc)
    ensures var c := Advance(h, store, pc, candidate, e);
      Past(h, own + [e], e.sealer, c.pc, c.candidate, MetNow(own, met, store))
  {
    var i := e.sealer;
    match pc
    case Start =>
      var m := h.inspectSource(e.source, h.tool(i));
      if m.Some? {
        BegunGoesOn(h, own, e, i, m.value, 0);
      }
    case Inspected(m) => BegunGoesOn(h, own, e, i, m, 1);
    case TargetAbsent(m) => BegunGoesOn(h, own, e, i, m, 2);
    case CandidateMade(m) => BegunGoesOn(h, own, e, i, m, 3);
    case Copied(m) => BegunGoesOn(h, own, e, i, m, 4);
    case Unchanged(m) => BegunGoesOn(h, own, e, i, m, 5);
  }

  lemma LatePast(h: Host, store: map<string, Container>, pc: Pc, candidate: Option<Container>, e: Event,
    own: seq<Event>, met: Option<map<string, Container>>)
    requires Past(h, own, e.sealer, pc, candidate, met) && (|own| > 1 ==> met.Some?) && !Early(pc)
    ensures var c := Advance(h, store, pc, candidate, e);
      Past(h, own + [e], e.sealer, c.pc, c.candidate, MetNow(own, met, store))
  {
    var i := e.sealer;
    match pc
    case MetadataWritten(m) =>
      BegunGoesOn(h, own, e, i, m, 6);
      assert (own + [e])[6] == e;
    case Hooked(m) =>
      BegunGoesOn(h, own, e, i, m, 7);
      assert (own + [e])[6] == own[6];
    case Verified(m) => BegunGoesOn(h, own, e, i, m, 8);
    case Opening(m) =>
      OpeningPast(h, store, candidate, e, own, met, m);
    case Done(m) =>
      BegunGoesOn(h, own, e, i, m, 2);
      if h.rootDigest(m) !in met.value {
        BegunGoesOn(h, own, e, i, m, 8);
      }
      assert forall k :: 0 <= k < |own| ==> (own + [e])[k] == own[k];
    case Failed =>
  }

  lemma OpeningPast(h: Host, store: map<string, Container>, candidate: Option<Container>, e: Event,
    own: seq<Event>, met: Option<map<string, Container>>, m: Manifest)
    requires Past(h, own, e.sealer, Opening(m), candidate, met)
    ensures var c := Advance(h, store, Opening(m), candidate, e);
      Past(h, own + [e], e.sealer, c.pc, c.candidate, met)
  {
    var i := e.sealer;
    assert (own + [e])[|own|] == e;
    if h.rootDigest(m) in met.value {
      BegunGoesOn(h, own, e, i, m, 2);
    } else {
      BegunGoesOn(h, own, e, i, m, 8);
      BegunLess(h, own + [e], i, m, 8, 2);
    }
  }

  lemma BegunLess(h: Host, own: seq<Event>, i: nat, m: Manifest, n: nat, k: nat)
    requires Begun(h, own, i, m, n) && k <= n
    ensures Begun(h, own, i, m, k)
  {
  }

  lemma StepPast(h: Host, s: State, e: Event, own: seq<Event>, met: Option<map<string, Container>>)
    requires Past(h, own, e.sealer, PcOf(s, e.sealer), Candidate(s, e.sealer), met) && (|own| > 1 ==> met.Some?)
    ensures var t := Step(h, s, e);
      Past(h, own + [e], e.sealer, PcOf(t, e.sealer), Candidate(t, e.sealer), MetNow(own, met, s.store))
  {
    AdvancePast(h, s.store, PcOf(s, e.sealer), Candidate(s, e.sealer), e, own, met);
    var c := Advance(h, s.store, PcOf(s, e.sealer), Candidate(s, e.sealer), e);
    assert PcOf(Step(h, s, e), e.sealer) == c.pc && Candidate(Step(h, s, e), e.sealer) == c.candidate;
  }

  lemma RunExtends(h: Host, events: seq<Event>)
    requires events != []
    ensures Run(h, Initial(), events) == Step(h, Run(h, Initial(), events[..|events| - 1]), events[|events| - 1])
  {
    var init, last := events[..|events| - 1], events[|events| - 1];
    RunSplits(h, Initial(), init, [last]);
    assert events == init + [last] && [last][1..] == [];
    assert Run(h, Run(h, Initial(), init), [last]) == Run(h, Step(h, Run(h, Initial(), init), last), []);
  }

  // In every run each sealer stands where its own operations brought it.
  lemma {:induction false} RunPast(h: Host, events: seq<Event>, i: nat)
    ensures var s := Run(h, Initial(), events); Past(h, Own(events, i), i, PcOf(s, i), Candidate(s, i), Met(h, events, i))
    ensures |Own(events, i)| <= 1 ==> Met(h, events, i) == None
    ensures |Own(events, i)| > 1 ==> Met(h, events, i).Some?
  {
    if events != [] {
      var init, last := events[..|events| - 1], events[|events| - 1];
      RunPast(h, init, i);
      RunExtends(h, events);
      var s := Run(h, Initial(), init);
      if last.sealer == i {
        StepPast(h, s, last, Own(init, i), Met(h, init, i));
      } else {
        assert SameFor(s, Step(h, s, last), i);
      }
    }
  }

  // A container gets into the store only by a sealer that copied its source without
  // a fault, found it unchanged afterwards, and verified what the hook left; that is
  // what it stores, and the manifest in it is that of both inspections.
  lemma PublicationNeedsUnchangedSource(h: Host, events: seq<Event>, n: nat, digest: string)
    requires n < |events|
    requires digest !in Run(h, Initial(), events[..n]).store && digest in Run(h, Initial(), events[..n + 1]).store
    ensures var i := events[n].sealer; var own := Own(events[..n], i);
      var c := Run(h, Initial(), events[..n + 1]).store[digest];
      && |own| == 8 && !events[n].fault && (forall k :: 0 <= k < 8 ==> !own[k].fault)
      && c == own[6].left && c.document.Some? && h.rootDigest(c.document.value.manifest) == digest
      && h.inspectSource(own[0].source, h.tool(i)) == Some(c.document.value.manifest)
      && own[3].left.root.Some?
      && h.inspectSource(own[4].source, h.tool(i)) == Some(c.document.value.manifest)
  {
    var before, i := events[..n], events[n].sealer;
    assert events[..n + 1][..n] == before && events[..n + 1][n] == events[n];
    RunExtends(h, events[..n + 1]);
    RunPast(h, before, i);
    RunKeeps(h, Initial(), before);
    assert SealerKeeps(h, Run(h, Initial(), before), i);
  }

  lemma {:induction false} OwnSplits(a: seq<Event>, b: seq<Event>, i: nat)
    ensures Own(a + b, i) == Own(a, i) + Own(b, i)
  {
    if b == [] {
      assert a + b == a;
    } else {
      assert (a + b)[..|a + b| - 1] == a + b[..|b| - 1];
      OwnSplits(a, b[..|b| - 1], i);
    }
  }

  lemma {:induction false} OthersOwnNothing(events: seq<Event>, i: nat)
    requires forall e :: e in events ==> e.sealer != i
    ensures Own(events, i) == []
  {
    if events != [] {
      OthersOwnNothing(events[..|events| - 1], i);
    }
  }

  // A sealer whose source inspects differently after the copy publishes nothing, ever;
  // whatever of its operations it has come to.
  lemma ChangedSourceIsNotPublished(h: Host, events: seq<Event>, i: nat, plan: seq<Event>, n: nat, digest: string)
    requires Own(events, i) <= plan && |plan| > 4
    requires h.inspectSource(plan[4].source, h.tool(i)) != h.inspectSource(plan[0].source, h.tool(i))
    requires n < |events| && events[n].sealer == i && digest in Run(h, Initial(), events[..n + 1]).store
    ensures digest in Run(h, Initial(), events[..n]).store
  {
    OwnBefore(events, n, i);
    if digest !in Run(h, Initial(), events[..n]).store {
      PublicationNeedsUnchangedSource(h, events, n, digest);
    }
  }

  lemma OwnBefore(events: seq<Event>, n: nat, i: nat)
    requires n <= |events|
    ensures Own(events[..n], i) <= Own(events, i)
  {
    OwnSplits(events[..n], events[n..], i);
    assert events == events[..n] + events[n..];
  }

  // ---- An undisturbed sealer ---------------------------------------------------------------------

  // A sealer alone, without faults: its source does not change, its copy is faithful
  // and the hook leaves the candidate as it is.
  ghost predicate Undisturbed(h: Host, s: State, e: Event, i: nat, source: World, copy: World) {
    && e.sealer == i && e.source == source && !e.fault
    && (PcOf(s, i).CandidateMade? ==> e.left.root == Some(copy))
    && (PcOf(s, i).MetadataWritten? ==> e.left == Content(Candidate(s, i)))
  }

  ghost predicate UndisturbedRun(h: Host, s: State, events: seq<Event>, i: nat, source: World, copy: World)
    decreases |events|
  {
    events == [] || (Undisturbed(h, s, events[0], i, source, copy)
                     && UndisturbedRun(h, Step(h, s, events[0]), events[1..], i, source, copy))
  }

  // How many steps are left.
  function Remaining(pc: Pc): nat {
    match pc
    case Start => 10
    case Inspected(_) => 9
    case TargetAbsent(_) => 8
    case CandidateMade(_) => 7
    case Copied(_) => 6
    case Unchanged(_) => 5
    case MetadataWritten(_) => 4
    case Hooked(_) => 3
    case Verified(_) => 2
    case Opening(_) => 1
    case Done(_) => 0
    case Failed => 0
  }

  // The container that an undisturbed sealer publishes.
  function Complete(h: Host, m: Manifest, copy: World): Container {
    var document := Document(h.rootDigest(m), m);
    Container(Some(copy), Some(document), Some(Seal(h.rootDigest(m), h.documentDigest(document))))
  }

  // The digest's container after the seal: the former one, or the new one.
  function Winner(h: Host, start: State, m: Manifest, copy: World): Container {
    if h.rootDigest(m) in start.store then start.store[h.rootDigest(m)] else Complete(h, m, copy)
  }

  ghost predicate Underway(h: Host, start: State, s: State, i: nat, m: Manifest, copy: World) {
    var digest := h.rootDigest(m);
    var absent := s.store == start.store && digest !in start.store;
    var sound := h.inspect(copy, m.tool) == Some(m);
    match PcOf(s, i)
    case Start => s.store == start.store
    case Inspected(n) => n == m && s.store == start.store
    case TargetAbsent(n) => n == m && absent
    case CandidateMade(n) => n == m && absent
    case Copied(n) => n == m && absent && Content(Candidate(s, i)).root == Some(copy)
    case Unchanged(n) => n == m && absent && Content(Candidate(s, i)).root == Some(copy)
    case MetadataWritten(n) => n == m && absent && Content(Candidate(s, i)) == Complete(h, m, copy)
    case Hooked(n) => n == m && absent && Content(Candidate(s, i)) == Complete(h, m, copy)
    case Verified(n) => n == m && absent && sound && Content(Candidate(s, i)) == Complete(h, m, copy)
    case Opening(n) => n == m && Settled(h, start, s, m, copy) && (digest !in start.store ==> sound)
    case Done(n) =>
      && n == m && Settled(h, start, s, m, copy)
      && if digest in start.store then Verifies(h, start.store[digest], m, digest) else sound
    case Failed =>
      && s.store == start.store
      && if digest in start.store then !Verifies(h, start.store[digest], m, digest) else !sound
  }

  // The digest has its container, and nothing else has changed.
  ghost predicate Settled(h: Host, start: State, s: State, m: Manifest, copy: World) {
    s.store == start.store[h.rootDigest(m) := Winner(h, start, m, copy)]
  }

  // A sealer that has not written its metadata yet.
  predicate Early(pc: Pc) {
    pc.Start? || pc.Inspected? || pc.TargetAbsent? || pc.CandidateMade? || pc.Copied? || pc.Unchanged?
  }

  lemma UndisturbedEarlyStep(h: Host, start: State, s: State, e: Event, i: nat, source: World, copy: World, m: Manifest)
    requires Underway(h, start, s, i, m, copy) && Undisturbed(h, s, e, i, source, copy) && Early(PcOf(s, i))
    requires h.inspectSource(source, h.tool(i)) == Some(m)
    ensures Underway(h, start, Step(h, s, e), i, m, copy)
    ensures Remaining(PcOf(Step(h, s, e), i)) < Remaining(PcOf(s, i))
  {
    var digest := h.rootDigest(m);
    if digest in start.store {
      assert start.store[digest := start.store[digest]] == start.store;
    }
  }

  lemma UndisturbedLateStep(h: Host, start: State, s: State, e: Event, i: nat, source: World, copy: World, m: Manifest)
    requires Underway(h, start, s, i, m, copy) && Undisturbed(h, s, e, i, source, copy) && !Early(PcOf(s, i))
    requires Remaining(PcOf(s, i)) > 0
    ensures Underway(h, start, Step(h, s, e), i, m, copy)
    ensures Remaining(PcOf(Step(h, s, e), i)) < Remaining(PcOf(s, i))
  {
    CompleteVerifies(h, m, copy);
    var digest := h.rootDigest(m);
    if digest in start.store {
      assert start.store[digest := start.store[digest]] == start.store;
    }
  }

  lemma UndisturbedStep(h: Host, start: State, s: State, e: Event, i: nat, source: World, copy: World, m: Manifest)
    requires Underway(h, start, s, i, m, copy) && Undisturbed(h, s, e, i, source, copy) && Remaining(PcOf(s, i)) > 0
    requires h.inspectSource(source, h.tool(i)) == Some(m)
    ensures Underway(h, start, Step(h, s, e), i, m, copy)
    ensures Remaining(PcOf(Step(h, s, e), i)) < Remaining(PcOf(s, i))
  {
    if Early(PcOf(s, i)) {
      UndisturbedEarlyStep(h, start, s, e, i, source, copy, m);
    } else {
      UndisturbedLateStep(h, start, s, e, i, source, copy, m);
    }
  }

  lemma CompleteVerifies(h: Host, m: Manifest, copy: World)
    ensures Verifies(h, Complete(h, m, copy), m, h.rootDigest(m)) <==> h.inspect(copy, m.tool) == Some(m)
  {
  }

  lemma {:induction false} UndisturbedFinishes(h: Host, start: State, s: State, events: seq<Event>, i: nat, source: World, copy: World, m: Manifest)
    requires Underway(h, start, s, i, m, copy) && UndisturbedRun(h, s, events, i, source, copy) && |events| >= Remaining(PcOf(s, i))
    requires h.inspectSource(source, h.tool(i)) == Some(m)
    ensures var last := Run(h, s, events);
      Remaining(PcOf(last, i)) == 0 && Underway(h, start, last, i, m, copy)
    decreases |events|
  {
    if events != [] {
      var t := Step(h, s, events[0]);
      if Remaining(PcOf(s, i)) > 0 {
        UndisturbedStep(h, start, s, events[0], i, source, copy, m);
      } else {
        assert t.store == s.store && PcOf(t, i) == PcOf(s, i);
      }
      UndisturbedFinishes(h, start, t, events[1..], i, source, copy, m);
    }
  }

  // Ten steps suffice. The sealer succeeds exactly if the manifest published under
  // the digest is its own, or none is and its copy inspects to it; and then the
  // copy is published.
  lemma UndisturbedSealerSucceeds(h: Host, s: State, events: seq<Event>, i: nat, source: World, copy: World, m: Manifest)
    requires Good(h, s) && PcOf(s, i) == Start && |events| >= 10 && UndisturbedRun(h, s, events, i, source, copy)
    requires h.inspectSource(source, h.tool(i)) == Some(m)
    ensures var digest := h.rootDigest(m); var last := Run(h, s, events);
      var wins := if digest in s.store then s.store[digest].document.value.manifest == m else h.inspect(copy, m.tool) == Some(m);
      && PcOf(last, i) == (if wins then Done(m) else Failed)
      && last.store == if wins && digest !in s.store then s.store[digest := Complete(h, m, copy)] else s.store
  {
    UndisturbedFinishes(h, s, s, events, i, source, copy, m);
    var digest := h.rootDigest(m);
    if digest in s.store {
      assert Published(h, digest, s.store[digest]);
      assert Verifies(h, s.store[digest], m, digest) <==> s.store[digest].document.value.manifest == m;
      assert s.store[digest := s.store[digest]] == s.store;
    }
  }

  // ---- The sealing procedure, interrupted by other sealers ------------------------------------------

  // What other sealers do before an operation of this one, and what the operation meets.
  datatype Turn = Turn(others: seq<Event>, own: Event)

  predicate TurnOf(t: Turn, i: nat) {
    t.own.sealer == i && forall e :: e in t.others ==> e.sealer != i
  }

  // Where sealer i stands and what it has are its own.
  ghost predicate SameFor(s: State, t: State, i: nat) {
    PcOf(t, i) == PcOf(s, i) && Candidate(t, i) == Candidate(s, i)
  }

  lemma {:induction false} OthersRun(h: Host, s: State, events: seq<Event>, i: nat)
    requires forall e :: e in events ==> e.sealer != i
    ensures SameFor(s, Run(h, s, events), i)
    decreases |events|
  {
    if events != [] {
      assert SameFor(s, Step(h, s, events[0]), i);
      OthersRun(h, Step(h, s, events[0]), events[1..], i);
    }
  }

  function OwnTurns(turns: seq<Turn>): (own: seq<Event>)
    ensures |own| == |turns| && forall k :: 0 <= k < |own| ==> own[k] == turns[k].own
  {
    seq(|turns|, k requires 0 <= k < |turns| => turns[k].own)
  }

  // The operations done are the first k of the plan.
  ghost predicate Follows(own: seq<Event>, plan: seq<Event>, k: nat) {
    |own| == k && own <= plan
  }

  ghost predicate Next(plan: seq<Event>, k: nat, e: Event) {
    k < |plan| && plan[k] == e
  }

  lemma FollowsOn(own: seq<Event>, plan: seq<Event>, k: nat, e: Event)
    requires Follows(own, plan, k) && Next(plan, k, e)
    ensures Follows(own + [e], plan, k + 1)
  {
  }

  class Cache {
    const h: Host
    var store: map<string, Container>
    var candidates: map<nat, Container>
    var pcs: map<nat, Pc>
    // Everything that has happened since the cache was empty.
    ghost var trace: seq<Event>

    constructor (h: Host)
      ensures this.h == h && Traced() && Current() == Initial()
    {
      this.h := h;
      store, candidates, pcs, trace := map[], map[], map[], [];
    }

    function Current(): State
      reads this
    {
      State(store, candidates, pcs)
    }

    ghost predicate Traced()
      reads this
    {
      Current() == Run(h, Initial(), trace)
    }

    // Sealer i stands at pc, with a candidate of its own or without one.
    ghost predicate At(i: nat, pc: Pc, candidate: Option<Container>)
      reads this
    {
      PcOf(Current(), i) == pc && Candidate(Current(), i) == candidate
    }

    // The sealer has done the first k operations of the plan.
    ghost predicate OnCourse(i: nat, plan: seq<Event>, k: nat)
      reads this
    {
      Follows(Own(trace, i), plan, k)
    }

    // The sealer has done nothing but operations of the plan.
    ghost predicate Kept(i: nat, plan: seq<Event>)
      reads this
    {
      Follows(Own(trace, i), plan, |Own(trace, i)|)
    }

    // Other sealers have their turn.
    method Wait(turn: Turn, i: nat, ghost plan: seq<Event>, ghost k: nat)
      requires Traced() && TurnOf(turn, i) && OnCourse(i, plan, k)
      modifies this
      ensures Traced() && SameFor(old(Current()), Current(), i) && OnCourse(i, plan, k)
    {
      OwnSplits(trace, turn.others, i);
      OthersOwnNothing(turn.others, i);
      RunSplits(h, Initial(), trace, turn.others);
      OthersRun(h, Current(), turn.others, i);
      var now := Run(h, Current(), turn.others);
      store, candidates, pcs, trace := now.store, now.candidates, now.pcs, trace + turn.others;
    }

    // Sealer i goes on: this is the step of the protocol.
    method Go(i: nat, pc: Pc, candidate: Option<Container>, e: Event, ghost plan: seq<Event>, ghost k: nat)
      requires Traced() && e.sealer == i && OnCourse(i, plan, k) && Next(plan, k, e)
      requires Advance(h, store, PcOf(Current(), i), Candidate(Current(), i), e) == Change(pc, candidate, None)
      modifies this
      ensures Traced() && store == old(store) && At(i, pc, candidate)
      ensures OnCourse(i, plan, k + 1) && Kept(i, plan)
    {
      RunSplits(h, Initial(), trace, [e]);
      OwnSplits(trace, [e], i);
      FollowsOn(Own(trace, i), plan, k, e);
      candidates := if candidate.Some? then candidates[i := candidate.value] else candidates - {i};
      pcs := pcs[i := pc];
      trace := trace + [e];
    }

    // Sealer i publishes its candidate.
    method Install(i: nat, m: Manifest, e: Event, ghost plan: seq<Event>, ghost k: nat)
      requires Traced() && e.sealer == i && OnCourse(i, plan, k) && Next(plan, k, e)
      requires PcOf(Current(), i) == Verified(m) && i in candidates && !e.fault && h.rootDigest(m) !in store
      modifies this
      ensures Traced() && store == old(store)[h.rootDigest(m) := old(candidates)[i]] && At(i, Opening(m), None)
      ensures OnCourse(i, plan, k + 1) && Kept(i, plan)
    {
      RunSplits(h, Initial(), trace, [e]);
      OwnSplits(trace, [e], i);
      FollowsOn(Own(trace, i), plan, k, e);
      store := store[h.rootDigest(m) := candidates[i]];
      candidates := candidates - {i};
      pcs := pcs[i := Opening(m)];
      trace := trace + [e];
    }

    // What is left of a candidate is what one of the operations could not remove.
    ghost predicate Ended(i: nat, pc: Pc, turns: seq<Turn>)
      reads this
    {
      && PcOf(Current(), i) == pc
      && (Candidate(Current(), i).None? || exists t :: t in turns && t.own.leftover == Candidate(Current(), i))
    }

    // sealRootContract: any other sealers may run between two of its operations.
    // It returns a contract exactly when the protocol says that it is done. The
    // manifest is that of the source at the first operation; if the digest was not
    // there at the second one, it is also that of the source after the copy.
    method SealRootContract(i: nat, turns: seq<Turn>) returns (contract: Option<Manifest>)
      requires Traced() && At(i, Start, None)
      requires |turns| == 10 && forall t :: t in turns ==> TurnOf(t, i)
      modifies this
      ensures Traced()
      ensures Ended(i, if contract.Some? then Done(contract.value) else Failed, turns)
      ensures Own(trace, i) <= OwnTurns(turns)
      ensures contract.Some? ==> h.inspectSource(turns[0].own.source, h.tool(i)) == contract
      ensures contract.Some? ==> Met(h, trace, i).Some? && !turns[0].own.fault && !turns[1].own.fault
      ensures contract.Some? && h.rootDigest(contract.value) in Met(h, trace, i).value ==> !turns[2].own.fault
      ensures contract.Some? && h.rootDigest(contract.value) !in Met(h, trace, i).value ==>
        && h.inspectSource(turns[4].own.source, h.tool(i)) == contract
        && (forall k :: 0 <= k < 8 ==> !turns[k].own.fault) && !turns[9].own.fault
    {
      RunPast(h, trace, i);
      var m := Inspect(i, turns[0], OwnTurns(turns));
      if m.None? {
        return None;
      }
      contract := SealInspected(i, m.value, turns, OwnTurns(turns));
      SealedOnCourse(i, turns, contract);
    }

    lemma SealedOnCourse(i: nat, turns: seq<Turn>, contract: Option<Manifest>)
      requires Traced() && |turns| == 10 && Own(trace, i) <= OwnTurns(turns)
      requires contract.Some? ==> PcOf(Current(), i) == Done(contract.value)
      ensures contract.Some? ==> h.inspectSource(turns[0].own.source, h.tool(i)) == contract
      ensures contract.Some? ==> Met(h, trace, i).Some? && !turns[0].own.fault && !turns[1].own.fault
      ensures contract.Some? && h.rootDigest(contract.value) in Met(h, trace, i).value ==> !turns[2].own.fault
      ensures contract.Some? && h.rootDigest(contract.value) !in Met(h, trace, i).value ==>
        && h.inspectSource(turns[4].own.source, h.tool(i)) == contract
        && (forall k :: 0 <= k < 8 ==> !turns[k].own.fault) && !turns[9].own.fault
    {
      RunPast(h, trace, i);
      var own := Own(trace, i);
      assert forall k :: 0 <= k < |own| ==> own[k] == OwnTurns(turns)[k];
    }

    method Inspect(i: nat, turn: Turn, ghost plan: seq<Event>) returns (m: Option<Manifest>)
      requires Traced() && At(i, Start, None) && TurnOf(turn, i)
      requires OnCourse(i, plan, 0) && Next(plan, 0, turn.own)
      modifies this
      ensures Traced() && At(i, if m.Some? then Inspected(m.value) else Failed, None)
      ensures OnCourse(i, plan, 1) && Kept(i, plan)
    {
      Wait(turn, i, plan, 0);
      var e := turn.own;
      m := h.inspectSource(e.source, h.tool(i));
      if e.fault || m.None? {
        Go(i, Failed, None, e, plan, 0);
        return None;
      }
      Go(i, Inspected(m.value), None, e, plan, 0);
    }

    method SealInspected(i: nat, m: Manifest, turns: seq<Turn>, ghost plan: seq<Event>) returns (contract: Option<Manifest>)
      requires Traced() && At(i, Inspected(m), None) && OnCourse(i, plan, 1)
      requires |turns| == 10 && (forall t :: t in turns ==> TurnOf(t, i)) && plan == OwnTurns(turns)
      modifies this
      ensures Traced()
      ensures Ended(i, if contract.Some? then Done(contract.value) else Failed, turns)
      ensures Kept(i, plan)
    {
      var found := LookUp(i, m, turns[1], plan);
      if found == None {
        return None;
      }
      if found == Some(true) {
        contract := OpenRootContract(i, m, turns[2], plan, 2);
        return;
      }
      contract := SealCandidate(i, m, turns, plan);
    }

    method SealCandidate(i: nat, m: Manifest, turns: seq<Turn>, ghost plan: seq<Event>) returns (contract: Option<Manifest>)
      requires Traced() && At(i, TargetAbsent(m), None) && OnCourse(i, plan, 2)
      requires |turns| == 10 && (forall t :: t in turns ==> TurnOf(t, i)) && plan == OwnTurns(turns)
      modifies this
      ensures Traced()
      ensures Ended(i, if contract.Some? then Done(contract.value) else Failed, turns)
      ensures Kept(i, plan)
    {
      var ok := MakeCandidate(i, m, turns, plan);
      if !ok {
        return None;
      }
      ok := PublishCandidate(i, m, turns[8], plan);
      if !ok {
        return None;
      }
      contract := OpenRootContract(i, m, turns[9], plan, 9);
    }

    // Whether the digest has its container already.
    method LookUp(i: nat, m: Manifest, turn: Turn, ghost plan: seq<Event>) returns (found: Option<bool>)
      requires Traced() && At(i, Inspected(m), None) && TurnOf(turn, i)
      requires OnCourse(i, plan, 1) && Next(plan, 1, turn.own)
      modifies this
      ensures Traced() && OnCourse(i, plan, 2) && Kept(i, plan)
      ensures At(i, if found.None? then Failed else if found.value then Opening(m) else TargetAbsent(m), None)
      ensures found.Some? ==> found.value == (h.rootDigest(m) in store)
    {
      Wait(turn, i, plan, 1);
      var e := turn.own;
      if e.fault {
        Go(i, Failed, None, e, plan, 1);
        return None;
      }
      if h.rootDigest(m) in store {
        Go(i, Opening(m), None, e, plan, 1);
        return Some(true);
      }
      Go(i, TargetAbsent(m), None, e, plan, 1);
      return Some(false);
    }

    // The candidate is copied, its source inspected again, the metadata written,
    // the hook called and the result verified.
    method MakeCandidate(i: nat, m: Manifest, turns: seq<Turn>, ghost plan: seq<Event>) returns (ok: bool)
      requires Traced() && At(i, TargetAbsent(m), None) && OnCourse(i, plan, 2)
      requires |turns| == 10 && (forall t :: t in turns ==> TurnOf(t, i)) && plan == OwnTurns(turns)
      modifies this
      ensures Traced() && Kept(i, plan)
      ensures ok ==> PcOf(Current(), i) == Verified(m) && i in candidates && OnCourse(i, plan, 8)
      ensures !ok ==> Ended(i, Failed, turns)
    {
      ok := FillCandidate(i, m, turns, plan);
      if ok {
        ok := CompleteCandidate(i, m, turns, plan);
      }
    }

    method FillCandidate(i: nat, m: Manifest, turns: seq<Turn>, ghost plan: seq<Event>) returns (ok: bool)
      requires Traced() && At(i, TargetAbsent(m), None) && OnCourse(i, plan, 2)
      requires |turns| == 10 && (forall t :: t in turns ==> TurnOf(t, i)) && plan == OwnTurns(turns)
      modifies this
      ensures Traced() && Kept(i, plan)
      ensures ok ==> PcOf(Current(), i) == Unchanged(m) && i in candidates && OnCourse(i, plan, 5)
      ensures ok ==> h.inspectSource(turns[4].own.source, h.tool(i)) == Some(m)
      ensures !ok ==> Ended(i, Failed, turns)
    {
      ok := CreateCandidate(i, m, turns[2], plan);
      if !ok {
        return;
      }
      ok := CopySnapshot(i, m, turns[3], plan);
      if !ok {
        return;
      }
      ok := InspectAgain(i, m, turns[4], plan);
    }

    method CompleteCandidate(i: nat, m: Manifest, turns: seq<Turn>, ghost plan: seq<Event>) returns (ok: bool)
      requires Traced() && PcOf(Current(), i) == Unchanged(m) && i in candidates && OnCourse(i, plan, 5)
      requires |turns| == 10 && (forall t :: t in turns ==> TurnOf(t, i)) && plan == OwnTurns(turns)
      modifies this
      ensures Traced() && Kept(i, plan)
      ensures ok ==> PcOf(Current(), i) == Verified(m) && i in candidates && OnCourse(i, plan, 8)
      ensures ok ==> Verifies(h, candidates[i], m, h.rootDigest(m))
      ensures !ok ==> Ended(i, Failed, turns)
    {
      ok := WriteMetadata(i, m, turns[5], plan);
      if !ok {
        return;
      }
      ok := CallHook(i, m, turns[6], plan);
      if !ok {
        return;
      }
      ok := VerifyCandidate(i, m, turns[7], plan);
    }

    method CreateCandidate(i: nat, m: Manifest, turn: Turn, ghost plan: seq<Event>) returns (ok: bool)
      requires Traced() && At(i, TargetAbsent(m), None) && TurnOf(turn, i)
      requires OnCourse(i, plan, 2) && Next(plan, 2, turn.own)
      modifies this
      ensures Traced() && OnCourse(i, plan, 3) && Kept(i, plan)
      ensures At(i, if ok then CandidateMade(m) else Failed, if ok then Some(Container(None, None, None)) else None)
    {
      Wait(turn, i, plan, 2);
      var e := turn.own;
      if e.fault {
        Go(i, Failed, None, e, plan, 2);
        return false;
      }
      Go(i, CandidateMade(m), Some(Container(None, None, None)), e, plan, 2);
      return true;
    }

    method CopySnapshot(i: nat, m: Manifest, turn: Turn, ghost plan: seq<Event>) returns (ok: bool)
      requires Traced() && PcOf(Current(), i) == CandidateMade(m) && i in candidates && TurnOf(turn, i)
      requires OnCourse(i, plan, 3) && Next(plan, 3, turn.own)
      modifies this
      ensures Traced() && OnCourse(i, plan, 4) && Kept(i, plan)
      ensures ok ==> PcOf(Current(), i) == Copied(m) && i in candidates && candidates[i].root == turn.own.left.root
      ensures !ok ==> At(i, Failed, turn.own.leftover)
    {
      Wait(turn, i, plan, 3);
      var e := turn.own;
      if e.fault || e.left.root.None? {
        Go(i, Failed, e.leftover, e, plan, 3);
        return false;
      }
      Go(i, Copied(m), Some(candidates[i].(root := e.left.root)), e, plan, 3);
      return true;
    }

    // Only a source that is still as it was is written down.
    method InspectAgain(i: nat, m: Manifest, turn: Turn, ghost plan: seq<Event>) returns (ok: bool)
      requires Traced() && PcOf(Current(), i) == Copied(m) && i in candidates && TurnOf(turn, i)
      requires OnCourse(i, plan, 4) && Next(plan, 4, turn.own)
      modifies this
      ensures Traced() && OnCourse(i, plan, 5) && Kept(i, plan)
      ensures ok ==> At(i, Unchanged(m), old(Candidate(Current(), i)))
      ensures ok ==> h.inspectSource(turn.own.source, h.tool(i)) == Some(m)
      ensures !ok ==> At(i, Failed, turn.own.leftover)
    {
      Wait(turn, i, plan, 4);
      var e := turn.own;
      if e.fault || h.inspectSource(e.source, h.tool(i)) != Some(m) {
        Go(i, Failed, e.leftover, e, plan, 4);
        return false;
      }
      Go(i, Unchanged(m), Some(candidates[i]), e, plan, 4);
      return true;
    }

    method WriteMetadata(i: nat, m: Manifest, turn: Turn, ghost plan: seq<Event>) returns (ok: bool)
      requires Traced() && PcOf(Current(), i) == Unchanged(m) && i in candidates && TurnOf(turn, i)
      requires OnCourse(i, plan, 5) && Next(plan, 5, turn.own)
      modifies this
      ensures Traced() && OnCourse(i, plan, 6) && Kept(i, plan)
      ensures ok ==> PcOf(Current(), i) == MetadataWritten(m) && i in candidates
      ensures ok ==> candidates[i].document == Some(Document(h.rootDigest(m), m))
      ensures !ok ==> At(i, Failed, turn.own.leftover)
    {
      Wait(turn, i, plan, 5);
      var e := turn.own;
      if e.fault {
        Go(i, Failed, e.leftover, e, plan, 5);
        return false;
      }
      var document := Document(h.rootDigest(m), m);
      var seal := Seal(h.rootDigest(m), h.documentDigest(document));
      Go(i, MetadataWritten(m), Some(candidates[i].(document := Some(document), seal := Some(seal))), e, plan, 5);
      return true;
    }

    // The hook may leave anything.
    method CallHook(i: nat, m: Manifest, turn: Turn, ghost plan: seq<Event>) returns (ok: bool)
      requires Traced() && PcOf(Current(), i) == MetadataWritten(m) && i in candidates && TurnOf(turn, i)
      requires OnCourse(i, plan, 6) && Next(plan, 6, turn.own)
      modifies this
      ensures Traced() && OnCourse(i, plan, 7) && Kept(i, plan)
      ensures At(i, if ok then Hooked(m) else Failed, if ok then Some(turn.own.left) else turn.own.leftover)
    {
      Wait(turn, i, plan, 6);
      var e := turn.own;
      if e.fault {
        Go(i, Failed, e.leftover, e, plan, 6);
        return false;
      }
      Go(i, Hooked(m), Some(e.left), e, plan, 6);
      return true;
    }

    // What is verified afterwards stays.
    method VerifyCandidate(i: nat, m: Manifest, turn: Turn, ghost plan: seq<Event>) returns (ok: bool)
      requires Traced() && PcOf(Current(), i) == Hooked(m) && i in candidates && TurnOf(turn, i)
      requires OnCourse(i, plan, 7) && Next(plan, 7, turn.own)
      modifies this
      ensures Traced() && OnCourse(i, plan, 8) && Kept(i, plan)
      ensures ok ==> PcOf(Current(), i) == Verified(m) && i in candidates && Verifies(h, candidates[i], m, h.rootDigest(m))
      ensures !ok ==> At(i, Failed, turn.own.leftover)
    {
      Wait(turn, i, plan, 7);
      var e := turn.own;
      if e.fault || !Verifies(h, candidates[i], m, h.rootDigest(m)) {
        Go(i, Failed, e.leftover, e, plan, 7);
        return false;
      }
      Go(i, Verified(m), Some(candidates[i]), e, plan, 7);
      return true;
    }

    // The rename, which loses against a container that is there already.
    method PublishCandidate(i: nat, m: Manifest, turn: Turn, ghost plan: seq<Event>) returns (ok: bool)
      requires Traced() && PcOf(Current(), i) == Verified(m) && i in candidates && TurnOf(turn, i)
      requires OnCourse(i, plan, 8) && Next(plan, 8, turn.own)
      modifies this
      ensures Traced() && OnCourse(i, plan, 9) && Kept(i, plan)
      ensures Ended(i, if ok then Opening(m) else Failed, [turn])
      ensures ok ==> h.rootDigest(m) in store
    {
      Wait(turn, i, plan, 8);
      var e := turn.own;
      if h.rootDigest(m) in store {
        Go(i, Opening(m), e.leftover, e, plan, 8);
        return true;
      }
      if e.fault {
        Go(i, Failed, e.leftover, e, plan, 8);
        return false;
      }
      Install(i, m, e, plan, 8);
      return true;
    }

    method OpenRootContract(i: nat, m: Manifest, turn: Turn, ghost plan: seq<Event>, ghost k: nat) returns (contract: Option<Manifest>)
      requires Traced() && PcOf(Current(), i) == Opening(m) && TurnOf(turn, i)
      requires OnCourse(i, plan, k) && Next(plan, k, turn.own)
      modifies this
      ensures Traced() && Kept(i, plan)
      ensures contract.Some? ==> contract.value == m
      ensures At(i, if contract.Some? then Done(m) else Failed, old(Candidate(Current(), i)))
    {
      Wait(turn, i, plan, k);
      var e, digest := turn.own, h.rootDigest(m);
      if e.fault || digest !in store || !Verifies(h, store[digest], m, digest) {
        Go(i, Failed, Candidate(Current(), i), e, plan, k);
        return None;
      }
      Go(i, Done(m), Candidate(Current(), i), e, plan, k);
      return Some(m);
    }
  }
}
