// From a Go root to its published copy: inspecting, copying and sealing together.
module RootPublication {
  import opened Common
  import opened RootPaths
  import opened RootManifest
  import RootCopy
  import opened RootSealing

  // The answer of InspectRootManifest.
  ghost predicate Inspects(r: Option<Manifest>, w: World, root: Path, tool: Path, sha: Content -> string, readable: Access) {
    && (r.Some? ==> IsInspection(w, root, tool, sha, readable, r.value))
    && (r.None? ==> forall m :: !IsInspection(w, root, tool, sha, readable, m))
  }

  lemma AnswerIsUnique(r: Option<Manifest>, w: World, root: Path, tool: Path, sha: Content -> string, readable: Access, m: Manifest)
    requires Inspects(r, w, root, tool, sha, readable)
    ensures r == Some(m) <==> IsInspection(w, root, tool, sha, readable, m)
  {
    if IsInspection(w, root, tool, sha, readable, m) {
      InspectionUnique(w, root, tool, sha, readable, r.value, m);
    }
  }

  // The copy that CopyRootSnapshot makes of an inspected root, and where it stands.
  ghost predicate Standing(w: World, root: Path, m: Manifest, copy: World, v: World, top: Path) {
    && WellFormed(w) && root in w && w[root].Dir?
    && RootCopy.Copied(RootCopy.ImageOf(w, root), m.entries, copy) && RootCopy.Holds(v, top, copy)
  }

  // A sealer whose source stays as it is, whose copy nobody touches and that meets
  // no fault: with a new digest it succeeds exactly if its owner can read the copy,
  // and with a known one exactly if the published manifest is its own.
  lemma UnchangingRootIsPublished(h: Host, s: State, events: seq<Event>, i: nat, w: World, root: Path, sha: Content -> string,
    readable: Access, m: Manifest, copy: World, v: World, top: Path, privileged: bool)
    requires Good(h, s) && PcOf(s, i) == Start && |events| >= 10 && UndisturbedRun(h, s, events, i, w, copy)
    requires Inspects(h.inspectSource(w, h.tool(i)), w, root, h.tool(i), sha, readable)
    requires Inspects(h.inspect(copy, h.tool(i)), v, top, h.tool(i), sha, RootCopy.OwnerOf(privileged))
    requires IsInspection(w, root, h.tool(i), sha, readable, m) && Standing(w, root, m, copy, v, top)
    ensures var digest := h.rootDigest(m); var last := Run(h, s, events);
      var wins := if digest in s.store then s.store[digest].document.value.manifest == m
        else RootCopy.AllReadable(privileged, RootCopy.ImageOf(w, root), m.entries);
      && PcOf(last, i) == (if wins then Done(m) else Failed)
      && (wins && digest !in s.store ==> digest in last.store && last.store[digest] == Complete(h, m, copy))
      && (!wins ==> last.store == s.store)
  {
    AnswerIsUnique(h.inspectSource(w, h.tool(i)), w, root, h.tool(i), sha, readable, m);
    AnswerIsUnique(h.inspect(copy, h.tool(i)), v, top, h.tool(i), sha, RootCopy.OwnerOf(privileged), m);
    RootCopy.CopyIsFaithful(w, root, h.tool(i), sha, readable, m, copy, v, top, privileged);
    UndisturbedSealerSucceeds(h, s, events, i, w, copy, m);
  }

  // What is published then is there after everything that follows, with the copy as
  // it was made; every sealer that ends with the digest ends with this manifest.
  lemma PublishedCopyStays(h: Host, s: State, events: seq<Event>, i: nat, w: World, root: Path, sha: Content -> string,
    readable: Access, m: Manifest, copy: World, v: World, top: Path, privileged: bool, more: seq<Event>, j: nat)
    requires Good(h, s) && PcOf(s, i) == Start && |events| >= 10 && UndisturbedRun(h, s, events, i, w, copy)
    requires Inspects(h.inspectSource(w, h.tool(i)), w, root, h.tool(i), sha, readable)
    requires Inspects(h.inspect(copy, h.tool(i)), v, top, h.tool(i), sha, RootCopy.OwnerOf(privileged))
    requires IsInspection(w, root, h.tool(i), sha, readable, m) && Standing(w, root, m, copy, v, top)
    requires h.rootDigest(m) !in s.store && RootCopy.AllReadable(privileged, RootCopy.ImageOf(w, root), m.entries)
    ensures var later := Run(h, Run(h, s, events), more);
      && h.rootDigest(m) in later.store && later.store[h.rootDigest(m)] == Complete(h, m, copy)
      && (PcOf(later, j).Done? && h.rootDigest(PcOf(later, j).m) == h.rootDigest(m) ==> PcOf(later, j).m == m)
  {
    UnchangingRootIsPublished(h, s, events, i, w, root, sha, readable, m, copy, v, top, privileged);
    RunKeeps(h, s, events);
    LaterSealersAgree(h, Run(h, s, events), more, h.rootDigest(m), j);
  }
}
