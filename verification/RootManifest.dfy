// A file tree with symbolic links, and the manifest that an inspection of a Go
// root in it yields.
module RootManifest {
  import opened Common
  import opened Text
  import opened RootPaths

  type Content = seq<bv8>

  // ---- The file tree ----------------------------------------------------------------

  // A link leads along its steps, from its own directory or from the top.
  datatype Step = Name(name: string) | Up
  datatype Node = Dir(mode: nat) | File(mode: nat, content: Content) | Link(absolute: bool, steps: seq<Step>) | Special(mode: nat)

  type World = map<Path, Node>

  // Whether a place can be read: a file's content, or a directory's entries.
  type Access = (World, Path) -> bool

  ghost predicate WellFormed(w: World) {
    && [] in w && w[[]].Dir?
    && forall p :: p in w && p != [] ==> Parent(p) in w && w[Parent(p)].Dir?
  }

  lemma {:induction false} AncestorsAreDirectories(w: World, p: Path, k: nat)
    requires WellFormed(w) && p in w && k < |p|
    ensures p[..k] in w && w[p[..k]].Dir?
    decreases |p|
  {
    if k < |p| - 1 {
      AncestorsAreDirectories(w, Parent(p), k);
      assert Parent(p)[..k] == p[..k];
    }
  }

  const MAX_LINKS := 255

  // filepath.EvalSymlinks from a directory reached without links: at most 255
  // links are followed, and a step out of a file fails.
  function Eval(w: World, at: Path, pending: seq<Step>, links: nat): Option<Path>
    decreases MAX_LINKS - links, |pending|
  {
    if pending == [] then Some(at)
    else match pending[0]
      case Up => Eval(w, if at == [] then [] else Parent(at), pending[1..], links)
      case Name(n) =>
        var p := at + [n];
        if p !in w then None
        else match w[p]
          case Link(absolute, steps) =>
            if links + 1 > MAX_LINKS then None
            else Eval(w, if absolute then [] else at, steps + pending[1..], links + 1)
          case Dir(_) => Eval(w, p, pending[1..], links)
          case File(_, _) => if |pending| > 1 then None else Some(p)
          case Special(_) => if |pending| > 1 then None else Some(p)
  }

  function Names(p: Path): seq<Step> {
    seq(|p|, i requires 0 <= i < |p| => Name(p[i]))
  }

  // Nothing on the way to a resolved place is a link.
  ghost predicate Physical(w: World, p: Path) {
    p in w && !w[p].Link?
  }

  lemma {:induction false} EvalIsPhysical(w: World, at: Path, pending: seq<Step>, links: nat)
    requires WellFormed(w) && at in w && w[at].Dir?
    ensures var r := Eval(w, at, pending, links); r.Some? ==> Physical(w, r.value)
    decreases MAX_LINKS - links, |pending|
  {
    if pending != [] {
      match pending[0]
      case Up =>
        EvalIsPhysical(w, if at == [] then [] else Parent(at), pending[1..], links);
      case Name(n) =>
        var p := at + [n];
        if p in w {
          match w[p]
          case Link(absolute, steps) =>
            if links + 1 <= MAX_LINKS {
              EvalIsPhysical(w, if absolute then [] else at, steps + pending[1..], links + 1);
            }
          case Dir(_) => EvalIsPhysical(w, p, pending[1..], links);
          case File(_, _) =>
          case Special(_) =>
        }
    }
  }

  // A chain of directories is walked as it is written.
  lemma {:induction false} EvalWalksDirectories(w: World, p: Path, k: nat, rest: seq<Step>, links: nat)
    requires k <= |p| && forall i :: k < i <= |p| ==> p[..i] in w && w[p[..i]].Dir?
    ensures Eval(w, p[..k], Names(p[k..]) + rest, links) == Eval(w, p, rest, links)
    decreases |p| - k
  {
    if k == |p| {
      assert p[..k] == p && Names(p[k..]) + rest == rest;
    } else {
      var pending := Names(p[k..]) + rest;
      assert pending[0] == Name(p[k]);
      assert pending[1..] == Names(p[k + 1..]) + rest;
      assert p[..k] + [p[k]] == p[..k + 1];
      EvalWalksDirectories(w, p, k + 1, rest, links);
    }
  }

  // ---- Records and manifests ------------------------------------------------------------

  // What the kind of an entry has evidence for; links always have the same mode.
  datatype Kind = Directory(mode: nat) | Regular(mode: nat, size: nat, digest: string) | Symlink(target: Path)
  datatype Entry = Entry(path: Path, kind: Kind)
  datatype Manifest = Manifest(tool: Path, entries: seq<Entry>)

  predicate WithinRoot(root: Path, p: Path) {
    root <= p
  }

  function NormalizedSymlinkTarget(w: World, root: Path, p: Path): Option<Path> {
    var target := Eval(w, [], Names(p), 0);
    if target.None? || !WithinRoot(root, target.value) then None else Some(target.value[|root|..])
  }

  function RecordOf(w: World, root: Path, relative: Path, sha: Content -> string): Option<Entry> {
    if root + relative !in w || !ValidRootPath(relative) then None
    else match w[root + relative]
      case Dir(mode) => if mode > 0x1FF then None else Some(Entry(relative, Directory(mode)))
      case File(mode, content) => if mode > 0x1FF then None else Some(Entry(relative, Regular(mode, |content|, sha(content))))
      case Link(_, _) =>
        var target := NormalizedSymlinkTarget(w, root, root + relative);
        if target.None? || !ValidRootPath(target.value) then None else Some(Entry(relative, Symlink(target.value)))
      case Special(_) => None
  }

  predicate ByText(a: Entry, b: Entry) {
    Less(TextOf(a.path), TextOf(b.path))
  }

  predicate Executable(mode: nat) {
    mode % 2 == 1 || (mode / 8) % 2 == 1 || (mode / 64) % 2 == 1
  }

  ghost predicate HasTool(entries: seq<Entry>, p: Path) {
    exists e :: e in entries && e.path == p && e.kind.Regular? && Executable(e.kind.mode)
  }

  ghost predicate HasDirectory(entries: seq<Entry>, p: Path) {
    exists e :: e in entries && e.path == p && e.kind.Directory?
  }

  predicate ValidEntry(e: Entry) {
    ValidRootPath(e.path) &&
    match e.kind
    case Directory(mode) => mode <= 0x1FF
    case Regular(mode, _, digest) => mode <= 0x1FF && |digest| == 64
    case Symlink(target) => ValidRootPath(target)
  }

  ghost predicate ValidManifest(m: Manifest) {
    && m.tool != [] && ValidRootPath(m.tool)
    && InOrder(m.entries)
    && HasDirectory(m.entries, []) && HasDirectory(m.entries, m.tool)
    && HasTool(m.entries, m.tool + ["compile"]) && HasTool(m.entries, m.tool + ["link"])
  }

  lemma TextOrder()
    ensures WeakOrder(ByText)
  {
    KeyOrder((e: Entry) => TextOf(e.path));
    StringOrder();
  }

  // The entries seen so far, by path.
  ghost predicate Seen(entries: seq<Entry>, seen: map<Path, Entry>) {
    && (forall e :: e in entries ==> e.path in seen)
    && (forall p :: p in seen ==> seen[p] in entries && seen[p].path == p)
  }

  lemma SeenDecides(entries: seq<Entry>, seen: map<Path, Entry>, p: Path)
    requires Seen(entries, seen) && StrictlySorted(ByText, entries)
    ensures HasDirectory(entries, p) <==> p in seen && seen[p].kind.Directory?
    ensures HasTool(entries, p) <==> p in seen && seen[p].kind.Regular? && Executable(seen[p].kind.mode)
  {
    forall e | e in entries && e.path == p ensures p in seen && seen[p] == e {
      var i :| 0 <= i < |entries| && entries[i] == e;
      var j :| 0 <= j < |entries| && entries[j] == seen[p];
      LessIrreflexive(TextOf(p));
    }
  }

  ghost predicate InOrder(entries: seq<Entry>) {
    StrictlySorted(ByText, entries) && forall e :: e in entries ==> ValidEntry(e)
  }

  lemma SeenStep(entries: seq<Entry>, k: nat, seen: map<Path, Entry>)
    requires k < |entries| && InOrder(entries[..k]) && Seen(entries[..k], seen)
    requires ValidEntry(entries[k]) && (k > 0 ==> ByText(entries[k - 1], entries[k]))
    ensures entries[k].path !in seen
    ensures InOrder(entries[..k + 1]) && Seen(entries[..k + 1], seen[entries[k].path := entries[k]])
  {
    TextOrder();
    var e, before, after := entries[k], entries[..k], entries[..k + 1];
    StrictPrefixExtends(ByText, entries, k);
    assert after == before + [e];
    PathsDiffer(after);
    forall p | p in seen ensures p != e.path {
      var i :| 0 <= i < k && before[i] == seen[p];
      assert after[i].path == p && after[k] == e;
    }
  }

  lemma PathsDiffer(entries: seq<Entry>)
    requires StrictlySorted(ByText, entries)
    ensures forall i, j :: 0 <= i < j < |entries| ==> entries[i].path != entries[j].path
  {
    forall i, j | 0 <= i < j < |entries| ensures entries[i].path != entries[j].path {
      LessIrreflexive(TextOf(entries[j].path));
    }
  }

  lemma OutOfOrder(entries: seq<Entry>, k: nat)
    requires k < |entries| && (!ValidEntry(entries[k]) || (k > 0 && !ByText(entries[k - 1], entries[k])))
    ensures !InOrder(entries)
  {
    assert entries[k] in entries;
  }

  // The table that validation fills while it checks each entry and their order.
  method CheckEntries(entries: seq<Entry>) returns (ok: bool, seen: map<Path, Entry>)
    ensures ok <==> InOrder(entries)
    ensures ok ==> Seen(entries, seen)
  {
    seen := map[];
    for k := 0 to |entries|
      invariant InOrder(entries[..k]) && Seen(entries[..k], seen)
    {
      if !ValidEntry(entries[k]) || (k > 0 && !ByText(entries[k - 1], entries[k])) {
        OutOfOrder(entries, k);
        return false, seen;
      }
      SeenStep(entries, k, seen);
      if entries[k].path in seen {
        return false, seen;
      }
      seen := seen[entries[k].path := entries[k]];
    }
    assert entries[..|entries|] == entries;
    return true, seen;
  }

  function IsDirectory(seen: map<Path, Entry>, p: Path): bool {
    p in seen && seen[p].kind.Directory?
  }

  function IsTool(seen: map<Path, Entry>, p: Path): bool {
    p in seen && seen[p].kind.Regular? && Executable(seen[p].kind.mode)
  }

  method ValidateRootManifest(m: Manifest) returns (ok: bool)
    ensures ok <==> ValidManifest(m)
  {
    if m.tool == [] || !ValidRootPath(m.tool) || m.entries == [] {
      return false;
    }
    var seen;
    ok, seen := CheckEntries(m.entries);
    if !ok {
      return;
    }
    SeenDecides(m.entries, seen, []);
    SeenDecides(m.entries, seen, m.tool);
    SeenDecides(m.entries, seen, m.tool + ["compile"]);
    SeenDecides(m.entries, seen, m.tool + ["link"]);
    return IsDirectory(seen, []) && IsDirectory(seen, m.tool)
      && IsTool(seen, m.tool + ["compile"]) && IsTool(seen, m.tool + ["link"]);
  }

  // ---- Inspection ---------------------------------------------------------------------------

  ghost predicate Records(w: World, root: Path, sha: Content -> string, entries: seq<Entry>) {
    && (forall e :: e in entries ==> RecordOf(w, root, e.path, sha) == Some(e))
    && (forall p :: p in w && root <= p ==> exists e :: e in entries && root + e.path == p)
  }

  // m is what an inspection of the root yields: one record for each node below the
  // root, which must all be readable, in the order of their texts.
  ghost predicate IsInspection(w: World, root: Path, tool: Path, sha: Content -> string, readable: Access, m: Manifest) {
    && m.tool == tool && ValidManifest(m) && Records(w, root, sha, m.entries)
    && forall p :: p in w && root <= p ==> readable(w, p)
  }

  lemma InspectionUnique(w: World, root: Path, tool: Path, sha: Content -> string, readable: Access, m: Manifest, n: Manifest)
    requires IsInspection(w, root, tool, sha, readable, m) && IsInspection(w, root, tool, sha, readable, n)
    ensures m == n
  {
    OnlyInspection(w, root, tool, sha, readable, m, n);
  }

  lemma RecordsInclude(w: World, root: Path, sha: Content -> string, a: seq<Entry>, b: seq<Entry>)
    requires Records(w, root, sha, a) && Records(w, root, sha, b)
    ensures forall e :: e in a ==> e in b
  {
    forall e | e in a ensures e in b {
      assert RecordOf(w, root, e.path, sha) == Some(e);
      assert root + e.path in w && root <= root + e.path;
      var f :| f in b && root + f.path == root + e.path;
      assert f.path == (root + f.path)[|root|..] == (root + e.path)[|root|..] == e.path;
      assert RecordOf(w, root, f.path, sha) == Some(f);
    }
  }

  // What the walk has recorded of the nodes outside `left`.
  ghost predicate Recorded(w: World, root: Path, sha: Content -> string, readable: Access, left: set<Path>, entries: seq<Entry>) {
    && (forall e :: e in entries ==> RecordOf(w, root, e.path, sha) == Some(e) && root + e.path !in left)
    && (forall p :: p in w && root <= p && p !in left ==> readable(w, p) && exists e :: e in entries && root + e.path == p)
    && Distinct(entries)
  }

  lemma RecordStep(w: World, root: Path, sha: Content -> string, readable: Access, left: set<Path>, entries: seq<Entry>, p: Path)
    requires Recorded(w, root, sha, readable, left, entries) && p in left && left <= w.Keys
    ensures !(root <= p) ==> Recorded(w, root, sha, readable, left - {p}, entries)
    ensures root <= p && readable(w, p) && RecordOf(w, root, p[|root|..], sha).Some? ==>
      Recorded(w, root, sha, readable, left - {p}, entries + [RecordOf(w, root, p[|root|..], sha).value])
  {
    if root <= p {
      assert root + p[|root|..] == p;
      var r := RecordOf(w, root, p[|root|..], sha);
      if readable(w, p) && r.Some? {
        var more := entries + [r.value];
        assert r.value.path == p[|root|..] && r.value !in entries;
        forall q | q in w && root <= q && q !in left - {p} ensures exists e :: e in more && root + e.path == q {
          if q == p {
            assert r.value in more;
          } else {
            var e :| e in entries && root + e.path == q;
            assert e in more;
          }
        }
      }
    }
  }

  // An inspection has read and recorded every node below the root.
  lemma InspectionReads(w: World, root: Path, tool: Path, sha: Content -> string, readable: Access, m: Manifest, p: Path)
    requires p in w && root <= p && IsInspection(w, root, tool, sha, readable, m)
    ensures readable(w, p) && RecordOf(w, root, p[|root|..], sha).Some?
  {
    var e :| e in m.entries && root + e.path == p;
    assert p[|root|..] == e.path;
    assert RecordOf(w, root, e.path, sha) == Some(e);
  }

  lemma SortedRecords(w: World, root: Path, sha: Content -> string, readable: Access, entries: seq<Entry>, sorted: seq<Entry>)
    requires Recorded(w, root, sha, readable, {}, entries) && Sorted(ByText, sorted) && multiset(sorted) == multiset(entries)
    ensures StrictlySorted(ByText, sorted) && Records(w, root, sha, sorted)
  {
    PermutationKeeps(sorted, entries);
    DistinctPermutation(sorted, entries);
    forall i, j | 0 <= i < |sorted| && 0 <= j < |sorted| && sorted[i] != sorted[j]
      ensures ByText(sorted[i], sorted[j]) || ByText(sorted[j], sorted[i])
    {
      var a, b := sorted[i], sorted[j];
      assert a in entries && b in entries;
      LessTotal(TextOf(a.path), TextOf(b.path));
      if TextOf(a.path) == TextOf(b.path) {
        TextInjective(a.path, b.path);
      }
    }
    SortedDistinctIsStrict(ByText, sorted);
  }

  // The nodes are walked in whatever order; one failure ends the inspection.
  method InspectRootManifest(w: World, root: Path, tool: Path, sha: Content -> string, readable: Access) returns (r: Option<Manifest>)
    ensures r.Some? ==> IsInspection(w, root, tool, sha, readable, r.value)
    ensures r.None? ==> forall m :: !IsInspection(w, root, tool, sha, readable, m)
  {
    var entries: seq<Entry> := [];
    var left := w.Keys;
    while left != {}
      invariant left <= w.Keys && Recorded(w, root, sha, readable, left, entries)
      decreases |left|
    {
      var p :| p in left;
      RecordStep(w, root, sha, readable, left, entries, p);
      if WithinRoot(root, p) {
        var record := RecordOf(w, root, p[|root|..], sha);
        if !readable(w, p) || record.None? {
          forall m ensures !IsInspection(w, root, tool, sha, readable, m) {
            if IsInspection(w, root, tool, sha, readable, m) {
              InspectionReads(w, root, tool, sha, readable, m, p);
            }
          }
          return None;
        }
        entries := entries + [record.value];
      }
      left := left - {p};
    }
    TextOrder();
    var m := Manifest(tool, Sort(ByText, entries));
    SortedRecords(w, root, sha, readable, entries, m.entries);
    var valid := ValidateRootManifest(m);
    if !valid {
      forall n ensures !IsInspection(w, root, tool, sha, readable, n) {
        OnlyInspection(w, root, tool, sha, readable, m, n);
      }
      return None;
    }
    return Some(m);
  }

  // Two complete and ordered lists of records agree, valid or not.
  lemma OnlyInspection(w: World, root: Path, tool: Path, sha: Content -> string, readable: Access, m: Manifest, n: Manifest)
    requires m.tool == tool && StrictlySorted(ByText, m.entries) && Records(w, root, sha, m.entries)
    ensures IsInspection(w, root, tool, sha, readable, n) ==> m == n
  {
    if IsInspection(w, root, tool, sha, readable, n) {
      TextOrder();
      RecordsInclude(w, root, sha, m.entries, n.entries);
      RecordsInclude(w, root, sha, n.entries, m.entries);
      StrictlySortedUnique(ByText, m.entries, n.entries);
    }
  }

  // Equal modes and equal contents, as far as size and digest tell, and links that
  // lead to the same place of their roots.
  ghost predicate SameNode(w: World, root: Path, v: World, other: Path, p: Path, sha: Content -> string)
    requires root + p in w && other + p in v
  {
    match w[root + p]
    case Dir(mode) => v[other + p] == Dir(mode)
    case File(mode, content) =>
      v[other + p].File? && v[other + p].mode == mode && |v[other + p].content| == |content| && sha(v[other + p].content) == sha(content)
    case Link(_, _) =>
      var from, to := Eval(w, [], Names(root + p), 0), Eval(v, [], Names(other + p), 0);
      v[other + p].Link? && from.Some? && to.Some? && exists target: Path :: from.value == root + target && to.value == other + target
    case Special(_) => false
  }

  // A manifest determines its tree: what inspects to it has the same nodes.
  lemma ManifestDecidesTree(w: World, root: Path, v: World, other: Path, tool: Path, sha: Content -> string,
    readable: Access, legible: Access, m: Manifest, p: Path)
    requires IsInspection(w, root, tool, sha, readable, m) && IsInspection(v, other, tool, sha, legible, m)
    ensures root + p in w <==> other + p in v
    ensures root + p in w ==> SameNode(w, root, v, other, p, sha)
  {
    if root + p in w {
      var e := EntryAt(w, root, sha, m.entries, p);
      SameRecord(w, root, v, other, e, sha);
    }
    if other + p in v {
      var e := EntryAt(v, other, sha, m.entries, p);
      SameRecord(w, root, v, other, e, sha);
    }
  }

  lemma EntryAt(w: World, root: Path, sha: Content -> string, entries: seq<Entry>, p: Path) returns (e: Entry)
    requires Records(w, root, sha, entries) && root + p in w
    ensures e in entries && e.path == p
  {
    assert root <= root + p;
    e :| e in entries && root + e.path == root + p;
    assert e.path == (root + e.path)[|root|..] == (root + p)[|root|..] == p;
  }

  lemma SameRecord(w: World, root: Path, v: World, other: Path, e: Entry, sha: Content -> string)
    requires RecordOf(w, root, e.path, sha) == Some(e) && RecordOf(v, other, e.path, sha) == Some(e)
    ensures root + e.path in w && other + e.path in v && SameNode(w, root, v, other, e.path, sha)
  {
    if e.kind.Symlink? {
      var from, to := Eval(w, [], Names(root + e.path), 0), Eval(v, [], Names(other + e.path), 0);
      assert from.value == root + e.kind.target && to.value == other + e.kind.target;
    }
  }
}
