// Copying an inspected Go root by its manifest, and inspecting the copy.
module RootCopy {
  import opened Common
  import opened Text
  import opened RootPaths
  import opened RootManifest

  const NEW_DIRECTORY := 0x1ED // rwxr-xr-x
  const NEW_FILE := 0x180 // rw-------

  predicate OwnerReads(mode: nat) { (mode / 256) % 2 == 1 }
  predicate OwnerWrites(mode: nat) { (mode / 128) % 2 == 1 }
  predicate OwnerSearches(mode: nat) { (mode / 64) % 2 == 1 }

  // What the owner of a copy may read again; a privileged user may read anything.
  // A directory has to be searched only for the entries in it.
  predicate Readable(privileged: bool, node: Node, hasEntries: bool) {
    privileged ||
    match node
    case Dir(mode) => OwnerReads(mode) && (hasEntries ==> OwnerSearches(mode))
    case File(mode, _) => OwnerReads(mode)
    case Link(_, _) => true
    case Special(_) => true
  }

  // ---- The tree below the target root -----------------------------------------------------

  predicate Searchable(privileged: bool, tree: World, p: Path) {
    forall k :: 0 <= k < |p| ==>
      p[..k] in tree && tree[p[..k]].Dir? && (privileged || OwnerSearches(tree[p[..k]].mode))
  }

  predicate Creatable(privileged: bool, tree: World, p: Path) {
    && p !in tree && Searchable(privileged, tree, p)
    && (p == [] || privileged || OwnerWrites(tree[p[..|p| - 1]].mode))
  }

  function WithMode(node: Node, mode: nat): Node {
    match node
    case Dir(_) => Dir(mode)
    case File(_, content) => File(mode, content)
    case Link(_, _) => node
    case Special(_) => Special(mode)
  }

  // The way from one directory of a root to a place in it.
  function Shared(a: Path, b: Path): (n: nat)
    ensures n <= |a| && n <= |b| && a[..n] == b[..n]
  {
    if a == [] || b == [] || a[0] != b[0] then 0 else 1 + Shared(a[1..], b[1..])
  }

  function Ups(n: nat): seq<Step> {
    seq(n, _ => Up)
  }

  function RelativeSteps(from: Path, to: Path): seq<Step> {
    Ups(|from| - Shared(from, to)) + Names(to[Shared(from, to)..])
  }

  // ---- What a copy must be ------------------------------------------------------------------

  // A complete list of entries: with each entry the directories above it.
  ghost predicate TreeShaped(entries: seq<Entry>) {
    && InOrder(entries) && HasDirectory(entries, [])
    && forall e, k :: e in entries && 0 <= k < |e.path| ==> HasDirectory(entries, e.path[..k])
  }

  // How entries become nodes; directories get their modes last.
  type Image = Entry -> Node

  ghost predicate KeepsModes(copy: Image) {
    forall e: Entry :: e.kind.Directory? ==> copy(e) == Dir(e.kind.mode)
  }

  function Draft(copy: Image, e: Entry): Node {
    if e.kind.Directory? then Dir(NEW_DIRECTORY) else copy(e)
  }

  // The exact image of the entries.
  ghost predicate Copied(copy: Image, entries: seq<Entry>, tree: World) {
    && (forall e :: e in entries ==> e.path in tree && tree[e.path] == copy(e))
    && (forall p :: p in tree ==> exists e :: e in entries && e.path == p)
  }

  lemma OneEntryPerPath(entries: seq<Entry>, a: Entry, b: Entry)
    requires StrictlySorted(ByText, entries) && a in entries && b in entries && a.path == b.path
    ensures a == b
  {
    PathsDiffer(entries);
  }

  // ---- Creating the entries --------------------------------------------------------------------

  ghost predicate Drafted(copy: Image, entries: seq<Entry>, tree: World) {
    && [] in tree && tree[[]] == Dir(NEW_DIRECTORY)
    && (forall e :: e in entries ==> e.path in tree && tree[e.path] == Draft(copy, e))
    && (forall p :: p in tree && p != [] ==> exists e :: e in entries && e.path == p)
  }

  lemma EarlierIndex(entries: seq<Entry>, a: Entry, k: nat)
    requires StrictlySorted(ByText, entries) && a in entries && k < |entries| && ByText(a, entries[k])
    ensures a in entries[..k]
  {
    var i :| 0 <= i < |entries| && entries[i] == a;
    LessTotal(TextOf(a.path), TextOf(entries[k].path));
    assert i > k ==> ByText(entries[k], entries[i]);
    assert entries[..k][i] == a;
  }

  lemma AncestorDrafted(copy: Image, entries: seq<Entry>, k: nat, tree: World, j: nat)
    requires TreeShaped(entries) && k < |entries| && Drafted(copy, entries[..k], tree) && j < |entries[k].path|
    ensures entries[k].path[..j] in tree && tree[entries[k].path[..j]] == Dir(NEW_DIRECTORY)
  {
    if j > 0 {
      var e := entries[k];
      assert e in entries && HasDirectory(entries, e.path[..j]);
      var a :| a in entries && a.path == e.path[..j] && a.kind.Directory?;
      AncestorFirst(a.path, e.path);
      EarlierIndex(entries, a, k);
    }
  }

  lemma NewDirectoriesAreOpen(privileged: bool, tree: World, p: Path)
    requires p != [] && p !in tree
    requires forall j :: 0 <= j < |p| ==> p[..j] in tree && tree[p[..j]] == Dir(NEW_DIRECTORY)
    ensures Creatable(privileged, tree, p)
  {
    assert OwnerSearches(NEW_DIRECTORY) && OwnerWrites(NEW_DIRECTORY);
  }

  // In the order of the texts a parent is created before its children, and
  // nothing is created twice.
  lemma NextIsCreatable(copy: Image, entries: seq<Entry>, k: nat, tree: World, privileged: bool)
    requires TreeShaped(entries) && k < |entries| && Drafted(copy, entries[..k], tree) && entries[k].path != []
    ensures Creatable(privileged, tree, entries[k].path)
  {
    var p := entries[k].path;
    PathsDiffer(entries);
    forall j | 0 <= j < |p| ensures p[..j] in tree && tree[p[..j]] == Dir(NEW_DIRECTORY) {
      AncestorDrafted(copy, entries, k, tree, j);
    }
    NewDirectoriesAreOpen(privileged, tree, p);
  }

  lemma DraftStep(copy: Image, entries: seq<Entry>, k: nat, tree: World)
    requires TreeShaped(entries) && k < |entries| && Drafted(copy, entries[..k], tree)
    ensures var e := entries[k];
      && (e.path == [] ==> e.kind.Directory?)
      && Drafted(copy, entries[..k + 1], if e.path == [] then tree else tree[e.path := Draft(copy, e)])
  {
    var e := entries[k];
    assert entries[..k + 1] == entries[..k] + [e];
    assert e in entries && e in entries[..k + 1];
    PathsDiffer(entries);
    if e.path == [] {
      var r :| r in entries && r.path == [] && r.kind.Directory?;
      OneEntryPerPath(entries, e, r);
      DraftRoot(copy, entries[..k], e, tree);
    } else {
      forall f | f in entries[..k] ensures f.path != e.path {
        var i :| 0 <= i < k && entries[..k][i] == f;
        assert entries[i] == f;
      }
      DraftMore(copy, entries[..k], e, tree);
    }
  }

  lemma DraftRoot(copy: Image, entries: seq<Entry>, e: Entry, tree: World)
    requires Drafted(copy, entries, tree) && e.path == [] && e.kind.Directory?
    ensures Drafted(copy, entries + [e], tree)
  {
    forall p | p in tree && p != [] ensures exists f :: f in entries + [e] && f.path == p {
      var f :| f in entries && f.path == p;
      assert f in entries + [e];
    }
  }

  lemma DraftMore(copy: Image, entries: seq<Entry>, e: Entry, tree: World)
    requires Drafted(copy, entries, tree) && e.path != [] && forall f :: f in entries ==> f.path != e.path
    ensures Drafted(copy, entries + [e], tree[e.path := Draft(copy, e)])
  {
    var after := tree[e.path := Draft(copy, e)];
    forall p | p in after && p != [] ensures exists f :: f in entries + [e] && f.path == p {
      if p == e.path {
        assert e in entries + [e];
      } else {
        var f :| f in entries && f.path == p;
        assert f in entries + [e];
      }
    }
  }

  // ---- Finishing: the modes of the directories ---------------------------------------------

  // The directories in the order of their chmod: by falling length, ties in any order.
  ghost predicate Arrangement(entries: seq<Entry>, directories: seq<Entry>) {
    && Distinct(directories) && (forall e :: e in directories <==> e in entries && e.kind.Directory?)
    && forall i, j :: 0 <= i < j < |directories| ==> |TextOf(directories[i].path)| >= |TextOf(directories[j].path)|
  }

  ghost predicate Finishing(copy: Image, entries: seq<Entry>, done: seq<Entry>, tree: World) {
    && (forall e :: e in entries ==> e.path in tree && tree[e.path] == if e in done then copy(e) else Draft(copy, e))
    && (forall p :: p in tree ==> exists e :: e in entries && e.path == p)
  }

  lemma DraftedIsFinishing(copy: Image, entries: seq<Entry>, tree: World)
    requires Drafted(copy, entries, tree) && HasDirectory(entries, [])
    ensures Finishing(copy, entries, [], tree)
  {
  }

  lemma FinishingIsCopied(copy: Image, entries: seq<Entry>, directories: seq<Entry>, tree: World)
    requires Finishing(copy, entries, directories, tree) && Arrangement(entries, directories)
    ensures Copied(copy, entries, tree)
  {
  }

  // The root has already got a mode that forbids to reach anything below it.
  ghost predicate RootBlocks(privileged: bool, done: seq<Entry>) {
    !privileged && exists r :: r in done && r.path == [] && r.kind.Directory? && !OwnerSearches(r.kind.mode)
  }

  // None of the first n directories below the root meets a root that blocks it.
  ghost predicate Unblocked(privileged: bool, directories: seq<Entry>, n: nat) {
    forall k :: 0 <= k < n <= |directories| && directories[k].path != [] ==> !RootBlocks(privileged, directories[..k])
  }

  // What a caller can see in the manifest: the owner of the copy may search its
  // root, or no other directory is as short as the root's dot.
  ghost predicate SafeModes(privileged: bool, entries: seq<Entry>) {
    || privileged
    || (exists r :: r in entries && r.path == [] && r.kind.Directory? && OwnerSearches(r.kind.mode))
    || !(exists d :: OneLetterDirectory(entries, d))
  }

  ghost predicate OneLetterDirectory(entries: seq<Entry>, d: Entry) {
    d in entries && d.kind.Directory? && d.path != [] && |TextOf(d.path)| == 1
  }

  lemma TextNotEmpty(p: Path)
    requires ValidRootPath(p)
    ensures |TextOf(p)| >= 1
  {
    if p != [] { JoinIsNotDot(p); }
  }

  // No arrangement of safe entries is blocked.
  lemma SafeIsUnblocked(privileged: bool, entries: seq<Entry>, directories: seq<Entry>)
    requires TreeShaped(entries) && Arrangement(entries, directories) && SafeModes(privileged, entries)
    ensures Unblocked(privileged, directories, |directories|)
  {
    forall k | 0 <= k < |directories| && directories[k].path != [] ensures !RootBlocks(privileged, directories[..k]) {
      forall r | r in directories[..k] && r.path == [] && r.kind.Directory? ensures privileged || OwnerSearches(r.kind.mode) {
        SafeInTurn(privileged, entries, directories, k, r);
      }
    }
  }

  lemma SafeInTurn(privileged: bool, entries: seq<Entry>, directories: seq<Entry>, k: nat, r: Entry)
    requires TreeShaped(entries) && Arrangement(entries, directories) && SafeModes(privileged, entries)
    requires k < |directories| && directories[k].path != [] && r in directories[..k] && r.path == [] && r.kind.Directory?
    ensures privileged || OwnerSearches(r.kind.mode)
  {
    var d := directories[k];
    assert r in directories && d in directories;
    var i :| 0 <= i < k && directories[..k][i] == r;
    assert directories[i] == r && |TextOf(r.path)| == 1;
    assert ValidEntry(d);
    TextNotEmpty(d.path);
    assert OneLetterDirectory(entries, d);
    if q :| q in entries && q.path == [] && q.kind.Directory? && OwnerSearches(q.kind.mode) {
      OneEntryPerPath(entries, q, r);
    }
  }

  // Longer texts first, and the root before others of its length.
  predicate RootEarly(a: Entry, b: Entry) {
    |TextOf(a.path)| > |TextOf(b.path)| || (|TextOf(a.path)| == |TextOf(b.path)| && a.path == [] && b.path != [])
  }

  function DirectoriesOf(entries: seq<Entry>): seq<Entry> {
    if entries == [] then []
    else (if entries[0].kind.Directory? then [entries[0]] else []) + DirectoriesOf(entries[1..])
  }

  lemma {:induction false} DirectoriesAre(entries: seq<Entry>)
    ensures forall e :: e in DirectoriesOf(entries) <==> e in entries && e.kind.Directory?
    ensures Distinct(entries) ==> Distinct(DirectoriesOf(entries))
  {
    if entries != [] {
      DirectoriesAre(entries[1..]);
      assert entries == [entries[0]] + entries[1..];
      assert Distinct(entries) ==> Distinct(entries[1..]) && entries[0] !in entries[1..];
    }
  }

  // Among unsafe entries some arrangement is blocked: that with the root first.
  lemma UnsafeIsBlocked(privileged: bool, entries: seq<Entry>) returns (directories: seq<Entry>)
    requires TreeShaped(entries) && !SafeModes(privileged, entries)
    ensures Arrangement(entries, directories) && !Unblocked(privileged, directories, |directories|)
  {
    PathsDiffer(entries);
    DirectoriesAre(entries);
    directories := Sort(RootEarly, DirectoriesOf(entries));
    PermutationKeeps(directories, DirectoriesOf(entries));
    DistinctPermutation(directories, DirectoriesOf(entries));
    var r :| r in entries && r.path == [] && r.kind.Directory?;
    var d :| OneLetterDirectory(entries, d);
    RootGoesFirst(directories, r, d);
    var k :| 0 <= k < |directories| && directories[k] == d && r in directories[..k];
    assert RootBlocks(privileged, directories[..k]);
  }

  lemma RootGoesFirst(directories: seq<Entry>, r: Entry, d: Entry)
    requires Sorted(RootEarly, directories) && r in directories && d in directories
    requires r.path == [] && d.path != [] && |TextOf(d.path)| == 1
    ensures exists k :: 0 <= k < |directories| && directories[k] == d && r in directories[..k]
  {
    var i :| 0 <= i < |directories| && directories[i] == r;
    var k :| 0 <= k < |directories| && directories[k] == d;
    assert RootEarly(r, d);
    assert i < k;
    assert directories[..k][i] == r;
  }

  // Every arrangement succeeds exactly when the entries are safe.
  lemma UnblockedIffSafe(privileged: bool, entries: seq<Entry>)
    requires TreeShaped(entries)
    ensures SafeModes(privileged, entries) <==>
      forall directories :: Arrangement(entries, directories) ==> Unblocked(privileged, directories, |directories|)
  {
    if SafeModes(privileged, entries) {
      forall directories | Arrangement(entries, directories) ensures Unblocked(privileged, directories, |directories|) {
        SafeIsUnblocked(privileged, entries, directories);
      }
    } else {
      var directories := UnsafeIsBlocked(privileged, entries);
    }
  }

  lemma LaterInTurn(copy: Image, entries: seq<Entry>, directories: seq<Entry>, k: nat, tree: World, j: nat)
    requires TreeShaped(entries) && Arrangement(entries, directories) && k < |directories|
    requires Finishing(copy, entries, directories[..k], tree) && 0 < j < |directories[k].path|
    ensures directories[k].path[..j] in tree && tree[directories[k].path[..j]] == Dir(NEW_DIRECTORY)
  {
    var e := directories[k];
    assert e in directories && HasDirectory(entries, e.path[..j]);
    var a :| a in entries && a.path == e.path[..j] && a.kind.Directory?;
    AncestorFirst(a.path, e.path);
    forall i | 0 <= i < k ensures directories[i] != a {
      assert |TextOf(directories[i].path)| >= |TextOf(e.path)|;
    }
    assert a !in directories[..k];
  }

  lemma RootInTurn(copy: Image, entries: seq<Entry>, done: seq<Entry>, tree: World, privileged: bool)
    requires TreeShaped(entries) && KeepsModes(copy) && Finishing(copy, entries, done, tree)
    requires forall e :: e in done ==> e in entries
    ensures [] in tree && tree[[]].Dir?
    ensures privileged || OwnerSearches(tree[[]].mode) <==> !RootBlocks(privileged, done)
  {
    var r :| r in entries && r.path == [] && r.kind.Directory?;
    forall e | e in done && e.path == [] ensures e == r {
      OneEntryPerPath(entries, e, r);
    }
    assert OwnerSearches(NEW_DIRECTORY);
  }

  // A directory is reachable when its turn comes unless the root blocks it.
  lemma ReachableInTurn(copy: Image, entries: seq<Entry>, directories: seq<Entry>, k: nat, tree: World, privileged: bool)
    requires TreeShaped(entries) && KeepsModes(copy) && Arrangement(entries, directories) && k < |directories|
    requires Finishing(copy, entries, directories[..k], tree) && directories[k].path != []
    ensures Searchable(privileged, tree, directories[k].path) <==> !RootBlocks(privileged, directories[..k])
  {
    var p := directories[k].path;
    forall j | 0 < j < |p| ensures p[..j] in tree && tree[p[..j]] == Dir(NEW_DIRECTORY) {
      LaterInTurn(copy, entries, directories, k, tree, j);
    }
    RootInTurn(copy, entries, directories[..k], tree, privileged);
    SearchableByRoot(privileged, tree, p);
  }

  lemma SearchableByRoot(privileged: bool, tree: World, p: Path)
    requires p != [] && [] in tree && tree[[]].Dir?
    requires forall j :: 0 < j < |p| ==> p[..j] in tree && tree[p[..j]] == Dir(NEW_DIRECTORY)
    ensures Searchable(privileged, tree, p) <==> privileged || OwnerSearches(tree[[]].mode)
  {
    assert OwnerSearches(NEW_DIRECTORY);
    assert p[..0] == [];
  }

  lemma FinishStep(copy: Image, entries: seq<Entry>, directories: seq<Entry>, k: nat, tree: World)
    requires TreeShaped(entries) && KeepsModes(copy) && Arrangement(entries, directories) && k < |directories|
    requires Finishing(copy, entries, directories[..k], tree)
    ensures var e := directories[k];
      && e.path in tree && e.kind.Directory? && tree[e.path] == Dir(NEW_DIRECTORY)
      && Finishing(copy, entries, directories[..k + 1], tree[e.path := Dir(e.kind.mode)])
  {
    NextDirectory(entries, directories, k);
    FinishOne(copy, entries, directories[..k], directories[k], tree);
  }

  lemma NextDirectory(entries: seq<Entry>, directories: seq<Entry>, k: nat)
    requires Arrangement(entries, directories) && k < |directories|
    ensures directories[k] in entries && directories[k].kind.Directory? && directories[k] !in directories[..k]
    ensures directories[..k + 1] == directories[..k] + [directories[k]]
  {
    assert directories[k] in directories;
  }

  lemma FinishOne(copy: Image, entries: seq<Entry>, done: seq<Entry>, e: Entry, tree: World)
    requires StrictlySorted(ByText, entries) && KeepsModes(copy) && Finishing(copy, entries, done, tree)
    requires e in entries && e.kind.Directory? && e !in done
    ensures e.path in tree && tree[e.path] == Draft(copy, e)
    ensures Finishing(copy, entries, done + [e], tree[e.path := Dir(e.kind.mode)])
  {
    forall f | f in entries && f.path == e.path ensures f == e {
      OneEntryPerPath(entries, e, f);
    }
    var after := tree[e.path := Dir(e.kind.mode)];
    forall f | f in entries
      ensures f.path in after && after[f.path] == if f in done + [e] then copy(f) else Draft(copy, f)
    {
      assert f in done + [e] <==> f in done || f == e;
    }
  }

  // ---- The copy of an inspected source ----------------------------------------------------------

  // The source did not change since its entries were recorded.
  ghost predicate Source(w: World, root: Path, sha: Content -> string, entries: seq<Entry>) {
    && WellFormed(w) && root in w && w[root].Dir?
    && InOrder(entries) && Records(w, root, sha, entries)
  }

  function ContentAt(w: World, p: Path): Content {
    if p in w && w[p].File? then w[p].content else []
  }

  function CopyOf(w: World, root: Path, e: Entry): Node {
    match e.kind
    case Directory(mode) => Dir(mode)
    case Regular(mode, _, _) => File(mode, ContentAt(w, root + e.path))
    case Symlink(target) => Link(false, RelativeSteps(if e.path == [] then [] else Parent(e.path), target))
  }

  ghost function ImageOf(w: World, root: Path): Image {
    e => CopyOf(w, root, e)
  }

  lemma SourceKinds(w: World, root: Path, sha: Content -> string, entries: seq<Entry>, e: Entry)
    requires Source(w, root, sha, entries) && e in entries
    ensures root + e.path in w
    ensures e.kind.Directory? <==> w[root + e.path].Dir?
    ensures e.kind.Regular? <==> w[root + e.path].File?
    ensures e.kind.Symlink? <==> w[root + e.path].Link?
    ensures e.kind.Regular? ==>
      var f := w[root + e.path]; e.kind == Regular(f.mode, |f.content|, sha(f.content))
    ensures e.kind.Symlink? ==> NormalizedSymlinkTarget(w, root, root + e.path) == Some(e.kind.target)
  {
    assert RecordOf(w, root, e.path, sha) == Some(e);
  }

  lemma EntryAt(w: World, root: Path, sha: Content -> string, entries: seq<Entry>, relative: Path) returns (e: Entry)
    requires Source(w, root, sha, entries) && root + relative in w
    ensures e in entries && e.path == relative
  {
    assert root <= root + relative;
    e :| e in entries && root + e.path == root + relative;
    assert e.path == (root + e.path)[|root|..] == (root + relative)[|root|..] == relative;
  }

  lemma DirectoryAt(w: World, root: Path, sha: Content -> string, entries: seq<Entry>, relative: Path)
    requires Source(w, root, sha, entries) && root + relative in w && w[root + relative].Dir?
    ensures HasDirectory(entries, relative)
  {
    var e := EntryAt(w, root, sha, entries, relative);
    SourceKinds(w, root, sha, entries, e);
  }

  lemma SourceIsTreeShaped(w: World, root: Path, sha: Content -> string, entries: seq<Entry>)
    requires Source(w, root, sha, entries)
    ensures TreeShaped(entries)
  {
    assert root + [] == root;
    DirectoryAt(w, root, sha, entries, []);
    forall e, k | e in entries && 0 <= k < |e.path| ensures HasDirectory(entries, e.path[..k]) {
      AncestorRecorded(w, root, sha, entries, e, k);
    }
  }

  lemma AncestorRecorded(w: World, root: Path, sha: Content -> string, entries: seq<Entry>, e: Entry, k: nat)
    requires Source(w, root, sha, entries) && e in entries && k < |e.path|
    ensures HasDirectory(entries, e.path[..k])
  {
    SourceKinds(w, root, sha, entries, e);
    AncestorBelow(w, root, e.path, k);
    DirectoryAt(w, root, sha, entries, e.path[..k]);
  }

  lemma AncestorBelow(w: World, root: Path, relative: Path, k: nat)
    requires WellFormed(w) && root + relative in w && k < |relative|
    ensures root + relative[..k] in w && w[root + relative[..k]].Dir?
  {
    AncestorsAreDirectories(w, root + relative, |root| + k);
    assert (root + relative)[..|root| + k] == root + relative[..k];
  }

  class TargetRoot {
    const privileged: bool
    // Everything at and below the target root, by relative path.
    var tree: World

    constructor (privileged: bool)
      ensures this.privileged == privileged && tree == map[]
    {
      this.privileged, tree := privileged, map[];
    }

    // Mkdir, exclusive creation of a file, Symlink.
    method Create(p: Path, node: Node) returns (ok: bool)
      modifies this
      ensures ok <==> Creatable(privileged, old(tree), p)
      ensures tree == if ok then old(tree)[p := node] else old(tree)
    {
      ok := Creatable(privileged, tree, p);
      if ok {
        tree := tree[p := node];
      }
    }

    method Chmod(p: Path, mode: nat) returns (ok: bool)
      modifies this
      ensures ok <==> p in old(tree) && Searchable(privileged, old(tree), p)
      ensures tree == if ok then old(tree)[p := WithMode(old(tree)[p], mode)] else old(tree)
    {
      ok := p in tree && Searchable(privileged, tree, p);
      if ok {
        tree := tree[p := WithMode(tree[p], mode)];
      }
    }

    method CopyRootFile(w: World, source: Path, expected: Entry, sha: Content -> string) returns (ok: bool)
      requires expected.kind.Regular?
      modifies this
      ensures ok <==>
        && source in w && w[source].File? && expected.kind == Regular(w[source].mode, |w[source].content|, sha(w[source].content))
        && Creatable(privileged, old(tree), expected.path)
      ensures ok ==> tree == old(tree)[expected.path := w[source]]
    {
      if source !in w || !w[source].File? || w[source].mode != expected.kind.mode || |w[source].content| != expected.kind.size {
        return false;
      }
      var content := w[source].content;
      ok := Create(expected.path, File(NEW_FILE, content));
      if !ok {
        return;
      }
      if |content| != expected.kind.size || sha(content) != expected.kind.digest {
        return false;
      }
      assert Searchable(privileged, tree, expected.path);
      ok := Chmod(expected.path, expected.kind.mode);
    }

    method CopyEntry(w: World, root: Path, e: Entry, sha: Content -> string, ghost entries: seq<Entry>) returns (ok: bool)
      requires Source(w, root, sha, entries) && e in entries && e.path != [] && Creatable(privileged, tree, e.path)
      modifies this
      ensures ok && tree == old(tree)[e.path := Draft(ImageOf(w, root), e)]
    {
      SourceKinds(w, root, sha, entries, e);
      match e.kind
      case Directory(_) =>
        ok := Create(e.path, Dir(NEW_DIRECTORY));
      case Regular(_, _, _) =>
        ok := CopyRootFile(w, root + e.path, e, sha);
      case Symlink(target) =>
        var actual := NormalizedSymlinkTarget(w, root, root + e.path);
        if actual != Some(target) {
          return false;
        }
        ok := Create(e.path, Link(false, RelativeSteps(Parent(e.path), target)));
    }

    // Copies an unchanged source. `directories` is what the unstable sort by
    // falling length makes of the directories.
    method CopyRootSnapshot(w: World, root: Path, sha: Content -> string, entries: seq<Entry>, directories: seq<Entry>) returns (ok: bool)
      requires Source(w, root, sha, entries) && Arrangement(entries, directories) && tree == map[]
      modifies this
      ensures ok ==> Copied(ImageOf(w, root), entries, tree)
      // Creation is never blocked; a chmod is only when the root's own mode locks
      // its owner out and some directory has its turn after it.
      ensures ok <==> Unblocked(privileged, directories, |directories|)
      ensures SafeModes(privileged, entries) ==> ok
    {
      ghost var copy := ImageOf(w, root);
      SourceIsTreeShaped(w, root, sha, entries);
      if SafeModes(privileged, entries) {
        SafeIsUnblocked(privileged, entries, directories);
      }
      ok := Create([], Dir(NEW_DIRECTORY));
      if !ok {
        return;
      }
      for k := 0 to |entries|
        invariant Drafted(copy, entries[..k], tree)
      {
        DraftStep(copy, entries, k, tree);
        if entries[k].path != [] {
          NextIsCreatable(copy, entries, k, tree, privileged);
          ok := CopyEntry(w, root, entries[k], sha, entries);
          if !ok {
            return;
          }
        }
      }
      assert entries[..|entries|] == entries;
      DraftedIsFinishing(copy, entries, tree);
      ok := ChmodDirectories(copy, entries, directories);
    }

    method ChmodDirectories(ghost copy: Image, ghost entries: seq<Entry>, directories: seq<Entry>) returns (ok: bool)
      requires TreeShaped(entries) && KeepsModes(copy) && Arrangement(entries, directories) && Finishing(copy, entries, [], tree)
      modifies this
      ensures ok ==> Copied(copy, entries, tree)
      ensures ok <==> Unblocked(privileged, directories, |directories|)
    {
      for k := 0 to |directories|
        invariant Finishing(copy, entries, directories[..k], tree) && Unblocked(privileged, directories, k)
      {
        ok := ChmodDirectory(copy, entries, directories, k);
        if !ok {
          return;
        }
      }
      assert directories[..|directories|] == directories;
      FinishingIsCopied(copy, entries, directories, tree);
      return true;
    }

    method ChmodDirectory(ghost copy: Image, ghost entries: seq<Entry>, directories: seq<Entry>, k: nat) returns (ok: bool)
      requires TreeShaped(entries) && KeepsModes(copy) && Arrangement(entries, directories) && k < |directories|
      requires Finishing(copy, entries, directories[..k], tree)
      modifies this
      ensures ok ==> Finishing(copy, entries, directories[..k + 1], tree)
      ensures ok <==> directories[k].path == [] || !RootBlocks(privileged, directories[..k])
    {
      var e := directories[k];
      FinishStep(copy, entries, directories, k, tree);
      if e.path != [] {
        ReachableInTurn(copy, entries, directories, k, tree, privileged);
      }
      ok := Chmod(e.path, e.kind.mode);
    }
  }

  // ---- Inspecting the copy ------------------------------------------------------------------------

  // The tree stands at the place `top` of a file tree.
  ghost predicate Holds(v: World, top: Path, tree: World) {
    && WellFormed(v) && top in v && v[top].Dir?
    && (forall p :: p in tree ==> top + p in v && v[top + p] == tree[p])
    && (forall p :: p in v && top <= p ==> p[|top|..] in tree)
  }

  lemma {:induction false} EvalUps(v: World, at: Path, n: nat, rest: seq<Step>, links: nat)
    requires n <= |at|
    ensures Eval(v, at, Ups(n) + rest, links) == Eval(v, at[..|at| - n], rest, links)
    decreases n
  {
    var pending := Ups(n) + rest;
    if n == 0 {
      assert pending == rest && at[..|at|] == at;
    } else {
      assert pending[0] == Up && pending[1..] == Ups(n - 1) + rest;
      assert Parent(at)[..|at| - 1 - (n - 1)] == at[..|at| - n];
      EvalUps(v, Parent(at), n - 1, rest, links);
    }
  }

  lemma ParentSlices(p: Path, k: nat)
    requires k < |p|
    ensures Parent(p) + [p[|p| - 1]] == p && forall i :: 0 <= i < |p| ==> Parent(p)[..i] == p[..i]
    ensures Names(p[k..]) == Names(Parent(p)[k..]) + [Name(p[|p| - 1])]
  {
  }

  lemma ParentWalks(v: World, p: Path, k: nat, links: nat)
    requires WellFormed(v) && k < |p| && p in v
    ensures Eval(v, p[..k], Names(p[k..]), links) == Eval(v, Parent(p), [Name(p[|p| - 1])], links)
  {
    ParentSlices(p, k);
    forall i | k < i <= |Parent(p)| ensures Parent(p)[..i] in v && v[Parent(p)[..i]].Dir? {
      AncestorsAreDirectories(v, p, i);
    }
    EvalWalksDirectories(v, Parent(p), k, [Name(p[|p| - 1])], links);
  }

  // Down a path that ends at something other than a link.
  lemma EvalDown(v: World, p: Path, k: nat, links: nat)
    requires WellFormed(v) && k <= |p| && Physical(v, p)
    ensures Eval(v, p[..k], Names(p[k..]), links) == Some(p)
  {
    if k == |p| {
      assert p[..k] == p && Names(p[k..]) == [];
    } else {
      ParentWalks(v, p, k, links);
      ParentSlices(p, k);
      EvalLast(v, Parent(p), p[|p| - 1], links);
    }
  }

  lemma EvalLast(v: World, at: Path, last: string, links: nat)
    requires Physical(v, at + [last])
    ensures Eval(v, at, [Name(last)], links) == Some(at + [last])
  {
    assert [Name(last)][1..] == [];
  }

  lemma SharedSlices(top: Path, from: Path, to: Path, c: nat)
    requires c <= |from| && c <= |to| && from[..c] == to[..c]
    ensures (top + from)[..|top| + c] == (top + to)[..|top| + c]
    ensures (top + to)[|top| + c..] == to[c..]
  {
    assert (top + from)[..|top| + c] == top + from[..c];
    assert (top + to)[..|top| + c] == top + to[..c];
  }

  // Up to a common directory, and down from there.
  lemma EvalUpAndDown(v: World, at: Path, goal: Path, k: nat, steps: seq<Step>, links: nat)
    requires WellFormed(v) && Physical(v, goal) && k <= |at| && k <= |goal| && at[..k] == goal[..k]
    requires steps == Ups(|at| - k) + Names(goal[k..])
    ensures Eval(v, at, steps, links) == Some(goal)
  {
    EvalUps(v, at, |at| - k, Names(goal[k..]), links);
    EvalDown(v, goal, k, links);
  }

  lemma StepsFromBelow(top: Path, from: Path, to: Path) returns (k: nat)
    ensures k <= |top + from| && k <= |top + to| && (top + from)[..k] == (top + to)[..k]
    ensures RelativeSteps(from, to) == Ups(|top + from| - k) + Names((top + to)[k..])
  {
    k := |top| + Shared(from, to);
    SharedSlices(top, from, to, Shared(from, to));
  }

  lemma RelativeStepsLead(v: World, top: Path, from: Path, to: Path, links: nat)
    requires WellFormed(v) && Physical(v, top + to)
    ensures Eval(v, top + from, RelativeSteps(from, to), links) == Some(top + to)
  {
    var k := StepsFromBelow(top, from, to);
    EvalUpAndDown(v, top + from, top + to, k, RelativeSteps(from, to), links);
  }

  // A place is reached through its directory.
  lemma EvalThroughParent(v: World, p: Path)
    requires WellFormed(v) && p in v && p != []
    ensures Eval(v, [], Names(p), 0) == Eval(v, Parent(p), [Name(p[|p| - 1])], 0)
  {
    ParentWalks(v, p, 0, 0);
    assert p[..0] == [] && p[0..] == p;
  }

  lemma EvalLink(v: World, at: Path, last: string, steps: seq<Step>)
    requires at + [last] in v && v[at + [last]] == Link(false, steps)
    ensures Eval(v, at, [Name(last)], 0) == Eval(v, at, steps, 1)
  {
    assert steps + [Name(last)][1..] == steps;
  }

  // A link of the copy leads to the image of what the source's link led to.
  lemma LinkLeads(v: World, top: Path, link: Path, target: Path)
    requires WellFormed(v) && link != [] && top + link in v && Physical(v, top + target)
    requires v[top + link] == Link(false, RelativeSteps(Parent(link), target))
    ensures NormalizedSymlinkTarget(v, top, top + link) == Some(target)
  {
    var p, at, last := top + link, top + Parent(link), link[|link| - 1];
    assert Parent(p) == at && p[|p| - 1] == last && at + [last] == p;
    EvalThroughParent(v, p);
    EvalLink(v, at, last, RelativeSteps(Parent(link), target));
    RelativeStepsLead(v, top, Parent(link), target, 1);
    TargetBelow(v, top, p, target);
  }

  lemma TargetBelow(v: World, top: Path, p: Path, target: Path)
    requires Eval(v, [], Names(p), 0) == Some(top + target)
    ensures NormalizedSymlinkTarget(v, top, p) == Some(target)
  {
    assert (top + target)[|top|..] == target;
  }

  // What the source's links lead to has an entry, and that is no link.
  lemma TargetEntry(w: World, root: Path, sha: Content -> string, entries: seq<Entry>, e: Entry) returns (t: Entry)
    requires Source(w, root, sha, entries) && e in entries && e.kind.Symlink?
    ensures t in entries && t.path == e.kind.target && !t.kind.Symlink?
  {
    SourceKinds(w, root, sha, entries, e);
    var p := root + e.path;
    EvalIsPhysical(w, [], Names(p), 0);
    var place := Eval(w, [], Names(p), 0).value;
    assert root + place[|root|..] == place;
    t := EntryAt(w, root, sha, entries, e.kind.target);
    SourceKinds(w, root, sha, entries, t);
  }

  lemma CopyHolds(copy: Image, entries: seq<Entry>, tree: World, v: World, top: Path, e: Entry)
    requires Copied(copy, entries, tree) && Holds(v, top, tree) && e in entries
    ensures top + e.path in v && v[top + e.path] == copy(e)
    ensures WellFormed(v) && (e.path == [] ==> copy(e).Dir?)
  {
    assert top + [] == top;
  }

  lemma LinkSurvives(w: World, root: Path, v: World, top: Path, e: Entry, t: Entry)
    requires WellFormed(v) && e.kind.Symlink? && e.path != [] && t.path == e.kind.target && !t.kind.Symlink?
    requires top + e.path in v && v[top + e.path] == CopyOf(w, root, e)
    requires top + t.path in v && v[top + t.path] == CopyOf(w, root, t)
    ensures NormalizedSymlinkTarget(v, top, top + e.path) == Some(e.kind.target)
  {
    LinkLeads(v, top, e.path, e.kind.target);
  }

  lemma RecordSurvives(w: World, root: Path, sha: Content -> string, entries: seq<Entry>, tree: World, v: World, top: Path, e: Entry)
    requires Source(w, root, sha, entries) && Copied(ImageOf(w, root), entries, tree) && Holds(v, top, tree) && e in entries
    ensures RecordOf(v, top, e.path, sha) == Some(e)
  {
    var copy := ImageOf(w, root);
    assert ValidEntry(e);
    CopyHolds(copy, entries, tree, v, top, e);
    assert copy(e) == CopyOf(w, root, e);
    if e.kind.Symlink? {
      var t := TargetEntry(w, root, sha, entries, e);
      CopyHolds(copy, entries, tree, v, top, t);
      LinkSurvives(w, root, v, top, e, t);
    } else {
      SourceKinds(w, root, sha, entries, e);
    }
    RecordByKind(v, top, e, sha);
  }

  // A node of an entry's kind gives the entry.
  lemma RecordByKind(v: World, top: Path, e: Entry, sha: Content -> string)
    requires ValidEntry(e) && top + e.path in v
    requires var node := v[top + e.path];
      match e.kind
      case Directory(mode) => node == Dir(mode)
      case Regular(mode, size, digest) => node.File? && node.mode == mode && |node.content| == size && sha(node.content) == digest
      case Symlink(target) => node.Link? && NormalizedSymlinkTarget(v, top, top + e.path) == Some(target)
    ensures RecordOf(v, top, e.path, sha) == Some(e)
  {
  }

  // The copy's records are those of the source, wherever the copy stands.
  lemma RecordsSurvive(w: World, root: Path, sha: Content -> string, entries: seq<Entry>, tree: World, v: World, top: Path)
    requires Source(w, root, sha, entries) && Copied(ImageOf(w, root), entries, tree) && Holds(v, top, tree)
    ensures Records(v, top, sha, entries)
  {
    forall e | e in entries ensures RecordOf(v, top, e.path, sha) == Some(e) {
      RecordSurvives(w, root, sha, entries, tree, v, top, e);
    }
    forall p | p in v && top <= p ensures exists e :: e in entries && top + e.path == p {
      var e := EntryOfNode(ImageOf(w, root), entries, tree, v, top, p);
    }
  }

  lemma EntryOfNode(copy: Image, entries: seq<Entry>, tree: World, v: World, top: Path, p: Path) returns (e: Entry)
    requires Copied(copy, entries, tree) && Holds(v, top, tree) && p in v && top <= p
    ensures e in entries && top + e.path == p && v[p] == copy(e)
  {
    var q := p[|top|..];
    assert top + q == p && q in tree;
    e :| e in entries && e.path == q;
  }

  ghost predicate HasBelow(entries: seq<Entry>, e: Entry) {
    exists f :: f in entries && e.path < f.path
  }

  ghost predicate HasEntries(v: World, p: Path) {
    exists q :: q in v && p < q
  }

  ghost predicate AllReadable(privileged: bool, copy: Image, entries: seq<Entry>) {
    forall e :: e in entries ==> Readable(privileged, copy(e), HasBelow(entries, e))
  }

  ghost function OwnerOf(privileged: bool): Access {
    (v: World, p: Path) => p in v && Readable(privileged, v[p], HasEntries(v, p))
  }

  lemma SameEntries(copy: Image, entries: seq<Entry>, tree: World, v: World, top: Path, e: Entry)
    requires Copied(copy, entries, tree) && Holds(v, top, tree) && e in entries
    ensures HasEntries(v, top + e.path) <==> HasBelow(entries, e)
  {
    if q :| q in v && top + e.path < q {
      assert top <= q;
      var f := EntryOfNode(copy, entries, tree, v, top, q);
      assert e.path == (top + e.path)[|top|..] && f.path == q[|top|..];
      assert e.path < f.path;
    }
    if f :| f in entries && e.path < f.path {
      CopyHolds(copy, entries, tree, v, top, f);
      assert top + e.path < top + f.path;
    }
  }

  lemma NodesReadable(copy: Image, entries: seq<Entry>, tree: World, v: World, top: Path, privileged: bool)
    requires Copied(copy, entries, tree) && Holds(v, top, tree)
    ensures (forall p :: p in v && top <= p ==> OwnerOf(privileged)(v, p)) <==> AllReadable(privileged, copy, entries)
  {
    forall e | e in entries
      ensures OwnerOf(privileged)(v, top + e.path) <==> Readable(privileged, copy(e), HasBelow(entries, e))
    {
      CopyHolds(copy, entries, tree, v, top, e);
      SameEntries(copy, entries, tree, v, top, e);
    }
    forall p | p in v && top <= p ensures exists e :: e in entries && top + e.path == p {
      var e := EntryOfNode(copy, entries, tree, v, top, p);
    }
    if AllReadable(privileged, copy, entries) {
      forall p | p in v && top <= p ensures OwnerOf(privileged)(v, p) {
        var e :| e in entries && top + e.path == p;
      }
    } else {
      var e :| e in entries && !Readable(privileged, copy(e), HasBelow(entries, e));
      CopyHolds(copy, entries, tree, v, top, e);
      assert top <= top + e.path;
    }
  }

  // Copying and inspecting again gives back the manifest exactly when the owner of
  // the copy can read it; and nothing else can come out.
  lemma CopyIsFaithful(w: World, root: Path, tool: Path, sha: Content -> string, readable: Access, m: Manifest,
    tree: World, v: World, top: Path, privileged: bool)
    requires IsInspection(w, root, tool, sha, readable, m) && WellFormed(w) && root in w && w[root].Dir?
    requires Copied(ImageOf(w, root), m.entries, tree) && Holds(v, top, tree)
    ensures IsInspection(v, top, tool, sha, OwnerOf(privileged), m) <==>
      AllReadable(privileged, ImageOf(w, root), m.entries)
    ensures forall n :: IsInspection(v, top, tool, sha, OwnerOf(privileged), n) ==> n == m
  {
    RecordsSurvive(w, root, sha, m.entries, tree, v, top);
    NodesReadable(ImageOf(w, root), m.entries, tree, v, top, privileged);
    forall n | IsInspection(v, top, tool, sha, OwnerOf(privileged), n) ensures n == m {
      OnlyInspection(v, top, tool, sha, OwnerOf(privileged), m, n);
    }
  }

  // A readable copy was also finished: with a searchable root no chmod is blocked.
  lemma ReadableCopyIsFinished(w: World, root: Path, sha: Content -> string, entries: seq<Entry>, directories: seq<Entry>, privileged: bool)
    requires Source(w, root, sha, entries) && Arrangement(entries, directories)
    requires AllReadable(privileged, ImageOf(w, root), entries)
    ensures Unblocked(privileged, directories, |directories|)
  {
    forall k | 0 <= k < |directories| && directories[k].path != [] ensures !RootBlocks(privileged, directories[..k]) {
      forall r | r in directories[..k] && r.path == [] && r.kind.Directory? ensures privileged || OwnerSearches(r.kind.mode) {
        assert r in directories && directories[k] in directories && r.path < directories[k].path;
        assert Readable(privileged, ImageOf(w, root)(r), HasBelow(entries, r));
      }
    }
  }
}
