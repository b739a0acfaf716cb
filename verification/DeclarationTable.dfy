// The emitted declarations of the target files, with their index maps.
module DeclarationTable {
  import opened Common

  // An output path, of which only the identity matters.
  type Path = nat

  // Owners too have nothing but their identity: each operation says for itself
  // which output path it works on.
  type Owner = nat
  datatype Declared = Declared(owner: Owner, revision: nat, reconstructions: nat)

  ghost predicate OwnedBy(s: seq<Declared>, o: Owner) {
    exists i :: 0 <= i < |s| && s[i].owner == o
  }

  ghost predicate DistinctOwners(s: seq<Declared>) {
    forall i, j :: 0 <= i < j < |s| ==> s[i].owner != s[j].owner
  }

  lemma OwnedByTail(s: seq<Declared>, o: Owner)
    requires s != []
    ensures OwnedBy(s, o) <==> s[0].owner == o || OwnedBy(s[1..], o)
    ensures DistinctOwners(s) ==> !OwnedBy(s[1..], s[0].owner)
  {
    if i :| 0 <= i < |s| && s[i].owner == o {
      assert i > 0 ==> s[1..][i - 1].owner == o;
    }
  }

  // All declarations but those of one owner, in the same order.
  function Others(s: seq<Declared>, o: Owner): seq<Declared> {
    if s == [] then [] else (if s[0].owner == o then [] else [s[0]]) + Others(s[1..], o)
  }

  lemma {:induction false} OthersKeepsAll(s: seq<Declared>, o: Owner)
    requires !OwnedBy(s, o)
    ensures Others(s, o) == s
  {
    if s != [] {
      OwnedByTail(s, o);
      OthersKeepsAll(s[1..], o);
    }
  }

  lemma {:induction false} OthersCutsOut(s: seq<Declared>, i: nat)
    requires DistinctOwners(s) && i < |s|
    ensures Others(s, s[i].owner) == s[..i] + s[i + 1..]
  {
    var o := s[i].owner;
    if i == 0 {
      OwnedByTail(s, o);
      OthersKeepsAll(s[1..], o);
    } else {
      assert s[0].owner != o;
      OthersCutsOut(s[1..], i - 1);
      CutBehindHead(s, i);
    }
  }

  lemma CutBehindHead(s: seq<Declared>, i: nat)
    requires 0 < i < |s|
    ensures [s[0]] + (s[1..][..i - 1] + s[1..][i..]) == s[..i] + s[i + 1..]
    ensures DistinctOwners(s) ==> DistinctOwners(s[1..])
  {
    assert s[..i] == [s[0]] + s[1..][..i - 1];
    assert s[i + 1..] == s[1..][i..];
  }

  // One declaration takes the place of the owner's former one, or goes last.
  function Placed(s: seq<Declared>, d: Declared): (r: seq<Declared>) {
    if s == [] then [d]
    else if s[0].owner == d.owner then [d.(reconstructions := s[0].reconstructions + 1)] + s[1..]
    else [s[0]] + Placed(s[1..], d)
  }

  lemma {:induction false} PlacedAppends(s: seq<Declared>, d: Declared)
    requires !OwnedBy(s, d.owner)
    ensures Placed(s, d) == s + [d]
  {
    if s != [] {
      OwnedByTail(s, d.owner);
      PlacedAppends(s[1..], d);
    }
  }

  lemma {:induction false} PlacedReplaces(s: seq<Declared>, d: Declared, i: nat)
    requires DistinctOwners(s) && i < |s| && s[i].owner == d.owner
    ensures Placed(s, d) == s[i := d.(reconstructions := s[i].reconstructions + 1)]
  {
    if i > 0 {
      assert s[0].owner != d.owner;
      PlacedReplaces(s[1..], d, i - 1);
    }
  }

  ghost predicate Inverse(s: seq<Declared>, index: map<Owner, nat>) {
    && (forall i :: 0 <= i < |s| ==> s[i].owner in index)
    && (forall i :: 0 <= i < |s| ==> index[s[i].owner] == i)
    && (forall o :: o in index ==> index[o] < |s| && s[index[o]].owner == o)
  }

  // The index without o, where entries behind o have moved up as far as position k.
  ghost predicate Shifted(before: map<Owner, nat>, o: Owner, at: nat, k: nat, index: map<Owner, nat>) {
    && index.Keys == before.Keys - {o}
    && forall p :: p in index ==> index[p] == if at < before[p] <= k then before[p] - 1 else before[p]
  }

  lemma ShiftStep(was: seq<Declared>, before: map<Owner, nat>, at: nat, k: nat, index: map<Owner, nat>)
    requires Inverse(was, before) && at <= k < |was| - 1 && Shifted(before, was[at].owner, at, k, index)
    ensures Shifted(before, was[at].owner, at, k + 1, index[was[k + 1].owner := k])
  {
    assert before[was[k + 1].owner] == k + 1;
    forall p | p in index && p != was[k + 1].owner ensures before[p] != k + 1 {
      assert was[before[p]].owner == p;
    }
  }

  lemma ShiftedIsInverse(was: seq<Declared>, before: map<Owner, nat>, at: nat, s: seq<Declared>, index: map<Owner, nat>)
    requires Inverse(was, before) && at < |was| && s == was[..at] + was[at + 1..]
    requires Shifted(before, was[at].owner, at, |s|, index)
    ensures Inverse(s, index)
  {
    forall i | 0 <= i < |s| ensures s[i].owner in index && index[s[i].owner] == i {
      assert s[i] == if i < at then was[i] else was[i + 1];
    }
    forall o | o in index ensures index[o] < |s| && s[index[o]].owner == o {
      assert before[o] != at;
      assert was[before[o]].owner == o;
    }
  }

  class FileBuilder {
    var declarations: seq<Declared>
    var byOwner: set<Owner>
    var indexByOwner: map<Owner, nat>

    constructor ()
      ensures Valid() && declarations == []
    {
      declarations, byOwner, indexByOwner := [], {}, map[];
    }

    // The index is the exact inverse of the list, and byOwner its key set.
    ghost predicate Valid()
      reads this
    {
      byOwner == indexByOwner.Keys && Inverse(declarations, indexByOwner)
    }

    lemma IndexFacts()
      requires Valid()
      ensures DistinctOwners(declarations)
      ensures forall o :: o in byOwner <==> OwnedBy(declarations, o)
    {
      forall o ensures o in byOwner <==> OwnedBy(declarations, o) {
        if o in byOwner { assert declarations[indexByOwner[o]].owner == o; }
      }
    }

    method Append(d: Declared)
      requires Valid() && d.owner !in byOwner
      modifies this
      ensures Valid() && declarations == old(declarations) + [d]
    {
      byOwner := byOwner + {d.owner};
      indexByOwner := indexByOwner[d.owner := |declarations|];
      declarations := declarations + [d];
    }

    // What every reconstruction of a generated artifact does.
    method Place(d: Declared)
      requires Valid()
      modifies this
      ensures Valid() && declarations == Placed(old(declarations), d)
    {
      IndexFacts();
      if d.owner in indexByOwner {
        var index := indexByOwner[d.owner];
        PlacedReplaces(declarations, d, index);
        declarations := declarations[index := d.(reconstructions := declarations[index].reconstructions + 1)];
      } else {
        PlacedAppends(declarations, d);
        Append(d);
      }
    }

    method Remove(o: Owner)
      requires Valid() && o in indexByOwner
      modifies this
      ensures Valid() && declarations == Others(old(declarations), o) && o !in byOwner
    {
      var index := indexByOwner[o];
      IndexFacts();
      OthersCutsOut(declarations, index);
      ghost var was, before := declarations, indexByOwner;
      declarations := declarations[..index] + declarations[index + 1..];
      byOwner := byOwner - {o};
      indexByOwner := indexByOwner - {o};
      Reindex(was, before, index);
    }

    // Entries behind the gap move up by one.
    method Reindex(ghost was: seq<Declared>, ghost before: map<Owner, nat>, index: nat)
      requires index < |was| && Inverse(was, before) && declarations == was[..index] + was[index + 1..]
      requires indexByOwner == before - {was[index].owner}
      modifies `indexByOwner
      ensures Inverse(declarations, indexByOwner) && indexByOwner.Keys == before.Keys - {was[index].owner}
    {
      for k := index to |declarations|
        invariant Shifted(before, was[index].owner, index, k, indexByOwner)
      {
        assert declarations[k] == was[k + 1];
        ShiftStep(was, before, index, k, indexByOwner);
        indexByOwner := indexByOwner[declarations[k].owner := k];
      }
      ShiftedIsInverse(was, before, index, declarations, indexByOwner);
    }
  }

  lemma {:induction false} OthersOwners(s: seq<Declared>, o: Owner)
    ensures forall p :: OwnedBy(Others(s, o), p) <==> OwnedBy(s, p) && p != o
  {
    if s != [] {
      OthersOwners(s[1..], o);
      forall p ensures OwnedBy(Others(s, o), p) <==> OwnedBy(s, p) && p != o {
        OwnedByTail(s, p);
        if s[0].owner == o {
          assert Others(s, o) == Others(s[1..], o);
        } else {
          OwnedByTail(Others(s, o), p);
          assert Others(s, o)[1..] == Others(s[1..], o);
        }
      }
    }
  }

  lemma {:induction false} PlacedOwned(s: seq<Declared>, d: Declared, o: Owner)
    ensures OwnedBy(Placed(s, d), o) <==> OwnedBy(s, o) || o == d.owner
  {
    var r := Placed(s, d);
    OwnedByTail(r, o);
    if s != [] {
      OwnedByTail(s, o);
      if s[0].owner != d.owner {
        PlacedOwned(s[1..], d, o);
        assert r[1..] == Placed(s[1..], d);
      } else {
        assert r[1..] == s[1..];
      }
    }
  }

  // ---- The table as a value -----------------------------------------------------------

  type Contents = map<Path, seq<Declared>>

  // Whether the file context is prepared, the revision is built and committed and
  // the export is recorded is up to other parts. A retirement says where its walk
  // over the builders meets the owner first.
  datatype Op =
    | Emit(path: Path, d: Declared, prepared: bool, revised: bool, exported: bool)
    | Reconstruct(path: Path, d: Declared, prepared: bool, revised: bool)
    | Retire(path: Path, owner: Owner, committed: bool, met: Path)

  function At(t: Contents, path: Path): seq<Declared> {
    if path in t then t[path] else []
  }

  ghost predicate Holds(t: Contents, path: Path, o: Owner) {
    path in t && OwnedBy(t[path], o)
  }

  ghost predicate Present(t: Contents, o: Owner) {
    exists path :: Holds(t, path, o)
  }

  // At most one builder holds the owner.
  ghost predicate Single(t: Contents, o: Owner) {
    forall p, q :: Holds(t, p, o) && Holds(t, q, o) ==> p == q
  }

  ghost predicate Exclusive(t: Contents) {
    forall o :: Single(t, o)
  }

  // A builder is created before its first declaration is revised, and stays if
  // that fails.
  function Opened(t: Contents, path: Path, prepared: bool): Contents {
    if path in t || !prepared then t else t[path := []]
  }

  // Without the owner's declaration, and without the builder if it was the last one.
  function Cut(t: Contents, path: Path, o: Owner): Contents {
    if Others(At(t, path), o) == [] then t - {path} else t[path := Others(At(t, path), o)]
  }

  lemma CutInSteps(t: Contents, path: Path, o: Owner)
    requires path in t
    ensures var shorter := t[path := Others(t[path], o)];
      Cut(t, path, o) == if shorter[path] == [] then shorter - {path} else shorter
  {
    assert t[path := Others(t[path], o)] - {path} == t - {path};
  }

  ghost function Applied(t: Contents, op: Op): Contents {
    match op
    case Emit(path, d, prepared, revised, _) =>
      var o := Opened(t, path, prepared);
      if path !in o || OwnedBy(o[path], d.owner) || !revised then o else o[path := o[path] + [d]]
    case Reconstruct(path, d, prepared, revised) =>
      var o := Opened(t, path, prepared);
      if path !in o || !revised then o else o[path := Placed(o[path], d)]
    case Retire(path, owner, committed, met) =>
      if !Holds(t, path, owner) || !committed then t else Cut(t, if Holds(t, met, owner) then met else path, owner)
  }

  // Whether an operation ends without an error.
  ghost predicate Succeeds(t: Contents, op: Op) {
    match op
    case Emit(path, d, prepared, revised, exported) =>
      (path in t || prepared) && !Holds(t, path, d.owner) && revised && exported
    case Reconstruct(path, d, prepared, revised) => (path in t || prepared) && revised
    case Retire(path, owner, committed, _) => Holds(t, path, owner) && committed && Single(t, owner)
  }

  ghost predicate Within(few: map<Path, FileBuilder>, many: map<Path, FileBuilder>) {
    forall p :: p in few ==> p in many && few[p] == many[p]
  }

  // The removal has looked everywhere but in paths, and met the owner nowhere or in one file.
  ghost predicate Swept(before: Contents, now: Contents, paths: set<Path>, o: Owner, removed: bool, met: Path) {
    && (removed ==> Holds(before, met, o) && met !in paths)
    && (forall p :: Holds(before, p, o) && p !in paths ==> removed && p == met)
    && now == if removed then Cut(before, met, o) else before
  }

  lemma SweepOne(before: Contents, now: Contents, paths: set<Path>, o: Owner, removed: bool, met: Path, path: Path)
    requires Swept(before, now, paths, o, removed, met) && path in paths
    ensures Holds(now, path, o) <==> Holds(before, path, o)
    ensures removed && Holds(now, path, o) ==> !Single(before, o)
    ensures !Holds(now, path, o) ==> Swept(before, now, paths - {path}, o, removed, met)
    ensures !removed && Holds(now, path, o) ==> Swept(before, Cut(now, path, o), paths - {path}, o, true, path)
  {
  }

  lemma SweptAll(before: Contents, now: Contents, o: Owner, removed: bool, met: Path)
    requires Swept(before, now, {}, o, removed, met)
    ensures Single(before, o) && (removed <==> Present(before, o))
  {
    assert removed ==> Holds(before, met, o);
  }

  class Table {
    var builders: map<Path, FileBuilder>

    constructor ()
      ensures Valid() && Contents() == map[]
    {
      builders := map[];
    }

    ghost predicate Valid()
      reads this, builders.Values
    {
      && (forall p, q :: p in builders && q in builders && p != q ==> builders[p] != builders[q])
      && (forall p :: p in builders ==> builders[p].Valid())
    }

    ghost function Contents(): Contents
      reads this, builders.Values
    {
      map p | p in builders :: builders[p].declarations
    }

    method Builder(path: Path, prepared: bool) returns (builder: Option<FileBuilder>)
      requires Valid()
      modifies this
      ensures Valid() && Contents() == Opened(old(Contents()), path, prepared)
      ensures builder.Some? <==> path in old(builders) || prepared
      ensures builder.Some? ==> path in builders && builder.value == builders[path]
      ensures fresh(builders.Values - old(builders.Values))
    {
      if path in builders {
        return Some(builders[path]);
      }
      if !prepared {
        return None;
      }
      OpenBuilder(path);
      return Some(builders[path]);
    }

    method OpenBuilder(path: Path)
      requires Valid() && path !in builders
      modifies this
      ensures Valid() && path in builders && builders == old(builders)[path := builders[path]] && fresh(builders[path])
      ensures Contents() == old(Contents())[path := []]
    {
      ghost var before := Contents();
      var created := new FileBuilder();
      assert forall p :: p in builders ==> builders[p] != created;
      builders := builders[path := created];
      assert forall p :: p in before ==> p in builders && builders[p].declarations == before[p];
      assert Contents() == before[path := []];
    }

    method AppendTo(path: Path, d: Declared)
      requires Valid() && path in builders && d.owner !in builders[path].byOwner
      modifies builders[path]
      ensures Valid() && Contents() == old(Contents())[path := old(Contents())[path] + [d]]
    {
      builders[path].Append(d);
    }

    method PlaceIn(path: Path, d: Declared)
      requires Valid() && path in builders
      modifies builders[path]
      ensures Valid() && Contents() == old(Contents())[path := Placed(old(Contents())[path], d)]
    {
      ghost var before := Contents();
      builders[path].Place(d);
      assert Contents() == before[path := Placed(before[path], d)];
    }

    // An export that cannot be recorded is an error, but the declaration is there.
    method Emit(path: Path, d: Declared, prepared: bool, revised: bool, exported: bool) returns (ok: bool)
      requires Valid()
      modifies this, builders.Values
      ensures Valid() && fresh(builders.Values - old(builders.Values))
      ensures Contents() == Applied(old(Contents()), Op.Emit(path, d, prepared, revised, exported))
      ensures ok <==> Succeeds(old(Contents()), Op.Emit(path, d, prepared, revised, exported))
    {
      var builder := Builder(path, prepared);
      if builder.None? {
        return false;
      }
      builder.value.IndexFacts();
      if d.owner in builder.value.byOwner || !revised {
        return false;
      }
      AppendTo(path, d);
      return exported;
    }

    method Reconstruct(path: Path, d: Declared, prepared: bool, revised: bool) returns (ok: bool)
      requires Valid()
      modifies this, builders.Values
      ensures Valid() && fresh(builders.Values - old(builders.Values))
      ensures Contents() == Applied(old(Contents()), Op.Reconstruct(path, d, prepared, revised))
      ensures ok <==> Succeeds(old(Contents()), Op.Reconstruct(path, d, prepared, revised))
    {
      var builder := Builder(path, prepared);
      if builder.None? || !revised {
        return false;
      }
      PlaceIn(path, d);
      return true;
    }

    method RemoveFrom(path: Path, owner: Owner)
      requires Valid() && path in builders && owner in builders[path].indexByOwner
      modifies this, builders[path]
      ensures Valid() && Contents() == Cut(old(Contents()), path, owner)
      ensures builders == old(builders) || builders == old(builders) - {path}
    {
      ghost var before := Contents();
      CutFrom(path, owner);
      DropEmpty(path);
      CutInSteps(before, path, owner);
    }

    method DropEmpty(path: Path)
      requires Valid() && path in builders
      modifies this
      ensures Valid() && builders == if old(Contents())[path] == [] then old(builders) - {path} else old(builders)
      ensures Contents() == if old(Contents())[path] == [] then old(Contents()) - {path} else old(Contents())
    {
      ghost var before := Contents();
      if |builders[path].declarations| == 0 {
        builders := builders - {path};
        assert Contents() == before - {path};
      }
    }

    method CutFrom(path: Path, owner: Owner)
      requires Valid() && path in builders && owner in builders[path].indexByOwner
      modifies builders[path]
      ensures Valid() && Contents() == old(Contents())[path := Others(old(Contents())[path], owner)]
    {
      ghost var before := Contents();
      builders[path].Remove(owner);
      assert Contents() == before[path := Others(before[path], owner)];
    }

    // One builder's turn in the removal: a second builder with the owner is an
    // error, and a stale index would be one.
    method RemoveIn(path: Path, owner: Owner, removed: bool) returns (ok: bool, found: bool)
      requires Valid() && path in builders
      modifies this, builders[path]
      ensures Valid() && (ok <==> !(removed && Holds(old(Contents()), path, owner)))
      ensures found <==> ok && Holds(old(Contents()), path, owner)
      ensures !found ==> builders == old(builders) && Contents() == old(Contents())
      ensures found ==> Contents() == Cut(old(Contents()), path, owner)
      ensures found ==> builders == old(builders) || builders == old(builders) - {path}
    {
      var builder := builders[path];
      builder.IndexFacts();
      if owner !in builder.indexByOwner {
        return true, false;
      }
      var index := builder.indexByOwner[owner];
      if removed || index >= |builder.declarations| || builder.declarations[index].owner != owner {
        return false, false;
      }
      RemoveFrom(path, owner);
      return true, true;
    }

    // Looks through all builders, in any order. It is an error that two of them
    // hold the owner, and then the declaration that was met first is gone.
    method RemoveTargetDeclaration(owner: Owner) returns (ok: bool, removed: bool, ghost met: Path)
      requires Valid()
      modifies this, builders.Values
      ensures Valid() && Within(builders, old(builders))
      ensures ok <==> Single(old(Contents()), owner)
      ensures ok ==> (removed <==> Present(old(Contents()), owner))
      ensures if Present(old(Contents()), owner)
        then Holds(old(Contents()), met, owner) && Contents() == Cut(old(Contents()), met, owner)
        else Contents() == old(Contents())
    {
      removed, met := false, 0;
      ghost var before := Contents();
      var paths := builders.Keys;
      while paths != {}
        invariant Valid() && paths <= builders.Keys && Within(builders, old(builders))
        invariant Swept(before, Contents(), paths, owner, removed, met)
        decreases paths
      {
        var path :| path in paths;
        SweepOne(before, Contents(), paths, owner, removed, met, path);
        paths := paths - {path};
        var found;
        ok, found := RemoveIn(path, owner, removed);
        if !ok {
          return false, false, met;
        }
        if found {
          removed, met := true, path;
        }
      }
      SweptAll(before, Contents(), owner, removed, met);
      return true, removed, met;
    }

    // The commit of the empty revision comes before the removal, which has to find
    // the declaration in this file only.
    method Retire(path: Path, owner: Owner, committed: bool) returns (ok: bool, ghost met: Path)
      requires Valid()
      modifies this, builders.Values
      ensures Valid() && Within(builders, old(builders))
      ensures Contents() == Applied(old(Contents()), Op.Retire(path, owner, committed, met))
      ensures ok <==> Succeeds(old(Contents()), Op.Retire(path, owner, committed, met))
    {
      met := path;
      if path !in builders {
        return false, met;
      }
      var builder := builders[path];
      builder.IndexFacts();
      if owner !in builder.indexByOwner {
        return false, met;
      }
      var index := builder.indexByOwner[owner];
      if index >= |builder.declarations| || builder.declarations[index].owner != owner || !committed {
        return false, met;
      }
      assert Holds(Contents(), path, owner);
      var removed;
      ok, removed, met := RemoveTargetDeclaration(owner);
      ok := ok && removed;
    }
  }

  // ---- Runs ------------------------------------------------------------------------------

  ghost function Run(t: Contents, ops: seq<Op>): Contents
    decreases |ops|
  {
    if ops == [] then t else Run(Applied(t, ops[0]), ops[1..])
  }

  // The operation is meant to put a declaration of the owner at the path.
  predicate Puts(op: Op, path: Path, o: Owner) {
    !op.Retire? && op.path == path && op.d.owner == o
  }

  // It gets as far as that.
  ghost predicate Places(t: Contents, op: Op, path: Path, o: Owner) {
    Puts(op, path, o) && (path in t || op.prepared) && op.revised
  }

  // The operation takes the owner's declaration from the path.
  ghost predicate Takes(t: Contents, op: Op, path: Path, o: Owner) {
    && op.Retire? && op.owner == o && op.committed && Holds(t, op.path, o)
    && path == if Holds(t, op.met, o) then op.met else op.path
  }

  // The operation may remove a declaration of the owner.
  predicate Retires(op: Op, o: Owner) {
    op.Retire? && op.owner == o && op.committed
  }

  // Who is where after a step.
  lemma HeldAfter(t: Contents, op: Op, path: Path, o: Owner)
    ensures Holds(Applied(t, op), path, o) <==> Places(t, op, path, o) || (Holds(t, path, o) && !Takes(t, op, path, o))
  {
    match op
    case Emit(p, d, prepared, revised, _) =>
      if !OwnedBy(At(t, p), d.owner) {
        PlacedAppends(At(t, p), d);
      }
      PlacedOwned(At(t, p), d, o);
    case Reconstruct(p, d, prepared, revised) =>
      PlacedOwned(At(t, p), d, o);
    case Retire(p, owner, committed, met) =>
      OthersOwners(At(t, if Holds(t, met, owner) then met else p), owner);
  }

  // The declaration of an owner, if there is one.
  function Find(s: seq<Declared>, o: Owner): Option<Declared> {
    if s == [] then None else if s[0].owner == o then Some(s[0]) else Find(s[1..], o)
  }

  lemma {:induction false} FindPlaced(s: seq<Declared>, d: Declared, o: Owner)
    ensures Find(s, d.owner) == None ==> Placed(s, d) == s + [d]
    ensures Find(Placed(s, d), o) ==
      if o != d.owner then Find(s, o)
      else if Find(s, o).Some? then Some(d.(reconstructions := Find(s, o).value.reconstructions + 1))
      else Some(d)
  {
    if s == [] {
      assert Placed(s, d) == [d] && [d][1..] == [];
    } else {
      FindPlaced(s[1..], d, o);
    }
  }

  lemma {:induction false} FindOthers(s: seq<Declared>, owner: Owner, o: Owner)
    ensures Find(Others(s, owner), o) == if o == owner then None else Find(s, o)
  {
    if s != [] {
      FindOthers(s[1..], owner, o);
      var rest := Others(s[1..], owner);
      assert ([s[0]] + rest)[1..] == rest && [] + rest == rest;
    }
  }

  lemma {:induction false} FindOwned(s: seq<Declared>, o: Owner)
    ensures OwnedBy(s, o) <==> Find(s, o).Some?
  {
    if s != [] {
      OwnedByTail(s, o);
      FindOwned(s[1..], o);
    }
  }

  ghost function Followed(t: Contents, op: Op, path: Path, o: Owner, before: Option<Declared>): Option<Declared> {
    if Takes(t, op, path, o) then None
    else if !Places(t, op, path, o) || (op.Emit? && before.Some?) then before
    else if before == None then Some(op.d)
    else Some(Declared(o, op.d.revision, before.value.reconstructions + 1))
  }

  // What stands for an owner after a step: a new declaration where there was none, a
  // reconstruction in the place of the former one and counted after it, and otherwise
  // what stood there.
  lemma EntryAfter(t: Contents, op: Op, path: Path, o: Owner)
    ensures Find(At(Applied(t, op), path), o) == Followed(t, op, path, o, Find(At(t, path), o))
  {
    match op
    case Emit(_, _, _, _, _) => EntryAfterEmit(t, op, path, o);
    case Reconstruct(_, _, _, _) => EntryAfterReconstruct(t, op, path, o);
    case Retire(_, _, _, _) => EntryAfterRetire(t, op, path, o);
  }

  lemma EntryAfterEmit(t: Contents, op: Op, path: Path, o: Owner)
    requires op.Emit?
    ensures Find(At(Applied(t, op), path), o) == Followed(t, op, path, o, Find(At(t, path), o))
  {
    FindPlaced(At(t, op.path), op.d, o);
    FindOwned(At(t, op.path), op.d.owner);
  }

  lemma EntryAfterReconstruct(t: Contents, op: Op, path: Path, o: Owner)
    requires op.Reconstruct?
    ensures Find(At(Applied(t, op), path), o) == Followed(t, op, path, o, Find(At(t, path), o))
  {
    FindPlaced(At(t, op.path), op.d, o);
  }

  lemma EntryAfterRetire(t: Contents, op: Op, path: Path, o: Owner)
    requires op.Retire?
    ensures Find(At(Applied(t, op), path), o) == Followed(t, op, path, o, Find(At(t, path), o))
  {
    FindOthers(At(t, if Holds(t, op.met, op.owner) then op.met else op.path), op.owner, o);
  }

  // ---- One builder for each owner -----------------------------------------------------

  // The step places a declaration of an owner that another file holds.
  ghost predicate Strays(t: Contents, op: Op) {
    exists p, q, o :: p != q && Places(t, op, p, o) && Holds(t, q, o)
  }

  // A step keeps the builders exclusive exactly if it does not stray.
  lemma ExclusiveAfter(t: Contents, op: Op)
    requires Exclusive(t)
    ensures Exclusive(Applied(t, op)) <==> !Strays(t, op)
  {
    var u := Applied(t, op);
    if p, q, o :| p != q && Places(t, op, p, o) && Holds(t, q, o) {
      HeldAfter(t, op, p, o);
      HeldAfter(t, op, q, o);
      assert !Single(u, o);
    } else {
      forall o ensures Single(u, o) {
        forall p, q | Holds(u, p, o) && Holds(u, q, o) ensures p == q {
          HeldAfter(t, op, p, o);
          HeldAfter(t, op, q, o);
          assert Single(t, o);
        }
      }
    }
  }

  // The operations put each owner in the file where it is already, and in one file only.
  ghost predicate AgreeOnPaths(t: Contents, ops: seq<Op>) {
    && (forall op, p, q, o :: op in ops && Puts(op, p, o) && Holds(t, q, o) ==> p == q)
    && (forall a, b, p, q, o :: a in ops && b in ops && Puts(a, p, o) && Puts(b, q, o) ==> p == q)
  }

  lemma AgreeAfter(t: Contents, ops: seq<Op>)
    requires ops != [] && AgreeOnPaths(t, ops)
    ensures !Strays(t, ops[0]) && AgreeOnPaths(Applied(t, ops[0]), ops[1..])
  {
    forall op, p, q, o | op in ops[1..] && Puts(op, p, o) && Holds(Applied(t, ops[0]), q, o) ensures p == q {
      HeldAfter(t, ops[0], q, o);
    }
  }

  lemma {:induction false} AgreeingRunIsExclusive(t: Contents, ops: seq<Op>)
    requires Exclusive(t) && AgreeOnPaths(t, ops)
    ensures Exclusive(Run(t, ops))
    decreases |ops|
  {
    if ops != [] {
      AgreeAfter(t, ops);
      ExclusiveAfter(t, ops[0]);
      AgreeingRunIsExclusive(Applied(t, ops[0]), ops[1..]);
    }
  }

  // From an empty table, in any order, with any failures: if the operations agree
  // on the file of each owner, no two builders hold one owner, and a retirement
  // fails only for a declaration that is not there or not committed.
  lemma OwnersAreExclusive(ops: seq<Op>, path: Path, owner: Owner, committed: bool, met: Path)
    requires AgreeOnPaths(map[], ops)
    ensures Exclusive(Run(map[], ops))
    ensures Succeeds(Run(map[], ops), Op.Retire(path, owner, committed, met)) <==> Holds(Run(map[], ops), path, owner) && committed
  {
    AgreeingRunIsExclusive(map[], ops);
    assert Single(Run(map[], ops), owner);
  }

  // Two steps that disagree suffice for the inconsistency error.
  lemma TwoPathsAreInconsistent(owner: Owner, p: Path, q: Path, revision: nat, met: Path)
    requires p != q
    ensures var d := Declared(owner, revision, 0);
      var t := Run(map[], [Op.Emit(p, d, true, true, true), Op.Reconstruct(q, d, true, true)]);
      Holds(t, p, owner) && Holds(t, q, owner) && !Succeeds(t, Op.Retire(p, owner, true, met))
  {
    var d := Declared(owner, revision, 0);
    var first, second := Op.Emit(p, d, true, true, true), Op.Reconstruct(q, d, true, true);
    var u := Applied(map[], first);
    assert [first, second][1..] == [second] && [second][1..] == [];
    assert Run(map[], [first, second]) == Run(u, [second]) == Run(Applied(u, second), []);
    HeldAfter(map[], first, p, owner);
    HeldAfter(u, second, p, owner);
    HeldAfter(u, second, q, owner);
    assert !Single(Applied(u, second), owner);
  }

  // ---- The order of the declarations ------------------------------------------------------

  ghost predicate Before(s: seq<Declared>, a: Owner, b: Owner) {
    s != [] && ((s[0].owner == a && OwnedBy(s[1..], b)) || Before(s[1..], a, b))
  }

  lemma {:induction false} PlacedKeepsOrder(s: seq<Declared>, d: Declared, a: Owner, b: Owner)
    requires OwnedBy(s, d.owner) || (a != d.owner && b != d.owner)
    ensures Before(Placed(s, d), a, b) <==> Before(s, a, b)
  {
    var r := Placed(s, d);
    if s == [] {
      assert r[1..] == [];
    } else {
      OwnedByTail(s, d.owner);
      if s[0].owner == d.owner {
        assert r[1..] == s[1..];
      } else {
        assert r[1..] == Placed(s[1..], d);
        PlacedOwned(s[1..], d, b);
        PlacedKeepsOrder(s[1..], d, a, b);
      }
    }
  }

  lemma {:induction false} OthersKeepOrder(s: seq<Declared>, o: Owner, a: Owner, b: Owner)
    requires a != o && b != o
    ensures Before(Others(s, o), a, b) <==> Before(s, a, b)
  {
    if s != [] {
      OthersKeepOrder(s[1..], o, a, b);
      OthersOwners(s[1..], o);
      var r := Others(s, o);
      if s[0].owner == o {
        assert r == Others(s[1..], o);
      } else {
        assert r[1..] == Others(s[1..], o);
      }
    }
  }

  // A step leaves the order of two declarations of a file that it does not retire.
  lemma StepKeepsOrder(t: Contents, op: Op, path: Path, a: Owner, b: Owner)
    requires Holds(t, path, a) && Holds(t, path, b) && !Retires(op, a) && !Retires(op, b)
    ensures Holds(Applied(t, op), path, a) && Holds(Applied(t, op), path, b)
    ensures Before(Applied(t, op)[path], a, b) <==> Before(t[path], a, b)
  {
    HeldAfter(t, op, path, a);
    HeldAfter(t, op, path, b);
    match op
    case Emit(p, d, prepared, revised, _) =>
      if !OwnedBy(At(t, p), d.owner) {
        PlacedAppends(At(t, p), d);
        if p == path {
          PlacedKeepsOrder(t[path], d, a, b);
        }
      }
    case Reconstruct(p, d, prepared, revised) =>
      if p == path {
        if !OwnedBy(t[path], d.owner) {
          assert a != d.owner && b != d.owner;
        }
        PlacedKeepsOrder(t[path], d, a, b);
      }
    case Retire(p, owner, committed, met) =>
      if committed {
        OthersKeepOrder(t[path], owner, a, b);
      }
  }

  // Over any run, declarations that are never retired keep their order.
  lemma {:induction false} RunKeepsOrder(t: Contents, ops: seq<Op>, path: Path, a: Owner, b: Owner)
    requires Holds(t, path, a) && Holds(t, path, b)
    requires forall op :: op in ops ==> !Retires(op, a) && !Retires(op, b)
    ensures Holds(Run(t, ops), path, a) && Holds(Run(t, ops), path, b)
    ensures Before(Run(t, ops)[path], a, b) <==> Before(t[path], a, b)
    decreases |ops|
  {
    if ops != [] {
      StepKeepsOrder(t, ops[0], path, a, b);
      RunKeepsOrder(Applied(t, ops[0]), ops[1..], path, a, b);
    }
  }
}
