// Canonical order of the generic operations of a provider manifest.
module GenericOperations {
  import opened Common
  import opened Text
  import opened ContractTypes

  datatype OperationKind =
    | Copy | Zero | EqualKind | BinaryLess | Convert | MapConstruct | ToStorage | FromStorage
    | ToContainerStorage | FromContainerStorage | InterfaceAssertOk
    | InvalidKind(text: string)

  function KindText(kind: OperationKind): string {
    match kind
    case Copy => "copy"
    case Zero => "zero"
    case EqualKind => "equal"
    case BinaryLess => "binary-less"
    case Convert => "convert"
    case MapConstruct => "map-construct"
    case ToStorage => "to-storage"
    case FromStorage => "from-storage"
    case ToContainerStorage => "to-container-storage"
    case FromContainerStorage => "from-container-storage"
    case InterfaceAssertOk => "interface-assert-ok"
    case InvalidKind(text) => text
  }

  datatype Operation = Operation(kind: OperationKind, parameters: seq<TypeDocument>, results: seq<TypeDocument>)

  predicate Same(a: TypeDocument, b: TypeDocument) {
    TypeKey(a) == TypeKey(b)
  }

  predicate BooleanResult(o: Operation) {
    |o.results| == 1 && o.results[0].kind.BoolType?
  }

  // The signature each kind of operation must have.
  predicate ValidShape(o: Operation) {
    match o.kind
    case Copy =>
      |o.parameters| == 1 && |o.results| == 1 && Same(o.parameters[0], o.results[0])
    case Zero =>
      |o.parameters| == 0 && |o.results| == 1
    case EqualKind =>
      |o.parameters| == 2 && Same(o.parameters[0], o.parameters[1]) && BooleanResult(o)
    case BinaryLess =>
      |o.parameters| == 2 && Same(o.parameters[0], o.parameters[1]) && BooleanResult(o)
    case Convert =>
      |o.parameters| == 1 && |o.results| == 1
    case MapConstruct =>
      && 1 <= |o.parameters| <= 2 && |o.results| == 1
      && o.results[0].kind.MapType? && o.results[0].element.Some?
      && Same(o.parameters[0], o.results[0].element.value)
      && (|o.parameters| == 1 || o.parameters[1].kind.IntType?)
    case InterfaceAssertOk =>
      && |o.parameters| == 1 && o.parameters[0].kind.CallableParameter?
      && |o.results| == 2 && o.results[0].kind.TypeParameter? && o.results[1].kind.BoolType?
    case InvalidKind(_) => false
    case _ =>
      && |o.parameters| == 1 && |o.results| == 1
      && o.parameters[0].kind.TypeParameter?
      && Same(o.parameters[0], o.results[0])
  }

  predicate ValidOperation(o: Operation) {
    && !o.kind.InvalidKind?
    && (forall t :: t in o.parameters ==> ValidType(t, 0))
    && (forall t :: t in o.results ==> ValidType(t, 0))
    && ValidShape(o)
  }

  function Keys(types: seq<TypeDocument>): (keys: seq<string>)
    ensures |keys| == |types| && forall i :: 0 <= i < |types| ==> keys[i] == TypeKey(types[i])
  {
    seq(|types|, i requires 0 <= i < |types| => TypeKey(types[i]))
  }

  function Items(keys: seq<string>): string {
    if keys == [] then "" else ":" + (keys[0] + Items(keys[1..]))
  }

  function OperationKey(o: Operation): string {
    KindText(o.kind) + ("|p" + (Items(Keys(o.parameters)) + ("|r" + Items(Keys(o.results)))))
  }

  predicate KeyLess(a: Operation, b: Operation) {
    Less(OperationKey(a), OperationKey(b))
  }

  lemma {:induction false} ItemsAppend(keys: seq<string>, key: string)
    ensures Items(keys + [key]) == (Items(keys) + ":") + key
  {
    if keys == [] {
      assert [key][1..] == [] && keys + [key] == [key];
    } else {
      ItemsAppend(keys[1..], key);
      assert (keys + [key])[1..] == keys[1..] + [key];
    }
  }

  lemma ItemWritten(written: string, keys: seq<string>, i: nat)
    requires i < |keys|
    ensures ((written + Items(keys[..i])) + ":") + keys[i] == written + Items(keys[..i + 1])
  {
    ItemsAppend(keys[..i], keys[i]);
    assert keys[..i + 1] == keys[..i] + [keys[i]];
    Associate(written, Items(keys[..i]) + ":", keys[i]);
    Associate(written, Items(keys[..i]), ":");
  }

  // Appends one ":key" item per type, as the loops of the key builder do.
  method WriteItems(written: string, types: seq<TypeDocument>) returns (key: string)
    ensures key == written + Items(Keys(types))
  {
    key := written;
    ghost var keys := Keys(types);
    for i := 0 to |types|
      invariant key == written + Items(keys[..i])
    {
      ItemWritten(written, keys, i);
      key := key + ":" + TypeKey(types[i]);
    }
    assert keys[..|types|] == keys;
  }

  method BuildOperationKey(o: Operation) returns (key: string)
    ensures key == OperationKey(o)
  {
    var kind, p, r := KindText(o.kind), "|p", "|r";
    key := WriteItems(kind + p, o.parameters);
    key := WriteItems(key + r, o.results);
    WrittenKey(kind, p, Items(Keys(o.parameters)), r, Items(Keys(o.results)));
  }

  lemma WrittenKey(kind: string, p: string, parameters: string, r: string, results: string)
    ensures (((kind + p) + parameters) + r) + results == kind + (p + (parameters + (r + results)))
  {
  }

  // A list of items ends where something other than an item begins.
  lemma {:induction false} ItemsUnique(a: seq<TypeDocument>, b: seq<TypeDocument>, x: string, y: string)
    requires forall t :: t in a || t in b ==> ValidType(t, 0)
    requires x == "" || x[0] != ':'
    requires y == "" || y[0] != ':'
    requires Items(Keys(a)) + x == Items(Keys(b)) + y
    ensures a == b && x == y
  {
    assert a != [] ==> (Items(Keys(a)) + x)[0] == ':';
    assert b != [] ==> (Items(Keys(b)) + y)[0] == ':';
    assert a == [] ==> Items(Keys(a)) + x == x;
    assert b == [] ==> Items(Keys(b)) + y == y;
    if a != [] {
      assert Keys(a)[1..] == Keys(a[1..]) && Keys(b)[1..] == Keys(b[1..]);
      ItemsHead(":", TypeKey(a[0]), TypeKey(b[0]), Items(Keys(a[1..])), Items(Keys(b[1..])), x, y);
      TypeKeyUnique(a[0], b[0], 0, 0, Items(Keys(a[1..])) + x, Items(Keys(b[1..])) + y);
      ItemsUnique(a[1..], b[1..], x, y);
      assert a == [a[0]] + a[1..] && b == [b[0]] + b[1..];
    }
  }

  lemma ItemsHead(colon: string, k: string, l: string, r: string, s: string, x: string, y: string)
    requires (colon + (k + r)) + x == (colon + (l + s)) + y
    ensures k + (r + x) == l + (s + y)
  {
    Peel(colon, k + r, l + s, x, y);
    Associate(k, r, x);
    Associate(l, s, y);
  }

  lemma KindTextInjective(a: OperationKind, b: OperationKind)
    requires !a.InvalidKind? && !b.InvalidKind? && KindText(a) == KindText(b)
    ensures a == b
  {
    var s, t := KindText(a), KindText(b);
    assert s[|s| - 1] == t[|t| - 1] && s[0] == t[0];
  }

  // Distinct operations have distinct keys.
  lemma OperationKeyInjective(a: Operation, b: Operation)
    requires ValidOperation(a) && ValidOperation(b)
    requires OperationKey(a) == OperationKey(b)
    ensures a == b
  {
    var p, r := "p", "|r";
    assert "|p" == ['|'] + p;
    KindEnds(a.kind);
    KindEnds(b.kind);
    SplitKey(KindText(a.kind), KindText(b.kind), p,
      Items(Keys(a.parameters)) + (r + Items(Keys(a.results))),
      Items(Keys(b.parameters)) + (r + Items(Keys(b.results))));
    KindTextInjective(a.kind, b.kind);
    assert r[0] == '|';
    ItemsUnique(a.parameters, b.parameters, r + Items(Keys(a.results)), r + Items(Keys(b.results)));
    CancelPrefix(r, Items(Keys(a.results)), Items(Keys(b.results)));
    ItemsUnique(a.results, b.results, "", "");
  }

  lemma KindEnds(kind: OperationKind)
    requires !kind.InvalidKind?
    ensures '|' !in KindText(kind)
  {
  }

  lemma SplitKey(k: string, l: string, p: string, x: string, y: string)
    requires '|' !in k && '|' !in l
    requires k + ((['|'] + p) + x) == l + ((['|'] + p) + y)
    ensures k == l && x == y
  {
    assert k + ((['|'] + p) + x) == k + ['|'] + (p + x);
    assert l + ((['|'] + p) + y) == l + ['|'] + (p + y);
    SplitAtTerminator(k, l, '|', p + x, p + y);
    CancelPrefix(p, x, y);
  }

  ghost predicate AllValid(operations: seq<Operation>) {
    forall o :: o in operations ==> ValidOperation(o)
  }

  lemma KeyNotEmpty(o: Operation)
    ensures OperationKey(o) != ""
  {
  }

  // Accepts exactly the valid lists, strictly ordered by key when asked to be.
  method ValidateGenericOperations(operations: seq<Operation>, requireOrder: bool) returns (ok: bool)
    ensures ok <==> AllValid(operations) && (requireOrder ==> StrictlySorted(KeyLess, operations))
  {
    var previous := "";
    for i := 0 to |operations|
      invariant AllValid(operations[..i])
      invariant requireOrder ==> StrictlySorted(KeyLess, operations[..i])
      invariant i == 0 ==> previous == ""
      invariant i > 0 ==> previous != "" && previous == OperationKey(operations[i - 1])
    {
      var valid := ValidateOperation(operations[i]);
      if !valid {
        assert operations[i] in operations;
        return false;
      }
      var key := BuildOperationKey(operations[i]);
      if requireOrder && previous != "" && !Less(previous, key) {
        OrderBroken(operations, i);
        return false;
      }
      KeyNotEmpty(operations[i]);
      if requireOrder {
        OrderExtends(operations, i);
      }
      ValidExtends(operations, i);
      previous := key;
    }
    assert operations[..|operations|] == operations;
    return true;
  }

  method ValidateOperation(o: Operation) returns (ok: bool)
    ensures ok <==> ValidOperation(o)
  {
    if o.kind.InvalidKind? {
      return false;
    }
    for i := 0 to |o.parameters|
      invariant forall j :: 0 <= j < i ==> ValidType(o.parameters[j], 0)
    {
      if !ValidType(o.parameters[i], 0) {
        assert o.parameters[i] in o.parameters;
        return false;
      }
    }
    for i := 0 to |o.results|
      invariant forall j :: 0 <= j < i ==> ValidType(o.results[j], 0)
    {
      if !ValidType(o.results[i], 0) {
        assert o.results[i] in o.results;
        return false;
      }
    }
    return ValidShape(o);
  }

  lemma OrderBroken(operations: seq<Operation>, i: nat)
    requires 0 < i < |operations| && !Less(OperationKey(operations[i - 1]), OperationKey(operations[i]))
    ensures !StrictlySorted(KeyLess, operations)
  {
    assert !KeyLess(operations[i - 1], operations[i]);
  }

  lemma ValidExtends(operations: seq<Operation>, i: nat)
    requires i < |operations| && AllValid(operations[..i]) && ValidOperation(operations[i])
    ensures AllValid(operations[..i + 1])
  {
    assert operations[..i + 1] == operations[..i] + [operations[i]];
  }

  lemma OrderExtends(operations: seq<Operation>, i: nat)
    requires i < |operations| && StrictlySorted(KeyLess, operations[..i])
    requires i > 0 ==> KeyLess(operations[i - 1], operations[i])
    ensures StrictlySorted(KeyLess, operations[..i + 1])
  {
    KeyLessIsOrder();
    StrictPrefixExtends(KeyLess, operations, i);
  }

  lemma KeyLessIsOrder()
    ensures WeakOrder(KeyLess)
  {
    StringOrder();
  }

  lemma ValidIsDetermined(operations: seq<Operation>)
    requires AllValid(operations)
    ensures Determined(KeyLess, operations)
  {
    forall i, j | 0 <= i < |operations| && 0 <= j < |operations| && operations[i] != operations[j]
      ensures KeyLess(operations[i], operations[j]) || KeyLess(operations[j], operations[i])
    {
      assert operations[i] in operations && operations[j] in operations;
      LessTotal(OperationKey(operations[i]), OperationKey(operations[j]));
      if OperationKey(operations[i]) == OperationKey(operations[j]) {
        OperationKeyInjective(operations[i], operations[j]);
      }
    }
  }

  // What canonicalisation returns, as a function of the input.
  ghost function Canonical(source: seq<Operation>): Option<seq<Operation>> {
    KeyLessIsOrder();
    if AllValid(source) && Distinct(source) then Some(Sort(KeyLess, source)) else None
  }

  // Fails exactly on an invalid or repeated operation.  `sorted` stands for
  // the outcome of sort.Slice, any permutation in key order.
  method CanonicalGenericOperations(source: seq<Operation>, sorted: seq<Operation>)
    returns (result: Option<seq<Operation>>)
    requires Sorted(KeyLess, sorted) && multiset(sorted) == multiset(source)
    ensures result == Canonical(source)
  {
    KeyLessIsOrder();
    PermutationKeeps(sorted, source);
    DistinctPermutation(sorted, source);
    var valid := ValidateGenericOperations(source, false);
    if !valid {
      return None;
    }
    ValidIsDetermined(sorted);
    var ordered := ValidateGenericOperations(sorted, true);
    if !ordered {
      if Distinct(sorted) { SortedDistinctIsStrict(KeyLess, sorted); }
      return None;
    }
    StrictIsDetermined(KeyLess, sorted);
    SortedUnique(KeyLess, sorted, Sort(KeyLess, source));
    return Some(sorted);
  }

  // The order of the input does not matter.
  lemma CanonicalIgnoresOrder(a: seq<Operation>, b: seq<Operation>)
    requires multiset(a) == multiset(b)
    ensures Canonical(a) == Canonical(b)
  {
    KeyLessIsOrder();
    PermutationKeeps(a, b);
    DistinctPermutation(a, b);
    if AllValid(a) {
      PermutationKeeps(a, Sort(KeyLess, a));
      ValidIsDetermined(Sort(KeyLess, a));
      SortedUnique(KeyLess, Sort(KeyLess, a), Sort(KeyLess, b));
    }
  }

  // Canonicalising twice changes nothing, and two inputs have the same
  // canonical form only when they hold the same operations.
  lemma CanonicalIsIdempotent(source: seq<Operation>)
    requires Canonical(source).Some?
    ensures Canonical(Canonical(source).value) == Canonical(source)
    ensures StrictlySorted(KeyLess, Canonical(source).value)
    ensures multiset(Canonical(source).value) == multiset(source)
  {
    var r := Canonical(source).value;
    CanonicalIgnoresOrder(r, source);
    KeyLessIsOrder();
    PermutationKeeps(r, source);
    DistinctPermutation(r, source);
    ValidIsDetermined(r);
    SortedDistinctIsStrict(KeyLess, r);
  }

  // What an operation takes and returns: copies and the like return what they take,
  // comparisons take two values of one type and answer with a boolean, a map is made
  // of an element and perhaps a size, an assertion also says whether it succeeded.
  predicate Fits(kind: OperationKind, takes: seq<TypeDocument>, gives: seq<TypeDocument>) {
    match kind
    case Copy => |takes| == 1 && gives == takes
    case Zero => takes == [] && |gives| == 1
    case EqualKind => |takes| == 2 && takes[1] == takes[0] && |gives| == 1 && gives[0].kind == BoolType
    case BinaryLess => |takes| == 2 && takes[1] == takes[0] && |gives| == 1 && gives[0].kind == BoolType
    case Convert => |takes| == |gives| == 1
    case MapConstruct =>
      && takes != [] && (|takes| == 1 || (|takes| == 2 && takes[1].kind == IntType))
      && |gives| == 1 && gives[0].kind == MapType && gives[0].element == Some(takes[0])
    case InterfaceAssertOk =>
      && |takes| == 1 && takes[0].kind.CallableParameter?
      && |gives| == 2 && gives[0].kind.TypeParameter? && gives[1].kind == BoolType
    case InvalidKind(_) => false
    case _ => |takes| == 1 && takes[0].kind.TypeParameter? && gives == takes
  }

  // The shape check compares keys, but accepts exactly what fits as type expressions.
  lemma ShapeIsStructural(o: Operation)
    requires forall t :: t in o.parameters || t in o.results ==> ValidType(t, 0)
    ensures ValidOperation(o) <==> Fits(o.kind, o.parameters, o.results)
  {
    if |o.parameters| == 1 && |o.results| >= 1 {
      SameKeyIffEqual(o.parameters[0], o.results[0]);
    }
    if |o.parameters| == 2 {
      SameKeyIffEqual(o.parameters[0], o.parameters[1]);
    }
    if o.kind == MapConstruct && |o.results| == 1 && o.parameters != [] && o.results[0].kind.MapType? && o.results[0].element.Some? {
      assert ValidType(o.results[0], 0) && ValidType(o.parameters[0], 0);
      if Same(o.parameters[0], o.results[0].element.value) {
        TypeKeyUnique(o.parameters[0], o.results[0].element.value, 0, 1, "", "");
      }
    }
  }
}
