// Type expressions of the provider manifest and the text key that stands in
// for their structural equality.
module ContractTypes {
  import opened Common
  import opened Text

  // The kind strings of the document; any other string is Unknown.
  datatype TypeKind = TypeParameter | CallableParameter | BoolType | IntType | SliceType | MapType | Unknown

  datatype TypeDocument = TypeDocument(
    kind: TypeKind,
    typeParameter: Option<int>,
    callableParameter: Option<int>,
    key: Option<TypeDocument>,
    element: Option<TypeDocument>)

  const MAXIMUM_DEPTH: nat := 32

  predicate ValidType(t: TypeDocument, depth: nat) {
    depth <= MAXIMUM_DEPTH &&
    match t.kind
    case TypeParameter =>
      t.typeParameter.Some? && t.typeParameter.value >= 0 &&
      t.callableParameter.None? && t.key.None? && t.element.None?
    case CallableParameter =>
      t.callableParameter.Some? && t.callableParameter.value >= 0 &&
      t.typeParameter.None? && t.key.None? && t.element.None?
    case BoolType =>
      t.typeParameter.None? && t.callableParameter.None? && t.key.None? && t.element.None?
    case IntType =>
      t.typeParameter.None? && t.callableParameter.None? && t.key.None? && t.element.None?
    case SliceType =>
      t.typeParameter.None? && t.callableParameter.None? && t.key.None? &&
      t.element.Some? && ValidType(t.element.value, depth + 1)
    case MapType =>
      t.typeParameter.None? && t.callableParameter.None? &&
      t.key.Some? && ValidType(t.key.value, depth + 1) &&
      t.element.Some? && ValidType(t.element.value, depth + 1)
    case Unknown => false
  }

  function Decimal(n: int): string {
    if n < 0 then "-" + Itoa(-n) else Itoa(n)
  }

  function TypeKey(t: TypeDocument): string {
    match t.kind
    case TypeParameter =>
      if t.typeParameter.None? then "parameter(?)"
      else "parameter(" + (Decimal(t.typeParameter.value) + ")")
    case CallableParameter =>
      if t.callableParameter.None? then "callable-parameter(?)"
      else "callable-parameter(" + (Decimal(t.callableParameter.value) + ")")
    case BoolType => "bool"
    case IntType => "int"
    case SliceType =>
      if t.element.None? then "slice(?)"
      else "slice(" + (TypeKey(t.element.value) + ")")
    case MapType =>
      if t.key.None? || t.element.None? then "map(?,?)"
      else "map(" + (TypeKey(t.key.value) + ("," + (TypeKey(t.element.value) + ")")))
    case Unknown => "invalid"
  }

  // The first character of a key tells the kind.
  function Initial(kind: TypeKind): char {
    match kind
    case TypeParameter => 'p'
    case CallableParameter => 'c'
    case BoolType => 'b'
    case IntType => 'i'
    case SliceType => 's'
    case MapType => 'm'
    case Unknown => '?'
  }

  lemma KeyInitial(t: TypeDocument, depth: nat)
    requires ValidType(t, depth)
    ensures TypeKey(t) != "" && TypeKey(t)[0] == Initial(t.kind)
  {
  }

  lemma NumberUnique(a: int, b: int, x: string, y: string)
    requires a >= 0 && b >= 0
    requires (Decimal(a) + ")") + x == (Decimal(b) + ")") + y
    ensures a == b && x == y
  {
    ItoaDigits(a);
    ItoaDigits(b);
    assert Decimal(a) + [')'] + x == Decimal(b) + [')'] + y;
    assert ')' !in Itoa(a) && ')' !in Itoa(b);
    SplitAtTerminator(Decimal(a), Decimal(b), ')', x, y);
    ItoaInjective(a, b);
  }

  // Keys are prefix-free and uniquely decodable: whatever follows, a key ends
  // in one place and was written for one type expression.
  lemma {:induction false} TypeKeyUnique(a: TypeDocument, b: TypeDocument, da: nat, db: nat, x: string, y: string)
    requires ValidType(a, da) && ValidType(b, db)
    requires TypeKey(a) + x == TypeKey(b) + y
    ensures a == b && x == y
    decreases MAXIMUM_DEPTH - da, 0
  {
    KeyInitial(a, da);
    KeyInitial(b, db);
    assert (TypeKey(a) + x)[0] == Initial(a.kind) && (TypeKey(b) + y)[0] == Initial(b.kind);
    match a.kind {
      case TypeParameter =>
        var m, n := a.typeParameter.value, b.typeParameter.value;
        Peel("parameter(", Decimal(m) + ")", Decimal(n) + ")", x, y);
        NumberUnique(m, n, x, y);
      case CallableParameter =>
        var m, n := a.callableParameter.value, b.callableParameter.value;
        Peel("callable-parameter(", Decimal(m) + ")", Decimal(n) + ")", x, y);
        NumberUnique(m, n, x, y);
      case BoolType => CancelPrefix("bool", x, y);
      case IntType => CancelPrefix("int", x, y);
      case SliceType =>
        SliceUnique("slice(", ")", a.element.value, b.element.value, da + 1, db + 1, x, y);
      case MapType =>
        MapUnique("map(", ",", ")", a.key.value, b.key.value, a.element.value, b.element.value,
          da + 1, db + 1, x, y);
      case Unknown =>
    }
  }

  lemma {:induction false} SliceUnique(open: string, close: string,
    e: TypeDocument, f: TypeDocument, da: nat, db: nat, x: string, y: string)
    requires ValidType(e, da) && ValidType(f, db)
    requires (open + (TypeKey(e) + close)) + x == (open + (TypeKey(f) + close)) + y
    ensures e == f && x == y
    decreases MAXIMUM_DEPTH - da, 1
  {
    Peel(open, TypeKey(e) + close, TypeKey(f) + close, x, y);
    Associate(TypeKey(e), close, x);
    Associate(TypeKey(f), close, y);
    TypeKeyUnique(e, f, da, db, close + x, close + y);
    CancelPrefix(close, x, y);
  }

  lemma {:induction false} MapUnique(open: string, comma: string, close: string,
    k: TypeDocument, l: TypeDocument, e: TypeDocument, f: TypeDocument, da: nat, db: nat, x: string, y: string)
    requires ValidType(k, da) && ValidType(l, db) && ValidType(e, da) && ValidType(f, db)
    requires (open + (TypeKey(k) + (comma + (TypeKey(e) + close)))) + x
          == (open + (TypeKey(l) + (comma + (TypeKey(f) + close)))) + y
    ensures k == l && e == f && x == y
    decreases MAXIMUM_DEPTH - da, 2
  {
    var s, t := comma + (TypeKey(e) + close), comma + (TypeKey(f) + close);
    Peel(open, TypeKey(k) + s, TypeKey(l) + t, x, y);
    Associate(TypeKey(k), s, x);
    Associate(TypeKey(l), t, y);
    TypeKeyUnique(k, l, da, db, s + x, t + y);
    SliceUnique(comma, close, e, f, da, db, x, y);
  }

  // Comparing keys is comparing type expressions.
  lemma SameKeyIffEqual(a: TypeDocument, b: TypeDocument)
    requires ValidType(a, 0) && ValidType(b, 0)
    ensures TypeKey(a) == TypeKey(b) <==> a == b
  {
    if TypeKey(a) == TypeKey(b) {
      TypeKeyUnique(a, b, 0, 0, "", "");
    }
  }

  // Neither a line break nor the letter that opens a signature.
  predicate Outside(c: char) {
    c == '\n' || c == 'f'
  }

  lemma Wrapped(open: string, inner: string, close: string, c: char)
    requires c !in open && c !in inner && c !in close
    ensures c !in open + (inner + close)
  {
  }

  lemma NumberHasNone(n: int, c: char)
    requires n >= 0 && Outside(c)
    ensures c !in Decimal(n)
  {
    ItoaDigits(n);
  }

  lemma {:induction false} KeyHasNone(t: TypeDocument, depth: nat, c: char)
    requires ValidType(t, depth) && Outside(c)
    ensures c !in TypeKey(t)
  {
    match t.kind {
      case TypeParameter =>
        NumberHasNone(t.typeParameter.value, c);
        Wrapped("parameter(", Decimal(t.typeParameter.value), ")", c);
      case CallableParameter =>
        NumberHasNone(t.callableParameter.value, c);
        Wrapped("callable-parameter(", Decimal(t.callableParameter.value), ")", c);
      case SliceType =>
        KeyHasNone(t.element.value, depth + 1, c);
        Wrapped("slice(", TypeKey(t.element.value), ")", c);
      case MapType =>
        KeyHasNone(t.key.value, depth + 1, c);
        KeyHasNone(t.element.value, depth + 1, c);
        Wrapped(",", TypeKey(t.element.value), ")", c);
        Wrapped("map(", TypeKey(t.key.value), "," + (TypeKey(t.element.value) + ")"), c);
      case _ =>
    }
  }
}
