// Identities of provider protocol interfaces: the text that is hashed.
module ProviderProtocol {
  import opened Common
  import opened Text
  import opened ContractTypes
  import opened GenericOperations

  datatype ProtocolMethod = ProtocolMethod(name: string, parameters: seq<TypeDocument>, results: seq<TypeDocument>)

  function Join(keys: seq<string>): string {
    if keys == [] then "" else if |keys| == 1 then keys[0] else keys[0] + ("," + Join(keys[1..]))
  }

  function Signature(m: ProtocolMethod): string {
    "func(" + (Join(Keys(m.parameters)) + (")(" + (Join(Keys(m.results)) + ")")))
  }

  function MethodKey(m: ProtocolMethod): string {
    m.name + Signature(m)
  }

  predicate NameLess(a: ProtocolMethod, b: ProtocolMethod) {
    Less(a.name, b.name)
  }

  // unicode.IsUpper is the parameter `upper`.
  predicate Exported(upper: char -> bool, name: string) {
    name != "" && upper(name[0])
  }

  predicate ValidMethod(upper: char -> bool, m: ProtocolMethod) {
    && Exported(upper, m.name)
    && (forall t :: t in m.parameters ==> ValidType(t, 0))
    && (forall t :: t in m.results ==> ValidType(t, 0))
  }

  ghost predicate ValidMethods(upper: char -> bool, methods: seq<ProtocolMethod>) {
    methods != [] && forall m :: m in methods ==> ValidMethod(upper, m)
  }

  ghost predicate NamesDistinct(methods: seq<ProtocolMethod>) {
    forall i, j :: 0 <= i < j < |methods| ==> methods[i].name != methods[j].name
  }

  lemma NameOrder()
    ensures WeakOrder(NameLess)
  {
    StringOrder();
  }

  function MethodLines(methods: seq<ProtocolMethod>): (lines: seq<string>)
    ensures |lines| == |methods| && forall i :: 0 <= i < |methods| ==> lines[i] == MethodKey(methods[i])
  {
    seq(|methods|, i requires 0 <= i < |methods| => MethodKey(methods[i]))
  }

  const SCHEMA := "provider-protocol/v1"

  function Payload(methods: seq<ProtocolMethod>): string {
    Lines([SCHEMA] + MethodLines(methods))
  }

  // The canonical method list, if the interface is accepted.
  ghost function CanonicalMethods(upper: char -> bool, source: seq<ProtocolMethod>): Option<seq<ProtocolMethod>> {
    NameOrder();
    if ValidMethods(upper, source) && NamesDistinct(source) then Some(Sort(NameLess, source)) else None
  }

  lemma NamesOrdered(methods: seq<ProtocolMethod>)
    requires Sorted(NameLess, methods)
    ensures NamesDistinct(methods) <==> StrictlySorted(NameLess, methods)
    ensures NamesDistinct(methods) ==> Determined(NameLess, methods) && Distinct(methods)
  {
    forall i, j | 0 <= i < j < |methods|
      ensures NameLess(methods[i], methods[j]) <==> methods[i].name != methods[j].name
      ensures methods[i].name != methods[j].name ==> methods[i] != methods[j]
    {
      LessTotal(methods[i].name, methods[j].name);
    }
    if NamesDistinct(methods) {
      NameOrder();
      assert StrictlySorted(NameLess, methods);
      StrictIsDetermined(NameLess, methods);
    }
  }

  lemma NamesDistinctPermutes(a: seq<ProtocolMethod>, b: seq<ProtocolMethod>)
    requires multiset(a) == multiset(b) && NamesDistinct(a)
    ensures NamesDistinct(b)
  {
    PermutationKeeps(a, b);
    assert Distinct(a);
    DistinctPermutation(a, b);
    forall i, j | 0 <= i < j < |b| ensures b[i].name != b[j].name {
      assert b[i] in b && b[j] in b;
      var k :| 0 <= k < |a| && a[k] == b[i];
      var l :| 0 <= l < |a| && a[l] == b[j];
      assert b[i] != b[j];
    }
  }

  method ValidateProtocol(upper: char -> bool, methods: seq<ProtocolMethod>) returns (ok: bool)
    ensures ok <==> ValidMethods(upper, methods) && StrictlySorted(NameLess, methods)
  {
    if methods == [] {
      return false;
    }
    var previous := "";
    for i := 0 to |methods|
      invariant forall j :: 0 <= j < i ==> ValidMethod(upper, methods[j])
      invariant StrictlySorted(NameLess, methods[..i])
      invariant previous == if i == 0 then "" else methods[i - 1].name
    {
      var m := methods[i];
      assert m in methods;
      if !Exported(upper, m.name) || !Less(previous, m.name) {
        assert i > 0 ==> methods[i - 1] in methods;
        assert i == 0 && Exported(upper, m.name) ==> Less(previous, m.name);
        assert i > 0 && Exported(upper, m.name) ==> !NameLess(methods[i - 1], methods[i]);
        return false;
      }
      if !ValidMethod(upper, m) {
        return false;
      }
      NameOrder();
      StrictExtends(NameLess, methods[..i], m);
      assert methods[..i + 1] == methods[..i] + [m];
      previous := m.name;
    }
    assert methods[..|methods|] == methods;
    return true;
  }

  lemma NextLine(first: string, lines: seq<string>, i: nat)
    requires i < |lines|
    ensures Lines([first] + lines[..i + 1]) == Lines([first] + lines[..i]) + (lines[i] + "\n")
  {
    LinesOfOne(lines[i]);
    LinesAppend([first] + lines[..i], [lines[i]]);
    assert [first] + lines[..i + 1] == ([first] + lines[..i]) + [lines[i]];
  }

  method WritePayload(methods: seq<ProtocolMethod>) returns (text: string)
    ensures text == Payload(methods)
  {
    ghost var lines := MethodLines(methods);
    text := SCHEMA + "\n";
    LinesOfOne(SCHEMA);
    for i := 0 to |methods|
      invariant text == Lines([SCHEMA] + lines[..i])
    {
      text := text + (MethodKey(methods[i]) + "\n");
      NextLine(SCHEMA, lines, i);
    }
    assert lines[..|methods|] == lines;
  }

  // The hashed text, for the outcome `sorted` of sorting the methods by name.
  method BuildIdentityPayload(upper: char -> bool, source: seq<ProtocolMethod>, sorted: seq<ProtocolMethod>)
    returns (payload: Option<string>)
    requires Sorted(NameLess, sorted) && multiset(sorted) == multiset(source)
    ensures payload.Some? <==> CanonicalMethods(upper, source).Some?
    ensures payload.Some? ==> payload.value == Payload(CanonicalMethods(upper, source).value)
  {
    PermutationKeeps(sorted, source);
    NamesOrdered(sorted);
    if NamesDistinct(source) { NamesDistinctPermutes(source, sorted); }
    if NamesDistinct(sorted) { NamesDistinctPermutes(sorted, source); }
    var ok := ValidateProtocol(upper, sorted);
    if !ok {
      return None;
    }
    NameOrder();
    SortedUnique(NameLess, sorted, Sort(NameLess, source));
    var text := WritePayload(sorted);
    return Some(text);
  }

  // ---- Unique decodability -------------------------------------------------

  // Joined keys end at the first closing parenthesis that no key owns.
  lemma {:induction false} JoinUnique(a: seq<TypeDocument>, b: seq<TypeDocument>, x: string, y: string)
    requires forall t :: t in a || t in b ==> ValidType(t, 0)
    requires x != "" && x[0] == ')' && y != "" && y[0] == ')'
    requires Join(Keys(a)) + x == Join(Keys(b)) + y
    ensures a == b && x == y
  {
    JoinHead(a, x);
    JoinHead(b, y);
    if a != [] {
      var r, s := JoinTail(a[1..]), JoinTail(b[1..]);
      JoinSplit(a);
      JoinSplit(b);
      Associate(TypeKey(a[0]), r, x);
      Associate(TypeKey(b[0]), s, y);
      TypeKeyUnique(a[0], b[0], 0, 0, r + x, s + y);
      assert (r + x)[0] == if |a| == 1 then ')' else ',';
      assert (s + y)[0] == if |b| == 1 then ')' else ',';
      if |a| > 1 {
        Peel(",", Join(Keys(a[1..])), Join(Keys(b[1..])), x, y);
        JoinUnique(a[1..], b[1..], x, y);
      } else {
        assert a[1..] == b[1..] == [];
        assert r + x == x && s + y == y;
      }
      assert a == [a[0]] + a[1..] && b == [b[0]] + b[1..];
    } else {
      assert Join(Keys(a)) + x == x && Join(Keys(b)) + y == y;
    }
  }

  function JoinTail(rest: seq<TypeDocument>): string {
    if rest == [] then "" else "," + Join(Keys(rest))
  }

  lemma JoinSplit(a: seq<TypeDocument>)
    requires a != []
    ensures Join(Keys(a)) == TypeKey(a[0]) + JoinTail(a[1..])
  {
    assert Keys(a)[1..] == Keys(a[1..]);
  }

  lemma JoinHead(a: seq<TypeDocument>, x: string)
    requires forall t :: t in a ==> ValidType(t, 0)
    requires x != "" && x[0] == ')'
    ensures Join(Keys(a)) + x != ""
    ensures a == [] <==> (Join(Keys(a)) + x)[0] == ')'
  {
    if a != [] {
      KeyInitial(a[0], 0);
      JoinSplit(a);
      assert (Join(Keys(a)) + x)[0] == TypeKey(a[0])[0];
    }
  }

  // No type key holds an 'f', so a key splits at the last one: whatever the name.
  lemma MethodKeyInjective(upper: char -> bool, a: ProtocolMethod, b: ProtocolMethod)
    requires ValidMethod(upper, a) && ValidMethod(upper, b)
    requires MethodKey(a) == MethodKey(b)
    ensures a == b
  {
    var m, e := ")(", ")";
    var p, q := Join(Keys(a.parameters)), Join(Keys(b.parameters));
    var r, s := Join(Keys(a.results)), Join(Keys(b.results));
    BehindOpening(a, 'f');
    BehindOpening(b, 'f');
    KeySplit(a.name, b.name, "unc(" + (p + (m + (r + e))), "unc(" + (q + (m + (s + e))));
    CancelPrefix("unc(", p + (m + (r + e)), q + (m + (s + e)));
    JoinUnique(a.parameters, b.parameters, m + (r + e), m + (s + e));
    CancelPrefix(m, r + e, s + e);
    JoinUnique(a.results, b.results, e, e);
  }

  lemma KeySplit(a: string, b: string, x: string, y: string)
    requires 'f' !in x && 'f' !in y && a + ("f" + x) == b + ("f" + y)
    ensures a == b && x == y
  {
    assert a + ['f'] + x == a + ("f" + x);
    assert b + ['f'] + y == b + ("f" + y);
    SplitAtLast(a, b, 'f', x, y);
  }

  lemma {:induction false} JoinHasNone(types: seq<TypeDocument>, c: char)
    requires Outside(c) && forall t :: t in types ==> ValidType(t, 0)
    ensures c !in Join(Keys(types))
  {
    if types != [] {
      KeyHasNone(types[0], 0, c);
      JoinSplit(types);
      JoinHasNone(types[1..], c);
    }
  }

  lemma BehindOpening(m: ProtocolMethod, c: char)
    requires Outside(c) && forall t :: t in m.parameters || t in m.results ==> ValidType(t, 0)
    ensures var rest := "unc(" + (Join(Keys(m.parameters)) + (")(" + (Join(Keys(m.results)) + ")")));
      c !in rest && Signature(m) == "f" + rest
  {
    JoinHasNone(m.parameters, c);
    JoinHasNone(m.results, c);
  }

  lemma MethodKeyIsLine(upper: char -> bool, m: ProtocolMethod)
    requires ValidMethod(upper, m)
    ensures '\n' !in m.name ==> Plain(MethodKey(m), '\n')
  {
    BehindOpening(m, '\n');
  }

  // For interfaces whose method names have no line break, equal hashed texts mean
  // the same methods in any order, and only they do.
  lemma PayloadDecidesMethods(upper: char -> bool, a: seq<ProtocolMethod>, b: seq<ProtocolMethod>)
    requires CanonicalMethods(upper, a).Some? && CanonicalMethods(upper, b).Some?
    requires forall m :: m in a || m in b ==> '\n' !in m.name
    ensures Payload(CanonicalMethods(upper, a).value) == Payload(CanonicalMethods(upper, b).value)
      <==> multiset(a) == multiset(b)
  {
    NameOrder();
    var c, d := CanonicalMethods(upper, a).value, CanonicalMethods(upper, b).value;
    PermutationKeeps(a, c);
    PermutationKeeps(b, d);
    NamesDistinctPermutes(a, c);
    NamesOrdered(c);
    if multiset(a) == multiset(b) {
      SortedUnique(NameLess, c, d);
    }
    if Payload(c) == Payload(d) {
      var k, l := MethodLines(c), MethodLines(d);
      PayloadLines(upper, c);
      PayloadLines(upper, d);
      LinesUnique([SCHEMA] + k, [SCHEMA] + l);
      CancelPrefix([SCHEMA], k, l);
      forall i | 0 <= i < |c| ensures c[i] == d[i] {
        assert c[i] in c && d[i] in d;
        assert k[i] == l[i];
        MethodKeyInjective(upper, c[i], d[i]);
      }
      assert c == d;
    }
  }

  lemma PayloadLines(upper: char -> bool, methods: seq<ProtocolMethod>)
    requires forall m :: m in methods ==> ValidMethod(upper, m) && '\n' !in m.name
    ensures forall l :: l in [SCHEMA] + MethodLines(methods) ==> Plain(l, '\n')
  {
    var lines := MethodLines(methods);
    assert '\n' !in SCHEMA;
    forall i | 0 <= i < |lines| ensures '\n' !in lines[i] {
      assert methods[i] in methods;
      MethodKeyIsLine(upper, methods[i]);
    }
  }

  lemma CanonicalFacts(upper: char -> bool, a: seq<ProtocolMethod>)
    requires CanonicalMethods(upper, a).Some?
    ensures var c := CanonicalMethods(upper, a).value;
      ValidMethods(upper, c) && StrictlySorted(NameLess, c) && |c| == |a|
  {
    NameOrder();
    var c := CanonicalMethods(upper, a).value;
    PermutationKeeps(a, c);
    NamesDistinctPermutes(a, c);
    NamesOrdered(c);
  }

  lemma StrictIsCanonical(upper: char -> bool, c: seq<ProtocolMethod>)
    requires ValidMethods(upper, c) && StrictlySorted(NameLess, c)
    ensures CanonicalMethods(upper, c) == Some(c)
  {
    NameOrder();
    StrictIsDetermined(NameLess, c);
    NamesOrdered(c);
    SortedUnique(NameLess, c, Sort(NameLess, c));
  }

  // The method whose key is the text of all methods but for the last line break.
  function Merged(methods: seq<ProtocolMethod>): ProtocolMethod
    requires methods != []
  {
    var last := methods[|methods| - 1];
    last.(name := Lines(MethodLines(methods[..|methods| - 1])) + last.name)
  }

  lemma MergedPayload(methods: seq<ProtocolMethod>)
    requires methods != []
    ensures Payload([Merged(methods)]) == Payload(methods)
  {
    var init, last := methods[..|methods| - 1], methods[|methods| - 1];
    var merged := Merged(methods);
    assert methods == init + [last];
    assert [SCHEMA] + MethodLines(methods) == ([SCHEMA] + MethodLines(init)) + [MethodKey(last)];
    assert MethodLines([merged]) == [MethodKey(merged)];
    LinesAppend([SCHEMA] + MethodLines(init), [MethodKey(last)]);
    LinesAppend([SCHEMA], MethodLines(init));
    LinesAppend([SCHEMA], [MethodKey(merged)]);
    LinesOfOne(MethodKey(last));
    LinesOfOne(MethodKey(merged));
    Regroup(Lines([SCHEMA]), Lines(MethodLines(init)), last.name, Signature(last), "\n");
  }

  lemma Regroup(s: string, i: string, n: string, g: string, e: string)
    ensures (s + i) + ((n + g) + e) == s + (((i + n) + g) + e)
  {
  }

  lemma MergedIsValid(upper: char -> bool, methods: seq<ProtocolMethod>)
    requires ValidMethods(upper, methods)
    ensures CanonicalMethods(upper, [Merged(methods)]) == Some([Merged(methods)])
  {
    var last := methods[|methods| - 1];
    assert last in methods && methods[0] in methods;
    if |methods| > 1 {
      var lines := MethodLines(methods[..|methods| - 1]);
      assert lines[0] == methods[0].name + Signature(methods[0]);
      assert Merged(methods).name[0] == methods[0].name[0];
    }
    StrictIsCanonical(upper, [Merged(methods)]);
  }

  // With line breaks allowed the texts collide: every accepted interface shares its
  // text with an interface of a single method.
  lemma UnrestrictedNamesCollide(upper: char -> bool, a: seq<ProtocolMethod>)
    requires CanonicalMethods(upper, a).Some?
    ensures exists b ::
      CanonicalMethods(upper, b).Some? && |b| == 1 &&
      Payload(CanonicalMethods(upper, b).value) == Payload(CanonicalMethods(upper, a).value)
  {
    CanonicalFacts(upper, a);
    var c := CanonicalMethods(upper, a).value;
    MergedPayload(c);
    MergedIsValid(upper, c);
  }

  // Another accepted interface has the text, whatever the names in it.
  ghost predicate Collides(upper: char -> bool, a: seq<ProtocolMethod>, b: seq<ProtocolMethod>)
    requires CanonicalMethods(upper, a).Some?
  {
    && CanonicalMethods(upper, b).Some? && multiset(b) != multiset(a)
    && Payload(CanonicalMethods(upper, b).value) == Payload(CanonicalMethods(upper, a).value)
  }

  // Names without line breaks on one side protect exactly the interfaces of one method.
  lemma CollidesIffMoreMethods(upper: char -> bool, a: seq<ProtocolMethod>)
    requires CanonicalMethods(upper, a).Some? && forall m :: m in a ==> '\n' !in m.name
    ensures (exists b :: Collides(upper, a, b)) <==> |a| != 1
  {
    if |a| == 1 {
      forall b ensures !Collides(upper, a, b) {
        if Collides(upper, a, b) {
          SingleIsUnique(upper, a, b);
        }
      }
    } else {
      UnrestrictedNamesCollide(upper, a);
      var b :| CanonicalMethods(upper, b).Some? && |b| == 1 &&
        Payload(CanonicalMethods(upper, b).value) == Payload(CanonicalMethods(upper, a).value);
      assert |multiset(b)| == |b| && |multiset(a)| == |a|;
      assert Collides(upper, a, b);
    }
  }

  lemma SingleIsUnique(upper: char -> bool, a: seq<ProtocolMethod>, b: seq<ProtocolMethod>)
    requires CanonicalMethods(upper, a).Some? && CanonicalMethods(upper, b).Some?
    requires |a| == 1 && '\n' !in a[0].name
    requires Payload(CanonicalMethods(upper, b).value) == Payload(CanonicalMethods(upper, a).value)
    ensures multiset(b) == multiset(a)
  {
    NameOrder();
    var c, d := CanonicalMethods(upper, a).value, CanonicalMethods(upper, b).value;
    CanonicalFacts(upper, b);
    PermutationKeeps(a, c);
    assert a[0] in a && c == [a[0]];
    PayloadLines(upper, c);
    PlainLinesUnique([SCHEMA] + MethodLines(c), [SCHEMA] + MethodLines(d));
    assert |d| == 1;
    CancelPrefix([SCHEMA], MethodLines(c), MethodLines(d));
    assert MethodLines(c)[0] == MethodLines(d)[0] && d[0] in d;
    MethodKeyInjective(upper, c[0], d[0]);
    assert c == d;
  }
}
