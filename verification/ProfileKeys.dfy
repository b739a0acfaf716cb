// Keys of provider callable profiles: the text that is hashed.
module ProfileKeys {
  import opened Common
  import opened Text

  datatype Effect = Synchronous | InvalidEffect(text: string)
  datatype KeyMethod = KeyMethod(identity: string, effect: Effect)
  datatype KeyInterface = KeyInterface(identity: string, methods: seq<KeyMethod>)
  datatype KeyCallable = KeyCallable(parameter: int, effect: Effect)
  datatype Profile = Profile(interfaces: seq<KeyInterface>, callables: seq<KeyCallable>)

  predicate MethodLess(a: KeyMethod, b: KeyMethod) { Less(a.identity, b.identity) }
  predicate InterfaceLess(a: KeyInterface, b: KeyInterface) { Less(a.identity, b.identity) }
  predicate CallableLess(a: KeyCallable, b: KeyCallable) { a.parameter < b.parameter }

  lemma Orders()
    ensures WeakOrder(MethodLess) && WeakOrder(InterfaceLess) && WeakOrder(CallableLess)
  {
    StringOrder();
  }

  const SCHEMA := "provider-callable-profile/v2"

  function InterfaceLine(identity: string): string { "interface=" + identity }
  function MethodLine(m: KeyMethod): string { "method=" + (m.identity + "|effect=sync") }
  function CallableLine(c: KeyCallable): string
    requires c.parameter >= 0
  {
    "callable-parameter=" + (Itoa(c.parameter) + "|effect=sync")
  }

  function MethodLines(methods: seq<KeyMethod>): seq<string> {
    if methods == [] then [] else [MethodLine(methods[0])] + MethodLines(methods[1..])
  }

  function InterfaceLines(interfaces: seq<KeyInterface>): seq<string> {
    if interfaces == [] then []
    else ([InterfaceLine(interfaces[0].identity)] + MethodLines(interfaces[0].methods)) + InterfaceLines(interfaces[1..])
  }

  function CallableLines(callables: seq<KeyCallable>): seq<string>
    requires forall c :: c in callables ==> c.parameter >= 0
  {
    if callables == [] then [] else [CallableLine(callables[0])] + CallableLines(callables[1..])
  }

  ghost predicate ValidMethods(methods: seq<KeyMethod>) {
    && methods != []
    && (forall m :: m in methods ==> m.identity != "" && m.effect == Synchronous)
    && StrictlySorted(MethodLess, methods)
  }

  ghost predicate ValidInterfaces(interfaces: seq<KeyInterface>) {
    && (forall i :: i in interfaces ==> i.identity != "" && ValidMethods(i.methods))
    && StrictlySorted(InterfaceLess, interfaces)
  }

  ghost predicate ValidCallables(callables: seq<KeyCallable>) {
    && (forall c :: c in callables ==> c.parameter >= 0 && c.effect == Synchronous)
    && StrictlySorted(CallableLess, callables)
  }

  ghost predicate Accepted(p: Profile) {
    |p.interfaces| + |p.callables| != 0 && ValidInterfaces(p.interfaces) && ValidCallables(p.callables)
  }

  function ProfileLines(p: Profile): seq<string>
    requires forall c :: c in p.callables ==> c.parameter >= 0
  {
    ([SCHEMA] + InterfaceLines(p.interfaces)) + CallableLines(p.callables)
  }

  function Payload(p: Profile): string
    requires forall c :: c in p.callables ==> c.parameter >= 0
  {
    Lines(ProfileLines(p))
  }

  // ---- Sorting ------------------------------------------------------------

  function SortMethods(i: KeyInterface): KeyInterface {
    Orders();
    i.(methods := Sort(MethodLess, i.methods))
  }

  function SortEach(interfaces: seq<KeyInterface>): (r: seq<KeyInterface>)
    ensures |r| == |interfaces| && forall k :: 0 <= k < |r| ==> r[k] == SortMethods(interfaces[k])
  {
    seq(|interfaces|, k requires 0 <= k < |interfaces| => SortMethods(interfaces[k]))
  }

  function Canonical(p: Profile): Profile {
    Orders();
    Profile(Sort(InterfaceLess, SortEach(p.interfaces)), Sort(CallableLess, p.callables))
  }

  // ---- Building the text --------------------------------------------------

  method WriteMethods(text: string, methods: seq<KeyMethod>) returns (written: Option<string>)
    requires methods != []
    ensures written.Some? <==> ValidMethods(methods)
    ensures written.Some? ==> written.value == text + Lines(MethodLines(methods))
  {
    var result, previous := text, "";
    for k := 0 to |methods|
      invariant result == text + Lines(MethodLines(methods[..k]))
      invariant previous == if k == 0 then "" else methods[k - 1].identity
      invariant forall m :: m in methods[..k] ==> m.identity != "" && m.effect == Synchronous
      invariant StrictlySorted(MethodLess, methods[..k])
    {
      var m := methods[k];
      assert m in methods;
      if m.identity == "" || !Less(previous, m.identity) || m.effect != Synchronous {
        assert k > 0 && !Less(previous, m.identity) ==> !MethodLess(methods[k - 1], methods[k]);
        return None;
      }
      previous := m.identity;
      MethodAdded(text, methods, k);
      result := result + (MethodLine(m) + "\n");
    }
    assert methods[..|methods|] == methods;
    return Some(result);
  }

  lemma MethodAdded(text: string, methods: seq<KeyMethod>, k: nat)
    requires k < |methods| && StrictlySorted(MethodLess, methods[..k])
    requires k > 0 ==> MethodLess(methods[k - 1], methods[k])
    ensures StrictlySorted(MethodLess, methods[..k + 1])
    ensures forall m :: m in methods[..k + 1] ==> m in methods[..k] || m == methods[k]
    ensures text + Lines(MethodLines(methods[..k + 1])) ==
      (text + Lines(MethodLines(methods[..k]))) + (MethodLine(methods[k]) + "\n")
  {
    Orders();
    StrictPrefixExtends(MethodLess, methods, k);
    assert methods[..k + 1] == methods[..k] + [methods[k]];
    MethodWritten(methods[..k], methods[k]);
    Associate(text, Lines(MethodLines(methods[..k])), MethodLine(methods[k]) + "\n");
  }

  lemma CallableAdded(text: string, callables: seq<KeyCallable>, k: nat)
    requires k < |callables| && ValidCallables(callables[..k])
    requires callables[k].parameter >= 0 && callables[k].effect == Synchronous
    requires k > 0 ==> callables[k - 1].parameter < callables[k].parameter
    ensures ValidCallables(callables[..k + 1])
    ensures text + Lines(CallableLines(callables[..k + 1])) ==
      (text + Lines(CallableLines(callables[..k]))) + (CallableLine(callables[k]) + "\n")
  {
    Orders();
    StrictPrefixExtends(CallableLess, callables, k);
    assert callables[..k + 1] == callables[..k] + [callables[k]];
    CallableWritten(callables[..k], callables[k]);
    Associate(text, Lines(CallableLines(callables[..k])), CallableLine(callables[k]) + "\n");
  }

  lemma CallableRefused(callables: seq<KeyCallable>, k: nat)
    requires k < |callables|
    requires callables[k].parameter < 0 || callables[k].effect != Synchronous
      || (k > 0 && callables[k].parameter <= callables[k - 1].parameter)
    ensures !ValidCallables(callables)
  {
    assert callables[k] in callables;
    assert k > 0 && callables[k].parameter <= callables[k - 1].parameter ==> !CallableLess(callables[k - 1], callables[k]);
  }

  method WriteCallables(text: string, callables: seq<KeyCallable>) returns (written: Option<string>)
    ensures written.Some? <==> ValidCallables(callables)
    ensures written.Some? ==> written.value == text + Lines(CallableLines(callables))
  {
    var result, previous := text, -1;
    for k := 0 to |callables|
      invariant previous == if k == 0 then -1 else callables[k - 1].parameter
      invariant ValidCallables(callables[..k])
      invariant result == text + Lines(CallableLines(callables[..k]))
    {
      var c := callables[k];
      if c.parameter < 0 || c.parameter <= previous || c.effect != Synchronous {
        CallableRefused(callables, k);
        return None;
      }
      CallableAdded(text, callables, k);
      previous := c.parameter;
      result := result + (CallableLine(c) + "\n");
    }
    assert callables[..|callables|] == callables;
    return Some(result);
  }

  method WriteInterfaces(text: string, interfaces: seq<KeyInterface>) returns (written: Option<string>)
    ensures written.Some? <==> ValidInterfaces(interfaces)
    ensures written.Some? ==> written.value == text + Lines(InterfaceLines(interfaces))
  {
    var result, previous := text, "";
    for k := 0 to |interfaces|
      invariant result == text + Lines(InterfaceLines(interfaces[..k]))
      invariant previous == if k == 0 then "" else interfaces[k - 1].identity
      invariant forall i :: i in interfaces[..k] ==> i.identity != "" && ValidMethods(i.methods)
      invariant StrictlySorted(InterfaceLess, interfaces[..k])
    {
      var i := interfaces[k];
      assert i in interfaces;
      if i.identity == "" || !Less(previous, i.identity) || i.methods == [] {
        assert k > 0 && !Less(previous, i.identity) ==> !InterfaceLess(interfaces[k - 1], interfaces[k]);
        return None;
      }
      previous := i.identity;
      var head := result + (InterfaceLine(i.identity) + "\n");
      var methods := WriteMethods(head, i.methods);
      if methods.None? {
        return None;
      }
      InterfaceAdded(text, interfaces, k);
      result := methods.value;
    }
    assert interfaces[..|interfaces|] == interfaces;
    return Some(result);
  }

  lemma InterfaceAdded(text: string, interfaces: seq<KeyInterface>, k: nat)
    requires k < |interfaces| && StrictlySorted(InterfaceLess, interfaces[..k])
    requires k > 0 ==> InterfaceLess(interfaces[k - 1], interfaces[k])
    ensures StrictlySorted(InterfaceLess, interfaces[..k + 1])
    ensures forall i :: i in interfaces[..k + 1] ==> i in interfaces[..k] || i == interfaces[k]
    ensures text + Lines(InterfaceLines(interfaces[..k + 1])) ==
      ((text + Lines(InterfaceLines(interfaces[..k]))) + (InterfaceLine(interfaces[k].identity) + "\n"))
        + Lines(MethodLines(interfaces[k].methods))
  {
    Orders();
    StrictPrefixExtends(InterfaceLess, interfaces, k);
    assert interfaces[..k + 1] == interfaces[..k] + [interfaces[k]];
    InterfaceWritten(interfaces[..k], interfaces[k]);
    var before, line := Lines(InterfaceLines(interfaces[..k])), InterfaceLine(interfaces[k].identity) + "\n";
    Associate(text, before, line);
    Associate(text, before + line, Lines(MethodLines(interfaces[k].methods)));
  }

  // Fails exactly when the sorted profile is not accepted.
  method BuildProviderCallableProfileKey(source: Profile) returns (payload: Option<string>)
    ensures payload.Some? <==> Accepted(Canonical(source))
    ensures payload.Some? ==> payload.value == Payload(Canonical(source))
  {
    var p := Canonical(source);
    if |p.interfaces| + |p.callables| == 0 {
      return None;
    }
    var head := SCHEMA + "\n";
    var interfaces := WriteInterfaces(head, p.interfaces);
    if interfaces.None? {
      return None;
    }
    payload := WriteCallables(interfaces.value, p.callables);
    if payload.Some? {
      PayloadWritten(p);
    }
  }

  lemma PayloadWritten(p: Profile)
    requires forall c :: c in p.callables ==> c.parameter >= 0
    ensures Payload(p) == ((SCHEMA + "\n") + Lines(InterfaceLines(p.interfaces))) + Lines(CallableLines(p.callables))
  {
    LinesAppend([SCHEMA] + InterfaceLines(p.interfaces), CallableLines(p.callables));
    LinesAppend([SCHEMA], InterfaceLines(p.interfaces));
    LinesOfOne(SCHEMA);
  }

  lemma InterfaceWritten(before: seq<KeyInterface>, i: KeyInterface)
    ensures (Lines(InterfaceLines(before)) + (InterfaceLine(i.identity) + "\n")) + Lines(MethodLines(i.methods))
         == Lines(InterfaceLines(before + [i]))
  {
    var line, methods := [InterfaceLine(i.identity)], MethodLines(i.methods);
    InterfaceLinesAppend(before, [i]);
    assert [i][1..] == [];
    assert InterfaceLines([i]) == line + methods;
    LinesAppend(InterfaceLines(before), line + methods);
    LinesAppend(line, methods);
    LinesOfOne(InterfaceLine(i.identity));
    Associate(Lines(InterfaceLines(before)), Lines(line), Lines(methods));
  }

  lemma MethodWritten(before: seq<KeyMethod>, m: KeyMethod)
    ensures Lines(MethodLines(before + [m])) == Lines(MethodLines(before)) + (MethodLine(m) + "\n")
  {
    MethodLinesAppend(before, [m]);
    assert [m][1..] == [];
    assert MethodLines([m]) == [MethodLine(m)];
    LinesAppend(MethodLines(before), [MethodLine(m)]);
    LinesOfOne(MethodLine(m));
  }

  lemma CallableWritten(before: seq<KeyCallable>, c: KeyCallable)
    requires c.parameter >= 0 && forall b :: b in before ==> b.parameter >= 0
    ensures Lines(CallableLines(before + [c])) == Lines(CallableLines(before)) + (CallableLine(c) + "\n")
  {
    CallableLinesAppend(before, [c]);
    assert [c][1..] == [];
    assert CallableLines([c]) == [CallableLine(c)];
    LinesAppend(CallableLines(before), [CallableLine(c)]);
    LinesOfOne(CallableLine(c));
  }

  lemma ConsAppend<T>(a: seq<T>, b: seq<T>)
    requires a != []
    ensures (a + b) != [] && (a + b)[0] == a[0] && (a + b)[1..] == a[1..] + b
  {
  }

  lemma {:induction false} MethodLinesAppend(a: seq<KeyMethod>, b: seq<KeyMethod>)
    ensures MethodLines(a + b) == MethodLines(a) + MethodLines(b)
  {
    if a == [] {
      assert a + b == b;
    } else {
      MethodLinesAppend(a[1..], b);
      ConsAppend(a, b);
      Associate([MethodLine(a[0])], MethodLines(a[1..]), MethodLines(b));
    }
  }

  lemma {:induction false} InterfaceLinesAppend(a: seq<KeyInterface>, b: seq<KeyInterface>)
    ensures InterfaceLines(a + b) == InterfaceLines(a) + InterfaceLines(b)
  {
    if a == [] {
      assert a + b == b;
    } else {
      InterfaceLinesAppend(a[1..], b);
      ConsAppend(a, b);
      Associate([InterfaceLine(a[0].identity)] + MethodLines(a[0].methods), InterfaceLines(a[1..]), InterfaceLines(b));
    }
  }

  lemma {:induction false} CallableLinesAppend(a: seq<KeyCallable>, b: seq<KeyCallable>)
    requires forall c :: c in a || c in b ==> c.parameter >= 0
    ensures CallableLines(a + b) == CallableLines(a) + CallableLines(b)
  {
    if a == [] {
      assert a + b == b;
    } else {
      CallableLinesAppend(a[1..], b);
      ConsAppend(a, b);
      Associate([CallableLine(a[0])], CallableLines(a[1..]), CallableLines(b));
    }
  }

  // ---- Unique decodability --------------------------------------------------

  predicate NoLineStarts(lines: seq<string>, initial: char) {
    lines != [] ==> lines[0] != "" && lines[0][0] != initial
  }

  lemma MethodLineInjective(m: KeyMethod, n: KeyMethod)
    requires m.effect == Synchronous && n.effect == Synchronous && MethodLine(m) == MethodLine(n)
    ensures m == n
  {
    CancelPrefix("method=", m.identity + "|effect=sync", n.identity + "|effect=sync");
    CancelSuffix(m.identity, n.identity, "|effect=sync");
  }

  lemma CallableLineInjective(c: KeyCallable, d: KeyCallable)
    requires c.parameter >= 0 && c.effect == Synchronous && d.parameter >= 0 && d.effect == Synchronous
    requires CallableLine(c) == CallableLine(d)
    ensures c == d
  {
    CancelPrefix("callable-parameter=", Itoa(c.parameter) + "|effect=sync", Itoa(d.parameter) + "|effect=sync");
    CancelSuffix(Itoa(c.parameter), Itoa(d.parameter), "|effect=sync");
    ItoaInjective(c.parameter, d.parameter);
  }

  lemma {:induction false} MethodLinesUnique(a: seq<KeyMethod>, b: seq<KeyMethod>, x: seq<string>, y: seq<string>)
    requires forall m :: m in a || m in b ==> m.effect == Synchronous
    requires NoLineStarts(x, 'm') && NoLineStarts(y, 'm')
    requires MethodLines(a) + x == MethodLines(b) + y
    ensures a == b && x == y
  {
    assert a != [] ==> (MethodLines(a) + x)[0] == MethodLine(a[0]);
    assert b != [] ==> (MethodLines(b) + y)[0] == MethodLine(b[0]);
    assert a == [] ==> MethodLines(a) + x == x;
    assert b == [] ==> MethodLines(b) + y == y;
    if a != [] {
      MethodLineInjective(a[0], b[0]);
      Peel([MethodLine(a[0])], MethodLines(a[1..]), MethodLines(b[1..]), x, y);
      MethodLinesUnique(a[1..], b[1..], x, y);
      assert a == [a[0]] + a[1..] && b == [b[0]] + b[1..];
    }
  }

  lemma {:induction false} InterfaceLinesUnique(a: seq<KeyInterface>, b: seq<KeyInterface>, x: seq<string>, y: seq<string>)
    requires forall i :: i in a || i in b ==> ValidMethods(i.methods)
    requires NoLineStarts(x, 'm') && NoLineStarts(y, 'm') && NoLineStarts(x, 'i') && NoLineStarts(y, 'i')
    requires InterfaceLines(a) + x == InterfaceLines(b) + y
    ensures a == b && x == y
  {
    assert a != [] ==> (InterfaceLines(a) + x)[0] == InterfaceLine(a[0].identity);
    assert b != [] ==> (InterfaceLines(b) + y)[0] == InterfaceLine(b[0].identity);
    assert a == [] ==> InterfaceLines(a) + x == x;
    assert b == [] ==> InterfaceLines(b) + y == y;
    if a != [] {
      CancelPrefix("interface=", a[0].identity, b[0].identity);
      var r, s := InterfaceLines(a[1..]), InterfaceLines(b[1..]);
      var ms, ns := MethodLines(a[0].methods), MethodLines(b[0].methods);
      BlockSplit([InterfaceLine(a[0].identity)], ms, ns, r, s, x, y);
      RestStarts(a[1..], x);
      RestStarts(b[1..], y);
      MethodLinesUnique(a[0].methods, b[0].methods, r + x, s + y);
      InterfaceLinesUnique(a[1..], b[1..], x, y);
      assert a == [a[0]] + a[1..] && b == [b[0]] + b[1..];
    }
  }

  lemma BlockSplit(h: seq<string>, m: seq<string>, n: seq<string>, r: seq<string>, s: seq<string>, x: seq<string>, y: seq<string>)
    requires ((h + m) + r) + x == ((h + n) + s) + y
    ensures m + (r + x) == n + (s + y)
  {
    Associate(h + m, r, x);
    Associate(h + n, s, y);
    Peel(h, m, n, r + x, s + y);
  }

  lemma RestStarts(rest: seq<KeyInterface>, x: seq<string>)
    requires NoLineStarts(x, 'm')
    ensures NoLineStarts(InterfaceLines(rest) + x, 'm')
  {
    if rest == [] {
      assert InterfaceLines(rest) + x == x;
    } else {
      assert (InterfaceLines(rest) + x)[0] == InterfaceLine(rest[0].identity);
    }
  }

  lemma {:induction false} CallableLinesUnique(a: seq<KeyCallable>, b: seq<KeyCallable>)
    requires forall c :: c in a || c in b ==> c.parameter >= 0 && c.effect == Synchronous
    requires CallableLines(a) == CallableLines(b)
    ensures a == b
  {
    assert a != [] ==> CallableLines(a)[0] == CallableLine(a[0]);
    assert b != [] ==> CallableLines(b)[0] == CallableLine(b[0]);
    if a != [] {
      assert a[0] in a && b[0] in b;
      CallableLineInjective(a[0], b[0]);
      CancelPrefix([CallableLine(a[0])], CallableLines(a[1..]), CallableLines(b[1..]));
      CallableLinesUnique(a[1..], b[1..]);
      assert a == [a[0]] + a[1..] && b == [b[0]] + b[1..];
    }
  }

  // Identities free of line breaks.
  ghost predicate PlainIdentities(p: Profile) {
    forall i :: i in p.interfaces ==> '\n' !in i.identity && forall m :: m in i.methods ==> '\n' !in m.identity
  }

  lemma {:induction false} AllLinesPlain(interfaces: seq<KeyInterface>, callables: seq<KeyCallable>)
    requires PlainIdentities(Profile(interfaces, callables))
    requires forall c :: c in callables ==> c.parameter >= 0
    ensures forall l :: l in InterfaceLines(interfaces) ==> Plain(l, '\n')
    ensures forall l :: l in CallableLines(callables) ==> Plain(l, '\n')
    decreases |interfaces| + |callables|
  {
    if interfaces != [] {
      AllLinesPlain(interfaces[1..], callables);
      MethodLinesPlain(interfaces[0].methods);
      assert Plain(InterfaceLine(interfaces[0].identity), '\n');
    } else if callables != [] {
      AllLinesPlain(interfaces, callables[1..]);
      ItoaDigits(callables[0].parameter);
      assert Plain(CallableLine(callables[0]), '\n');
    }
  }

  lemma {:induction false} MethodLinesPlain(methods: seq<KeyMethod>)
    requires forall m :: m in methods ==> '\n' !in m.identity
    ensures forall l :: l in MethodLines(methods) ==> Plain(l, '\n')
  {
    if methods != [] {
      MethodLinesPlain(methods[1..]);
      assert Plain(MethodLine(methods[0]), '\n');
    }
  }

  lemma CallablesStart(callables: seq<KeyCallable>)
    requires forall c :: c in callables ==> c.parameter >= 0
    ensures callables != [] ==> CallableLines(callables) != [] && CallableLines(callables)[0] == CallableLine(callables[0])
    ensures NoLineStarts(CallableLines(callables), 'm') && NoLineStarts(CallableLines(callables), 'i')
  {
  }

  lemma LinesDecide(p: Profile, q: Profile)
    requires Accepted(p) && Accepted(q) && ProfileLines(p) == ProfileLines(q)
    ensures p == q
  {
    var x, y := CallableLines(p.callables), CallableLines(q.callables);
    CallablesStart(p.callables);
    CallablesStart(q.callables);
    Peel([SCHEMA], InterfaceLines(p.interfaces), InterfaceLines(q.interfaces), x, y);
    InterfaceLinesUnique(p.interfaces, q.interfaces, x, y);
    CallableLinesUnique(p.callables, q.callables);
  }

  lemma ProfileLinesPlain(p: Profile)
    requires PlainIdentities(p) && forall c :: c in p.callables ==> c.parameter >= 0
    ensures forall l :: l in ProfileLines(p) ==> Plain(l, '\n')
  {
    AllLinesPlain(p.interfaces, p.callables);
    assert Plain(SCHEMA, '\n');
  }

  lemma PayloadInjective(p: Profile, q: Profile)
    requires Accepted(p) && Accepted(q) && PlainIdentities(p) && PlainIdentities(q)
    requires Payload(p) == Payload(q)
    ensures p == q
  {
    ProfileLinesPlain(p);
    ProfileLinesPlain(q);
    LinesUnique(ProfileLines(p), ProfileLines(q));
    LinesDecide(p, q);
  }

  // ---- The sets a key stands for ----------------------------------------------

  ghost function InterfaceSet(interfaces: seq<KeyInterface>): set<(string, set<KeyMethod>)> {
    set i | i in interfaces :: (i.identity, Elements(i.methods))
  }

  lemma SortedSets(interfaces: seq<KeyInterface>)
    ensures InterfaceSet(SortEach(interfaces)) == InterfaceSet(interfaces)
  {
    Orders();
    var each := SortEach(interfaces);
    forall k | 0 <= k < |each| ensures Elements(each[k].methods) == Elements(interfaces[k].methods) {
      PermutationKeeps(each[k].methods, interfaces[k].methods);
    }
    forall e | e in InterfaceSet(each) ensures e in InterfaceSet(interfaces) {
      var i :| i in each && e == (i.identity, Elements(i.methods));
      var k :| 0 <= k < |each| && each[k] == i;
      assert interfaces[k] in interfaces;
    }
    forall e | e in InterfaceSet(interfaces) ensures e in InterfaceSet(each) {
      var i :| i in interfaces && e == (i.identity, Elements(i.methods));
      var k :| 0 <= k < |each| && interfaces[k] == i;
      assert each[k] in each;
    }
  }

  lemma CanonicalSets(p: Profile)
    ensures InterfaceSet(Canonical(p).interfaces) == InterfaceSet(p.interfaces)
    ensures Elements(Canonical(p).callables) == Elements(p.callables)
    ensures PlainIdentities(p) ==> PlainIdentities(Canonical(p))
  {
    Orders();
    PermutationKeeps(SortEach(p.interfaces), Canonical(p).interfaces);
    PermutationKeeps(p.callables, Canonical(p).callables);
    SortedSets(p.interfaces);
    if PlainIdentities(p) {
      forall i | i in Canonical(p).interfaces
        ensures '\n' !in i.identity && forall m :: m in i.methods ==> '\n' !in m.identity
      {
        assert (i.identity, Elements(i.methods)) in InterfaceSet(p.interfaces);
        var j :| j in p.interfaces && (i.identity, Elements(i.methods)) == (j.identity, Elements(j.methods));
        forall m | m in i.methods ensures '\n' !in m.identity {
          assert m in Elements(j.methods);
        }
      }
    }
  }

  // A canonical profile is determined by its sets.
  lemma SetsDetermine(p: Profile, q: Profile)
    requires Accepted(p) && Accepted(q)
    requires InterfaceSet(p.interfaces) == InterfaceSet(q.interfaces)
    requires Elements(p.callables) == Elements(q.callables)
    ensures p == q
  {
    Orders();
    forall c ensures c in p.callables <==> c in q.callables {
      assert c in p.callables <==> c in Elements(p.callables);
      assert c in q.callables <==> c in Elements(q.callables);
    }
    StrictlySortedUnique(CallableLess, p.callables, q.callables);
    InterfacesContained(p.interfaces, q.interfaces);
    InterfacesContained(q.interfaces, p.interfaces);
    StrictlySortedUnique(InterfaceLess, p.interfaces, q.interfaces);
  }

  lemma InterfacesContained(a: seq<KeyInterface>, b: seq<KeyInterface>)
    requires ValidInterfaces(a) && ValidInterfaces(b) && InterfaceSet(a) == InterfaceSet(b)
    ensures forall i :: i in a ==> i in b
  {
    Orders();
    forall i | i in a ensures i in b {
      assert (i.identity, Elements(i.methods)) in InterfaceSet(b);
      var j :| j in b && (i.identity, Elements(i.methods)) == (j.identity, Elements(j.methods));
      forall m ensures m in i.methods <==> m in j.methods {
        assert m in i.methods <==> m in Elements(i.methods);
        assert m in j.methods <==> m in Elements(j.methods);
      }
      StrictlySortedUnique(MethodLess, i.methods, j.methods);
    }
  }

  // Equal hashed texts mean the same interfaces with the same method sets and
  // the same callables, listed in any order, and only they do.
  lemma PayloadDecidesProfile(p: Profile, q: Profile)
    requires Accepted(Canonical(p)) && Accepted(Canonical(q))
    requires PlainIdentities(p) && PlainIdentities(q)
    ensures Payload(Canonical(p)) == Payload(Canonical(q)) <==>
      InterfaceSet(p.interfaces) == InterfaceSet(q.interfaces) && Elements(p.callables) == Elements(q.callables)
  {
    CanonicalSets(p);
    CanonicalSets(q);
    if Payload(Canonical(p)) == Payload(Canonical(q)) {
      PayloadInjective(Canonical(p), Canonical(q));
    }
    if InterfaceSet(p.interfaces) == InterfaceSet(q.interfaces) && Elements(p.callables) == Elements(q.callables) {
      SetsDetermine(Canonical(p), Canonical(q));
    }
  }

  lemma AcceptedIsCanonical(p: Profile)
    requires Accepted(p)
    ensures Canonical(p) == p
  {
    Orders();
    var each := SortEach(p.interfaces);
    forall k | 0 <= k < |each| ensures each[k] == p.interfaces[k] {
      assert p.interfaces[k] in p.interfaces;
      StrictIsDetermined(MethodLess, p.interfaces[k].methods);
      SortedUnique(MethodLess, p.interfaces[k].methods, Sort(MethodLess, p.interfaces[k].methods));
    }
    assert each == p.interfaces;
    StrictIsDetermined(InterfaceLess, each);
    SortedUnique(InterfaceLess, each, Sort(InterfaceLess, each));
    StrictIsDetermined(CallableLess, p.callables);
    SortedUnique(CallableLess, p.callables, Sort(CallableLess, p.callables));
  }

  // ---- Identities with line breaks -------------------------------------------------

  const EFFECT := "|effect=sync"

  // The last line, if there is one, is one of a method or a callable.
  ghost predicate EndsInEffect(lines: seq<string>) {
    lines != [] ==> exists z :: lines[|lines| - 1] == z + EFFECT
  }

  lemma EndsAppend(a: seq<string>, b: seq<string>)
    requires EndsInEffect(a) && EndsInEffect(b)
    ensures EndsInEffect(a + b)
  {
    if b == [] {
      assert a + b == a;
    } else {
      assert (a + b)[|a + b| - 1] == b[|b| - 1];
    }
  }

  lemma {:induction false} MethodLinesEnd(methods: seq<KeyMethod>)
    ensures EndsInEffect(MethodLines(methods)) && |MethodLines(methods)| == |methods|
  {
    if methods != [] {
      MethodLinesEnd(methods[1..]);
      assert MethodLine(methods[0]) == ("method=" + methods[0].identity) + EFFECT;
      EndsAppend([MethodLine(methods[0])], MethodLines(methods[1..]));
    }
  }

  lemma {:induction false} InterfaceLinesEnd(interfaces: seq<KeyInterface>)
    requires forall i :: i in interfaces ==> i.methods != []
    ensures EndsInEffect(InterfaceLines(interfaces)) && (interfaces != [] ==> |InterfaceLines(interfaces)| >= 2)
  {
    if interfaces != [] {
      var line, methods := InterfaceLine(interfaces[0].identity), MethodLines(interfaces[0].methods);
      InterfaceLinesEnd(interfaces[1..]);
      MethodLinesEnd(interfaces[0].methods);
      assert interfaces[0] in interfaces;
      assert ([line] + methods)[|methods|] == methods[|methods| - 1];
      EndsAppend([line] + methods, InterfaceLines(interfaces[1..]));
    }
  }

  lemma {:induction false} CallableLinesEnd(callables: seq<KeyCallable>)
    requires forall c :: c in callables ==> c.parameter >= 0
    ensures EndsInEffect(CallableLines(callables)) && |CallableLines(callables)| == |callables|
  {
    if callables != [] {
      CallableLinesEnd(callables[1..]);
      assert CallableLine(callables[0]) == ("callable-parameter=" + Itoa(callables[0].parameter)) + EFFECT;
      EndsAppend([CallableLine(callables[0])], CallableLines(callables[1..]));
    }
  }

  // The first method line and all behind it are the line of one method.
  lemma MergedLines(m: KeyMethod, rest: seq<string>) returns (merged: KeyMethod)
    requires m.identity != "" && EndsInEffect(rest)
    ensures merged.identity != "" && merged.effect == Synchronous
    ensures Lines([MethodLine(m)] + rest) == Lines([MethodLine(merged)])
  {
    if rest == [] {
      assert [MethodLine(m)] + rest == [MethodLine(m)];
      merged := KeyMethod(m.identity, Synchronous);
    } else {
      var init, last := rest[..|rest| - 1], rest[|rest| - 1];
      var z :| last == z + EFFECT;
      assert [MethodLine(m)] + rest == ([MethodLine(m)] + init) + [last];
      LinesAppend([MethodLine(m)] + init, [last]);
      LinesAppend([MethodLine(m)], init);
      LinesOfOne(MethodLine(m));
      LinesOfOne(last);
      merged := KeyMethod(m.identity + (EFFECT + ("\n" + (Lines(init) + z))), Synchronous);
      LinesOfOne(MethodLine(merged));
      Regroup("method=", m.identity, EFFECT, "\n", Lines(init), z);
    }
  }

  lemma Regroup(p: string, m: string, e: string, n: string, i: string, z: string)
    ensures (((p + (m + e)) + n) + i) + ((z + e) + n) == (p + ((m + (e + (n + (i + z)))) + e)) + n
  {
  }

  // One interface with one method, and no callables.
  predicate Lone(p: Profile) {
    |p.interfaces| == 1 && |p.interfaces[0].methods| == 1 && p.callables == []
  }

  lemma LoneIsAccepted(identity: string, m: KeyMethod)
    requires identity != "" && m.identity != "" && m.effect == Synchronous
    ensures Accepted(Profile([KeyInterface(identity, [m])], []))
    ensures Payload(Profile([KeyInterface(identity, [m])], [])) == Lines([SCHEMA] + [InterfaceLine(identity)]) + Lines([MethodLine(m)])
  {
    var i := KeyInterface(identity, [m]);
    var q := Profile([i], []);
    assert [i][1..] == [] && [m][1..] == [];
    assert MethodLines([m]) == [MethodLine(m)];
    assert InterfaceLines([i]) == [InterfaceLine(identity)] + [MethodLine(m)];
    assert ProfileLines(q) == ([SCHEMA] + [InterfaceLine(identity)]) + [MethodLine(m)];
    LinesAppend([SCHEMA] + [InterfaceLine(identity)], [MethodLine(m)]);
  }

  lemma LinesBehindFirst(p: Profile) returns (rest: seq<string>)
    requires Accepted(p) && p.interfaces != []
    ensures p.interfaces[0].methods != [] && EndsInEffect(rest)
    ensures var i := p.interfaces[0];
      ProfileLines(p) == ([SCHEMA] + [InterfaceLine(i.identity)]) + ([MethodLine(i.methods[0])] + rest)
  {
    var i, others := p.interfaces[0], p.interfaces[1..];
    assert i in p.interfaces;
    var methods := MethodLines(i.methods[1..]);
    rest := methods + (InterfaceLines(others) + CallableLines(p.callables));
    MethodLinesEnd(i.methods[1..]);
    InterfaceLinesEnd(others);
    CallableLinesEnd(p.callables);
    EndsAppend(InterfaceLines(others), CallableLines(p.callables));
    EndsAppend(methods, InterfaceLines(others) + CallableLines(p.callables));
    Rearrange(SCHEMA, InterfaceLine(i.identity), MethodLine(i.methods[0]), methods, InterfaceLines(others), CallableLines(p.callables));
  }

  lemma Rearrange<T>(s: T, i: T, m: T, ms: seq<T>, others: seq<T>, callables: seq<T>)
    ensures ([s] + (([i] + ([m] + ms)) + others)) + callables == ([s] + [i]) + ([m] + (ms + (others + callables)))
  {
  }

  // With line breaks allowed the texts collide: every accepted profile with an
  // interface has the text of one that has a single method.
  lemma UnrestrictedIdentitiesCollide(p: Profile)
    requires Accepted(p) && p.interfaces != []
    ensures exists q :: Accepted(q) && Lone(q) && Payload(q) == Payload(p)
  {
    var i := p.interfaces[0];
    assert i in p.interfaces;
    var rest := LinesBehindFirst(p);
    assert i.methods[0] in i.methods;
    var merged := MergedLines(i.methods[0], rest);
    LinesAppend([SCHEMA] + [InterfaceLine(i.identity)], [MethodLine(i.methods[0])] + rest);
    LoneIsAccepted(i.identity, merged);
  }

  ghost predicate SameSets(p: Profile, q: Profile) {
    InterfaceSet(p.interfaces) == InterfaceSet(q.interfaces) && Elements(p.callables) == Elements(q.callables)
  }

  // Another accepted profile has the text, whatever the identities in it.
  ghost predicate Collides(p: Profile, q: Profile)
    requires Accepted(Canonical(p))
  {
    Accepted(Canonical(q)) && !SameSets(p, q) && Payload(Canonical(q)) == Payload(Canonical(p))
  }

  lemma CanonicalShape(p: Profile)
    ensures |Canonical(p).interfaces| == |p.interfaces| && |Canonical(p).callables| == |p.callables|
    ensures Lone(Canonical(p)) <==> Lone(p)
  {
    Orders();
    var c, each := Canonical(p), SortEach(p.interfaces);
    PermutationKeeps(c.interfaces, each);
    PermutationKeeps(c.callables, p.callables);
    if |p.interfaces| == 1 {
      assert c.interfaces[0] in each;
      assert c.interfaces[0] == SortMethods(p.interfaces[0]);
      PermutationKeeps(c.interfaces[0].methods, p.interfaces[0].methods);
    }
  }

  // Identities without line breaks on one side protect exactly the profiles without
  // an interface and those with a single method.
  lemma CollidesIffMoreLines(p: Profile)
    requires Accepted(Canonical(p)) && PlainIdentities(p)
    ensures (exists q :: Collides(p, q)) <==> p.interfaces != [] && !Lone(p)
  {
    var c := Canonical(p);
    CanonicalShape(p);
    CanonicalSets(p);
    if p.interfaces == [] || Lone(p) {
      forall q ensures !Collides(p, q) {
        if Collides(p, q) {
          CanonicalSets(q);
          if Lone(p) { LoneIsUnique(c, Canonical(q)); } else { CallablesAreUnique(c, Canonical(q)); }
        }
      }
    } else {
      UnrestrictedIdentitiesCollide(c);
      var q :| Accepted(q) && Lone(q) && Payload(q) == Payload(c);
      AcceptedIsCanonical(q);
      if SameSets(c, q) {
        SetsDetermine(c, q);
      }
      assert Collides(p, q);
    }
  }

  lemma FirstCharacter(lines: seq<string>)
    requires lines != [] && lines[0] != ""
    ensures Lines(lines) != "" && Lines(lines)[0] == lines[0][0]
  {
  }

  // What follows the first line begins like an interface or like a callable.
  lemma SameBeginning(p: Profile, q: Profile)
    requires Accepted(p) && Accepted(q) && Payload(p) == Payload(q)
    ensures p.interfaces == [] <==> q.interfaces == []
  {
    var x, y := InterfaceLines(p.interfaces) + CallableLines(p.callables), InterfaceLines(q.interfaces) + CallableLines(q.callables);
    Associate([SCHEMA], InterfaceLines(p.interfaces), CallableLines(p.callables));
    Associate([SCHEMA], InterfaceLines(q.interfaces), CallableLines(q.callables));
    LinesAppend([SCHEMA], x);
    LinesAppend([SCHEMA], y);
    CancelPrefix(Lines([SCHEMA]), Lines(x), Lines(y));
    BodyBegins(p);
    BodyBegins(q);
    FirstCharacter(x);
    FirstCharacter(y);
  }

  lemma BodyBegins(p: Profile)
    requires Accepted(p)
    ensures var x := InterfaceLines(p.interfaces) + CallableLines(p.callables);
      x != [] && x[0] != "" && x[0][0] == if p.interfaces == [] then 'c' else 'i'
  {
    CallablesStart(p.callables);
  }

  lemma CallablesAreUnique(p: Profile, q: Profile)
    requires Accepted(p) && Accepted(q) && p.interfaces == [] && Payload(p) == Payload(q)
    ensures p == q
  {
    SameBeginning(p, q);
    PayloadInjective(p, q);
  }

  lemma LoneIsUnique(p: Profile, q: Profile)
    requires Accepted(p) && Accepted(q) && Lone(p) && PlainIdentities(p) && Payload(p) == Payload(q)
    ensures p == q
  {
    SameBeginning(p, q);
    var i := p.interfaces[0];
    MethodLinesEnd(i.methods);
    assert p.interfaces[1..] == [];
    assert |InterfaceLines(p.interfaces)| == 2 && CallableLines(p.callables) == [];
    InterfaceLinesEnd(q.interfaces);
    ProfileLinesPlain(p);
    PlainLinesUnique(ProfileLines(p), ProfileLines(q));
    LinesDecide(p, q);
  }
}
