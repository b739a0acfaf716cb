// Strings as Go orders and prints them, and sorting by a strict weak order.
module Text {
  import opened Common

  // Byte-wise lexicographic order.
  predicate Less(a: string, b: string) {
    if b == "" then false
    else if a == "" then true
    else a[0] < b[0] || (a[0] == b[0] && Less(a[1..], b[1..]))
  }

  // The first difference decides, or a ends first.
  ghost predicate FirstDifference(a: string, b: string, k: nat) {
    k <= |a| && k < |b| && a[..k] == b[..k] && (k == |a| || a[k] < b[k])
  }

  lemma {:induction false} LessIffFirstDifference(a: string, b: string)
    ensures Less(a, b) <==> exists k: nat :: FirstDifference(a, b, k)
  {
    if a == "" || b == "" {
      assert b != "" ==> FirstDifference(a, b, 0);
    } else {
      LessIffFirstDifference(a[1..], b[1..]);
      if a[0] == b[0] && Less(a[1..], b[1..]) {
        var k: nat :| FirstDifference(a[1..], b[1..], k);
        assert a[..k + 1] == [a[0]] + a[1..][..k] && b[..k + 1] == [b[0]] + b[1..][..k];
        assert FirstDifference(a, b, k + 1);
      } else if a[0] < b[0] {
        assert FirstDifference(a, b, 0);
      }
      if k: nat :| FirstDifference(a, b, k) {
        if k > 0 {
          assert a[..k][0] == a[0] && b[..k][0] == b[0];
          assert a[1..][..k - 1] == a[..k][1..] && b[1..][..k - 1] == b[..k][1..];
          assert FirstDifference(a[1..], b[1..], k - 1);
        }
      }
    }
  }

  lemma {:induction false} LessIrreflexive(a: string)
    ensures !Less(a, a)
  {
    if a != "" { LessIrreflexive(a[1..]); }
  }

  lemma {:induction false} LessTotal(a: string, b: string)
    ensures !Less(a, a)
    ensures Less(a, b) || a == b || Less(b, a)
    ensures Less(a, b) ==> !Less(b, a)
    decreases |a| + |b|
  {
    LessIrreflexive(a);
    if a != "" && b != "" && a[0] == b[0] {
      LessTotal(a[1..], b[1..]);
      assert a == [a[0]] + a[1..] && b == [b[0]] + b[1..];
    }
  }

  lemma {:induction false} LessTransitive(a: string, b: string, c: string)
    requires Less(a, b) && Less(b, c)
    ensures Less(a, c)
  {
    if a != "" && a[0] == b[0] && b[0] == c[0] {
      LessTransitive(a[1..], b[1..], c[1..]);
    }
  }

  lemma {:induction false} PrefixLess(a: string, suffix: string)
    requires suffix != ""
    ensures Less(a, a + suffix)
  {
    if a != "" {
      PrefixLess(a[1..], suffix);
      assert (a + suffix)[1..] == a[1..] + suffix;
    }
  }

  // ---- Tokens ---------------------------------------------------------------

  lemma CancelPrefix<T>(p: seq<T>, s: seq<T>, t: seq<T>)
    requires p + s == p + t
    ensures s == t
  {
    assert s == (p + s)[|p|..];
    assert t == (p + t)[|p|..];
  }

  lemma Associate<T>(a: seq<T>, b: seq<T>, c: seq<T>)
    ensures (a + b) + c == a + (b + c)
  {
  }

  // Drops a common head in front of what follows it.
  lemma Peel<T>(p: seq<T>, a: seq<T>, b: seq<T>, x: seq<T>, y: seq<T>)
    requires (p + a) + x == (p + b) + y
    ensures a + x == b + y
  {
    Associate(p, a, x);
    Associate(p, b, y);
    CancelPrefix(p, a + x, b + y);
  }

  lemma CancelSuffix<T>(s: seq<T>, t: seq<T>, p: seq<T>)
    requires s + p == t + p
    ensures s == t
  {
    assert |s| == |t|;
    assert s == (s + p)[..|s|];
    assert t == (t + p)[..|t|];
  }

  // A token ends at the first terminator.
  lemma SplitAtTerminator<T>(a: seq<T>, b: seq<T>, stop: T, x: seq<T>, y: seq<T>)
    requires stop !in a && stop !in b
    requires a + [stop] + x == b + [stop] + y
    ensures a == b && x == y
  {
    var u, v := a + [stop] + x, b + [stop] + y;
    assert u[|a|] == stop && v[|b|] == stop;
    assert forall i :: 0 <= i < |a| ==> u[i] == a[i] && a[i] in a;
    assert forall i :: 0 <= i < |b| ==> v[i] == b[i] && b[i] in b;
    assert |a| == |b|;
    assert a == u[..|a|] && b == v[..|b|];
    assert x == u[|a| + 1..] && y == v[|b| + 1..];
  }

  // And it begins behind the last initiator.
  lemma SplitAtLast<T>(a: seq<T>, b: seq<T>, start: T, x: seq<T>, y: seq<T>)
    requires start !in x && start !in y
    requires a + [start] + x == b + [start] + y
    ensures a == b && x == y
  {
    var u, v := a + [start] + x, b + [start] + y;
    assert u[|a|] == start && v[|b|] == start;
    assert forall i :: |a| < i < |u| ==> u[i] == x[i - |a| - 1] && u[i] in x;
    assert forall i :: |b| < i < |v| ==> v[i] == y[i - |b| - 1] && v[i] in y;
    assert |a| == |b|;
    assert a == u[..|a|] && b == v[..|b|];
    assert x == u[|a| + 1..] && y == v[|b| + 1..];
  }

  function Lines(lines: seq<string>): string {
    if lines == [] then "" else lines[0] + "\n" + Lines(lines[1..])
  }

  predicate Plain(line: string, stop: char) {
    stop !in line
  }

  lemma {:induction false} LinesUnique(a: seq<string>, b: seq<string>)
    requires forall l :: l in a || l in b ==> Plain(l, '\n')
    requires Lines(a) == Lines(b)
    ensures a == b
  {
    assert a == [] <==> Lines(a) == "";
    assert b == [] <==> Lines(b) == "";
    if a != [] {
      assert Plain(a[0], '\n') && Plain(b[0], '\n');
      assert Lines(a) == a[0] + ['\n'] + Lines(a[1..]);
      assert Lines(b) == b[0] + ['\n'] + Lines(b[1..]);
      SplitAtTerminator(a[0], b[0], '\n', Lines(a[1..]), Lines(b[1..]));
      LinesUnique(a[1..], b[1..]);
      assert a == [a[0]] + a[1..] && b == [b[0]] + b[1..];
    }
  }

  lemma {:induction false} LinesAppend(a: seq<string>, b: seq<string>)
    ensures Lines(a + b) == Lines(a) + Lines(b)
  {
    if a == [] {
      assert a + b == b;
    } else {
      LinesAppend(a[1..], b);
      assert (a + b)[1..] == a[1..] + b;
      Associate(a[0] + "\n", Lines(a[1..]), Lines(b));
    }
  }

  lemma LinesOfOne(line: string)
    ensures Lines([line]) == line + "\n"
  {
    assert [line][1..] == [];
  }

  // Each line has its own line break; without others there are as many as lines.
  lemma {:induction false} LineBreaks(lines: seq<string>)
    ensures multiset(Lines(lines))['\n'] >= |lines|
    ensures multiset(Lines(lines))['\n'] == |lines| <==> forall l :: l in lines ==> Plain(l, '\n')
  {
    if lines != [] {
      LineBreaks(lines[1..]);
      assert lines == [lines[0]] + lines[1..];
      assert multiset(Lines(lines)) == multiset(lines[0]) + multiset{'\n'} + multiset(Lines(lines[1..]));
      assert Plain(lines[0], '\n') <==> multiset(lines[0])['\n'] == 0;
    }
  }

  // A text of plain lines has no other split into as many lines or more.
  lemma PlainLinesUnique(a: seq<string>, b: seq<string>)
    requires forall l :: l in a ==> Plain(l, '\n')
    requires Lines(a) == Lines(b) && |b| >= |a|
    ensures a == b
  {
    LineBreaks(a);
    LineBreaks(b);
    LinesUnique(a, b);
  }

  // ---- Decimal numerals -------------------------------------------------------

  function Digit(n: nat): char
    requires n < 10
  {
    ('0' as int + n) as char
  }

  // strconv.Itoa on non-negative integers.
  function Itoa(n: nat): string {
    if n < 10 then [Digit(n)] else Itoa(n / 10) + [Digit(n % 10)]
  }

  predicate Digits(s: string) {
    forall c :: c in s ==> '0' <= c <= '9'
  }

  lemma {:induction false} ItoaDigits(n: nat)
    ensures Itoa(n) != "" && Digits(Itoa(n))
  {
    if n >= 10 { ItoaDigits(n / 10); }
  }

  lemma {:induction false} ItoaInjective(a: nat, b: nat)
    requires Itoa(a) == Itoa(b)
    ensures a == b
  {
    ItoaDigits(a / 10);
    ItoaDigits(b / 10);
    var s := Itoa(a);
    assert s[|s| - 1] == Digit(a % 10) == Digit(b % 10);
    if a >= 10 && b >= 10 {
      CancelSuffix(Itoa(a / 10), Itoa(b / 10), [Digit(a % 10)]);
      ItoaInjective(a / 10, b / 10);
    }
  }

  // ---- Sorting ------------------------------------------------------------------

  ghost predicate WeakOrder<T(!new)>(less: (T, T) -> bool) {
    && (forall a :: !less(a, a))
    && (forall a, b :: less(a, b) ==> !less(b, a))
    && (forall a, b, c :: !less(b, a) && !less(c, b) ==> !less(c, a))
  }

  lemma Transitive<T(!new)>(less: (T, T) -> bool, a: T, b: T, c: T)
    requires WeakOrder(less) && less(a, b) && less(b, c)
    ensures less(a, c)
  {
    assert !less(b, a);
  }

  ghost predicate Sorted<T>(less: (T, T) -> bool, s: seq<T>) {
    forall i, j :: 0 <= i < j < |s| ==> !less(s[j], s[i])
  }

  ghost predicate StrictlySorted<T>(less: (T, T) -> bool, s: seq<T>) {
    forall i, j :: 0 <= i < j < |s| ==> less(s[i], s[j])
  }

  // Distinct elements of s are comparable, so s can be sorted in one way only.
  ghost predicate Determined<T>(less: (T, T) -> bool, s: seq<T>) {
    forall i, j :: 0 <= i < |s| && 0 <= j < |s| && s[i] != s[j] ==> less(s[i], s[j]) || less(s[j], s[i])
  }

  lemma InsertKeepsLeast<T(!new)>(less: (T, T) -> bool, x: T, s: seq<T>, rest: seq<T>)
    requires WeakOrder(less) && Sorted(less, s) && s != [] && !less(x, s[0])
    requires multiset(rest) == multiset(s[1..]) + multiset{x}
    ensures forall e :: e in rest ==> !less(e, s[0])
  {
    forall e | e in rest ensures !less(e, s[0]) {
      assert e in multiset(rest);
      if e != x {
        assert e in multiset(s[1..]);
        var i :| 0 <= i < |s[1..]| && s[1..][i] == e;
        assert s[i + 1] == e;
      }
    }
  }

  function Insert<T(!new)>(less: (T, T) -> bool, x: T, s: seq<T>): (r: seq<T>)
    requires WeakOrder(less) && Sorted(less, s)
    ensures Sorted(less, r) && multiset(r) == multiset(s) + multiset{x}
  {
    if s == [] then [x]
    else if less(x, s[0]) then
      assert forall i :: 0 <= i < |s| ==> !less(s[i], x);
      [x] + s
    else
      var rest := Insert(less, x, s[1..]);
      assert s == [s[0]] + s[1..];
      assert forall e :: e in rest ==> !less(e, s[0]) by { InsertKeepsLeast(less, x, s, rest); }
      [s[0]] + rest
  }

  // The result of sort.Slice or slices.SortFunc, up to the order of ties.
  function Sort<T(!new)>(less: (T, T) -> bool, s: seq<T>): (r: seq<T>)
    requires WeakOrder(less)
    ensures Sorted(less, r) && multiset(r) == multiset(s)
  {
    if s == [] then []
    else
      assert s == [s[0]] + s[1..];
      Insert(less, s[0], Sort(less, s[1..]))
  }

  lemma SortedHeads<T>(less: (T, T) -> bool, a: seq<T>, b: seq<T>)
    requires Sorted(less, a) && Sorted(less, b) && multiset(a) == multiset(b)
    requires Determined(less, a) && a != [] && b != []
    ensures a[0] == b[0]
  {
    PermutationKeeps(a, b);
    assert b[0] in b && a[0] in a;
    var i :| 0 <= i < |a| && a[i] == b[0];
    var j :| 0 <= j < |b| && b[j] == a[0];
    assert i > 0 ==> !less(a[i], a[0]);
    assert j > 0 ==> !less(b[j], b[0]);
  }

  lemma TailsPermute<T>(a: seq<T>, b: seq<T>)
    requires multiset(a) == multiset(b) && a != [] && b != [] && a[0] == b[0]
    ensures multiset(a[1..]) == multiset(b[1..])
  {
    assert a == [a[0]] + a[1..] && b == [b[0]] + b[1..];
    assert multiset(a[1..]) == multiset(a) - multiset{a[0]};
    assert multiset(b[1..]) == multiset(b) - multiset{a[0]};
  }

  // Whatever algorithm sorts, the result is the same when ties are equal.
  lemma {:induction false} SortedUnique<T>(less: (T, T) -> bool, a: seq<T>, b: seq<T>)
    requires Sorted(less, a) && Sorted(less, b) && multiset(a) == multiset(b)
    requires Determined(less, a)
    ensures a == b
  {
    PermutationKeeps(a, b);
    if a != [] {
      SortedHeads(less, a, b);
      TailsPermute(a, b);
      assert Determined(less, a[1..]);
      SortedUnique(less, a[1..], b[1..]);
      assert a == [a[0]] + a[1..] && b == [b[0]] + b[1..];
    }
  }

  lemma StrictIsDetermined<T(!new)>(less: (T, T) -> bool, s: seq<T>)
    requires WeakOrder(less) && StrictlySorted(less, s)
    ensures Sorted(less, s) && Determined(less, s) && Distinct(s)
  {
  }

  // Strictly sorted sequences with the same members are the same sequence.
  lemma {:induction false} StrictlySortedUnique<T(!new)>(less: (T, T) -> bool, a: seq<T>, b: seq<T>)
    requires WeakOrder(less) && StrictlySorted(less, a) && StrictlySorted(less, b)
    requires forall x :: x in a <==> x in b
    ensures a == b
  {
    assert a != [] ==> a[0] in b;
    assert b != [] ==> b[0] in a;
    if a != [] {
      assert a[0] == b[0];
      forall x ensures x in a[1..] <==> x in b[1..] {
        if x in a[1..] { assert x in a && x != a[0]; }
        if x in b[1..] { assert x in b && x != b[0]; }
      }
      StrictlySortedUnique(less, a[1..], b[1..]);
      assert a == [a[0]] + a[1..] && b == [b[0]] + b[1..];
    }
  }

  // Without ties a sorted sequence is strictly sorted.
  lemma SortedDistinctIsStrict<T>(less: (T, T) -> bool, s: seq<T>)
    requires Sorted(less, s) && Determined(less, s) && Distinct(s)
    ensures StrictlySorted(less, s)
  {
  }

  // Strictness of neighbours is strictness throughout.
  lemma {:induction false} StrictExtends<T(!new)>(less: (T, T) -> bool, s: seq<T>, x: T)
    requires WeakOrder(less) && StrictlySorted(less, s)
    requires s != [] ==> less(s[|s| - 1], x)
    ensures StrictlySorted(less, s + [x])
  {
    if s != [] {
      var last := s[|s| - 1];
      forall i | 0 <= i < |s| ensures less(s[i], x) {
        if i < |s| - 1 {
          Transitive(less, s[i], last, x);
        }
      }
    }
  }

  lemma StrictPrefixExtends<T(!new)>(less: (T, T) -> bool, s: seq<T>, k: nat)
    requires WeakOrder(less) && k < |s| && StrictlySorted(less, s[..k])
    requires k > 0 ==> less(s[k - 1], s[k])
    ensures StrictlySorted(less, s[..k + 1])
  {
    StrictExtends(less, s[..k], s[k]);
    assert s[..k + 1] == s[..k] + [s[k]];
  }

  lemma StringOrder()
    ensures WeakOrder(Less)
  {
    forall a, b ensures !Less(a, a) && (Less(a, b) ==> !Less(b, a)) { LessTotal(a, b); }
    forall a, b, c | !Less(b, a) && !Less(c, b) ensures !Less(c, a) {
      LessTotal(a, b);
      LessTotal(b, c);
      LessTotal(a, c);
      if Less(c, a) {
        if Less(a, b) { LessTransitive(c, a, b); }
      }
    }
  }

  lemma KeyOrder<T(!new)>(key: T -> string)
    ensures WeakOrder((a: T, b: T) => Less(key(a), key(b)))
  {
    StringOrder();
  }

  lemma PermutationKeeps<T>(a: seq<T>, b: seq<T>)
    requires multiset(a) == multiset(b)
    ensures |a| == |b| && forall x :: x in a <==> x in b
  {
    assert |a| == |multiset(a)| && |b| == |multiset(b)|;
    assert forall x :: x in a <==> x in multiset(a);
    assert forall x :: x in b <==> x in multiset(b);
  }

  lemma DistinctPermutation<T>(a: seq<T>, b: seq<T>)
    requires multiset(a) == multiset(b)
    ensures Distinct(a) <==> Distinct(b)
  {
    PermutationKeeps(a, b);
    DistinctSize(a);
    DistinctSize(b);
    assert Elements(a) == Elements(b);
  }
}
