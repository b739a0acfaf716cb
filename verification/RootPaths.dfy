// Slash-separated paths relative to a root, as component sequences and as text.
module RootPaths {
  import opened Common
  import opened Text

  type Path = seq<string>

  // What validRootPath asks of each component.
  predicate Component(c: string) {
    && c != "" && c != "." && c != ".."
    && '/' !in c && '\\' !in c && '\0' !in c
  }

  predicate ValidRootPath(p: Path) {
    forall i :: 0 <= i < |p| ==> Component(p[i])
  }

  function Join(p: Path): string {
    if p == [] then "" else if |p| == 1 then p[0] else p[0] + "/" + Join(p[1..])
  }

  // The root itself is written as a dot.
  function TextOf(p: Path): string {
    if p == [] then "." else Join(p)
  }

  function Parent(p: Path): Path
    requires p != []
  {
    p[..|p| - 1]
  }

  lemma {:induction false} JoinInjective(p: Path, q: Path)
    requires p != [] && q != [] && ValidRootPath(p) && ValidRootPath(q) && Join(p) == Join(q)
    ensures p == q
  {
    assert Component(p[0]) && Component(q[0]);
    if |p| > 1 && |q| > 1 {
      var x, y := Join(p[1..]), Join(q[1..]);
      assert p[0] + ['/'] + x == q[0] + ['/'] + y;
      SplitAtTerminator(p[0], q[0], '/', x, y);
      JoinInjective(p[1..], q[1..]);
      assert p == [p[0]] + p[1..] && q == [q[0]] + q[1..];
    } else if |p| > 1 {
      SlashInside(p[0], Join(p[1..]));
    } else if |q| > 1 {
      SlashInside(q[0], Join(q[1..]));
    }
  }

  lemma SlashInside(a: string, b: string)
    ensures '/' in a + "/" + b
  {
    assert (a + "/" + b)[|a|] == '/';
  }

  lemma JoinIsNotDot(p: Path)
    requires p != [] && ValidRootPath(p)
    ensures Join(p) != "." && Join(p) != ""
  {
    assert Component(p[0]);
    if |p| > 1 {
      SlashInside(p[0], Join(p[1..]));
    }
  }

  // Texts stand for paths: no two valid paths are written alike.
  lemma TextInjective(p: Path, q: Path)
    requires ValidRootPath(p) && ValidRootPath(q) && TextOf(p) == TextOf(q)
    ensures p == q
  {
    if p != [] { JoinIsNotDot(p); }
    if q != [] { JoinIsNotDot(q); }
    if p != [] && q != [] { JoinInjective(p, q); }
  }

  lemma {:induction false} JoinAppend(p: Path, c: string)
    requires p != []
    ensures Join(p + [c]) == Join(p) + ("/" + c)
  {
    var q := p + [c];
    if |p| == 1 {
      assert q[1..] == [c];
      Associate(p[0], "/", c);
    } else {
      assert q[1..] == p[1..] + [c];
      JoinAppend(p[1..], c);
      Associate(p[0] + "/", Join(p[1..]), "/" + c);
    }
  }

  // A directory other than the root comes before everything inside it, and its
  // text is shorter.
  lemma ParentFirst(p: Path)
    requires |p| > 1
    ensures Less(TextOf(Parent(p)), TextOf(p)) && |TextOf(Parent(p))| < |TextOf(p)|
  {
    var q, c := Parent(p), p[|p| - 1];
    assert p == q + [c];
    JoinAppend(q, c);
    PrefixLess(Join(q), "/" + c);
  }

  lemma {:induction false} AncestorFirst(q: Path, p: Path)
    requires q != [] && q < p
    ensures |TextOf(q)| < |TextOf(p)| && Less(TextOf(q), TextOf(p))
  {
    ParentFirst(p);
    if q != Parent(p) {
      AncestorFirst(q, Parent(p));
      LessTransitive(TextOf(q), TextOf(Parent(p)), TextOf(p));
    }
  }
}
