// The byte stream that identifies the selected source program.  A byte is a
// character below 256.
module SnapshotStream {
  import opened Common
  import opened Text

  // binary.PutUvarint.
  function Varint(n: nat): string {
    if n < 128 then [n as char] else [(128 + n % 128) as char] + Varint(n / 128)
  }

  function Framed(tag: string, value: string): string {
    (Varint(|tag|) + tag) + (Varint(|value|) + value)
  }

  function Count(tag: string, n: nat): string {
    Framed(tag, Varint(n))
  }

  datatype Field = Field(tag: string, value: string)

  function Frame(f: Field): string {
    Framed(f.tag, f.value)
  }

  // The encodings of a list, one after the other.
  function Body<T>(encode: T -> string, items: seq<T>): string {
    if items == [] then "" else encode(items[0]) + Body(encode, items[1..])
  }

  datatype File = File(identity: string, payload: string, version: string)
  datatype Package = Package(
    path: string, name: string, modulePath: string, moduleVersion: string, moduleGoVersion: string,
    goInputs: seq<File>, checkedSyntax: seq<File>, otherInputs: seq<File>, embedInputs: seq<File>)
  datatype Snapshot = Snapshot(
    toolchain: string, goVersion: string, goos: string, goarch: string, cgo: bool,
    tags: seq<string>, packages: seq<Package>)

  predicate FileLess(a: File, b: File) { Less(a.identity, b.identity) }

  lemma Orders()
    ensures WeakOrder(FileLess) && WeakOrder(Less)
  {
    StringOrder();
  }

  function SortFiles(files: seq<File>): seq<File> {
    Orders();
    Sort(FileLess, files)
  }

  function SortTags(tags: seq<string>): seq<string> {
    Orders();
    Sort(Less, tags)
  }

  function FileFields(tag: string, file: File): seq<Field> {
    [Field(tag + "-identity", file.identity), Field(tag + "-version", file.version),
     Field(tag + "-payload", file.payload)]
  }

  datatype Category = Category(tag: string, files: seq<File>)

  function CategoryBytes(c: Category): string {
    Count(c.tag, |c.files|) + Body((f: File) => Body(Frame, FileFields(c.tag, f)), c.files)
  }

  function HeaderFields(p: Package): seq<Field> {
    [Field("package-path", p.path), Field("package-name", p.name), Field("module-path", p.modulePath),
     Field("module-version", p.moduleVersion), Field("module-go-version", p.moduleGoVersion)]
  }

  function Categories(p: Package): seq<Category> {
    [Category("go-inputs", SortFiles(p.goInputs)), Category("checked-syntax", SortFiles(p.checkedSyntax)),
     Category("other-inputs", SortFiles(p.otherInputs)), Category("embed-inputs", SortFiles(p.embedInputs))]
  }

  function PackageBytes(p: Package): string {
    Body(Frame, HeaderFields(p)) + Body(CategoryBytes, Categories(p))
  }

  const SCHEMA := "gotots-selected-source-v1"

  function ProfileFields(s: Snapshot): seq<Field> {
    [Field("schema", SCHEMA), Field("toolchain", s.toolchain), Field("go-version", s.goVersion),
     Field("goos", s.goos), Field("goarch", s.goarch), Field("cgo", if s.cgo then "true" else "false")]
  }

  function ListBytes<T>(tag: string, encode: T -> string, items: seq<T>): string {
    Count(tag, |items|) + Body(encode, items)
  }

  function TagFrame(tag: string): string {
    Framed("tags-value", tag)
  }

  function Stream(s: Snapshot): string {
    Body(Frame, ProfileFields(s))
      + (ListBytes("tags", TagFrame, SortTags(s.tags)) + ListBytes("packages", PackageBytes, s.packages))
  }

  // ---- Writing ----------------------------------------------------------------

  class Digest {
    var written: string

    constructor ()
      ensures written == ""
    {
      written := "";
    }

    method Write(bytes: string)
      modifies this
      ensures written == old(written) + bytes
    {
      written := written + bytes;
    }

    method WriteBytes(tag: string, value: string)
      modifies this
      ensures written == old(written) + Framed(tag, value)
    {
      Write(Varint(|tag|));
      Write(tag);
      Write(Varint(|value|));
      Write(value);
    }

    method WriteFields(fields: seq<Field>)
      modifies this
      ensures written == old(written) + Body(Frame, fields)
    {
      ghost var head := written;
      for i := 0 to |fields|
        invariant written == head + Body(Frame, fields[..i])
      {
        BodyStep(head, Frame, fields, i);
        WriteBytes(fields[i].tag, fields[i].value);
      }
      assert fields[..|fields|] == fields;
    }

    method WriteStrings(tag: string, values: seq<string>)
      modifies this
      ensures written == old(written) + ListBytes(tag, TagFrame, SortTags(values))
    {
      var sorted := SortTags(values);
      WriteBytes(tag, Varint(|sorted|));
      ghost var head := written;
      for i := 0 to |sorted|
        invariant written == head + Body(TagFrame, sorted[..i])
      {
        BodyStep(head, TagFrame, sorted, i);
        WriteBytes("tags-value", sorted[i]);
      }
      assert sorted[..|sorted|] == sorted;
      Associate(old(written), Count(tag, |sorted|), Body(TagFrame, sorted));
    }

    method WriteFiles(c: Category)
      modifies this
      ensures written == old(written) + CategoryBytes(c)
    {
      WriteBytes(c.tag, Varint(|c.files|));
      ghost var head, encode := written, (f: File) => Body(Frame, FileFields(c.tag, f));
      for i := 0 to |c.files|
        invariant written == head + Body(encode, c.files[..i])
      {
        BodyStep(head, encode, c.files, i);
        WriteFields(FileFields(c.tag, c.files[i]));
      }
      assert c.files[..|c.files|] == c.files;
      Associate(old(written), Count(c.tag, |c.files|), Body(encode, c.files));
    }

    method WritePackage(p: Package)
      modifies this
      ensures written == old(written) + PackageBytes(p)
    {
      WriteFields(HeaderFields(p));
      ghost var head := written;
      var categories := Categories(p);
      for i := 0 to |categories|
        invariant written == head + Body(CategoryBytes, categories[..i])
      {
        BodyStep(head, CategoryBytes, categories, i);
        WriteFiles(categories[i]);
      }
      assert categories[..|categories|] == categories;
      Associate(old(written), Body(Frame, HeaderFields(p)), Body(CategoryBytes, categories));
    }

    method WritePackages(tag: string, packages: seq<Package>)
      modifies this
      ensures written == old(written) + ListBytes(tag, PackageBytes, packages)
    {
      WriteBytes(tag, Varint(|packages|));
      ghost var head := written;
      for i := 0 to |packages|
        invariant written == head + Body(PackageBytes, packages[..i])
      {
        ghost var before := written;
        WritePackage(packages[i]);
        PackageWritten(head, before, written, packages, i);
      }
      assert packages[..|packages|] == packages;
      ListWritten(old(written), head, written, tag, PackageBytes, packages);
    }
  }

  lemma {:induction false} BodyAppend<T>(encode: T -> string, items: seq<T>, item: T)
    ensures Body(encode, items + [item]) == Body(encode, items) + encode(item)
  {
    if items == [] {
      assert items + [item] == [item] && [item][1..] == [];
    } else {
      BodyAppend(encode, items[1..], item);
      assert (items + [item])[1..] == items[1..] + [item];
      Associate(encode(items[0]), Body(encode, items[1..]), encode(item));
    }
  }

  lemma BodyStep<T>(head: string, encode: T -> string, items: seq<T>, i: nat)
    requires i < |items|
    ensures head + Body(encode, items[..i + 1]) == (head + Body(encode, items[..i])) + encode(items[i])
  {
    assert items[..i + 1] == items[..i] + [items[i]];
    BodyAppend(encode, items[..i], items[i]);
    Associate(head, Body(encode, items[..i]), encode(items[i]));
  }

  lemma PackageWritten(head: string, before: string, after: string, packages: seq<Package>, i: nat)
    requires i < |packages| && before == head + Body(PackageBytes, packages[..i])
    requires after == before + PackageBytes(packages[i])
    ensures after == head + Body(PackageBytes, packages[..i + 1])
  {
    BodyStep(head, PackageBytes, packages, i);
  }

  lemma ListWritten<T>(start: string, head: string, end: string, tag: string, encode: T -> string, items: seq<T>)
    requires head == start + Count(tag, |items|) && end == head + Body(encode, items)
    ensures end == start + ListBytes(tag, encode, items)
  {
    Associate(start, Count(tag, |items|), Body(encode, items));
  }

  lemma StreamWritten(profile: string, tags: string, end: string, s: Snapshot)
    requires profile == "" + Body(Frame, ProfileFields(s))
    requires tags == profile + ListBytes("tags", TagFrame, SortTags(s.tags))
    requires end == tags + ListBytes("packages", PackageBytes, s.packages)
    ensures end == Stream(s)
  {
    Associate(profile, ListBytes("tags", TagFrame, SortTags(s.tags)), ListBytes("packages", PackageBytes, s.packages));
    assert profile == Body(Frame, ProfileFields(s));
  }

  // File identities within one category are distinct.
  ghost predicate DistinctFiles(files: seq<File>) {
    forall i, j :: 0 <= i < j < |files| ==> files[i].identity != files[j].identity
  }

  ghost predicate DistinctInputs(p: Package) {
    && DistinctFiles(p.goInputs) && DistinctFiles(p.checkedSyntax)
    && DistinctFiles(p.otherInputs) && DistinctFiles(p.embedInputs)
  }

  ghost predicate CompletePackage(p: Package) {
    p.path != "" && p.name != "" && DistinctInputs(p)
  }

  ghost predicate Complete(s: Snapshot) {
    s.packages != [] && forall p :: p in s.packages ==> CompletePackage(p)
  }

  method CheckDistinct(files: seq<File>) returns (ok: bool)
    ensures ok <==> DistinctFiles(files)
  {
    var seen: set<string> := {};
    for i := 0 to |files|
      invariant DistinctFiles(files[..i])
      invariant forall s :: s in seen <==> exists j :: 0 <= j < i && files[j].identity == s
    {
      if files[i].identity in seen {
        return false;
      }
      seen := seen + {files[i].identity};
      forall j | 0 <= j < i ensures files[j].identity != files[i].identity {}
    }
    assert files[..|files|] == files;
    return true;
  }

  // A package needs a path and a name, and no identity may repeat within one
  // category of its files.
  method CheckPackage(p: Package) returns (ok: bool)
    ensures ok <==> CompletePackage(p)
  {
    if p.path == "" || p.name == "" {
      return false;
    }
    var goInputs := CheckDistinct(p.goInputs);
    var checkedSyntax := CheckDistinct(p.checkedSyntax);
    var otherInputs := CheckDistinct(p.otherInputs);
    var embedInputs := CheckDistinct(p.embedInputs);
    return goInputs && checkedSyntax && otherInputs && embedInputs;
  }

  // The bytes that are hashed; the digest function itself stays open.
  method SealSourceSnapshot(s: Snapshot) returns (stream: Option<string>)
    ensures stream.Some? <==> Complete(s)
    ensures stream.Some? ==> stream.value == Stream(s)
  {
    if s.packages == [] {
      return None;
    }
    for i := 0 to |s.packages|
      invariant forall j :: 0 <= j < i ==> CompletePackage(s.packages[j])
    {
      assert s.packages[i] in s.packages;
      var ok := CheckPackage(s.packages[i]);
      if !ok {
        return None;
      }
    }
    var digest := new Digest();
    digest.WriteFields(ProfileFields(s));
    ghost var profile := digest.written;
    digest.WriteStrings("tags", s.tags);
    ghost var tags := digest.written;
    digest.WritePackages("packages", s.packages);
    StreamWritten(profile, tags, digest.written, s);
    return Some(digest.written);
  }

  // ---- Unique decodability ----------------------------------------------------

  lemma {:induction false} VarintUnique(m: nat, n: nat, x: string, y: string)
    requires Varint(m) + x == Varint(n) + y
    ensures m == n && x == y
  {
    var u, v := Varint(m) + x, Varint(n) + y;
    assert u[0] == Varint(m)[0] && v[0] == Varint(n)[0];
    if m < 128 {
      assert n < 128;
      assert x == u[1..] && y == v[1..];
    } else {
      assert n >= 128;
      assert u[1..] == Varint(m / 128) + x && v[1..] == Varint(n / 128) + y;
      VarintUnique(m / 128, n / 128, x, y);
    }
  }

  lemma BytesUnique(v: string, w: string, x: string, y: string)
    requires (Varint(|v|) + v) + x == (Varint(|w|) + w) + y
    ensures v == w && x == y
  {
    Associate(Varint(|v|), v, x);
    Associate(Varint(|w|), w, y);
    VarintUnique(|v|, |w|, v + x, w + y);
    assert v == (v + x)[..|v|] && w == (w + y)[..|w|];
    assert x == (v + x)[|v|..] && y == (w + y)[|w|..];
  }

  // A frame under a known tag gives back its value and what follows.
  lemma FrameUnique(tag: string, v: string, w: string, x: string, y: string)
    requires Framed(tag, v) + x == Framed(tag, w) + y
    ensures v == w && x == y
  {
    Peel(Varint(|tag|) + tag, Varint(|v|) + v, Varint(|w|) + w, x, y);
    BytesUnique(v, w, x, y);
  }

  // Frames under known tags give back their values.
  lemma {:induction false} FieldsUnique(a: seq<Field>, b: seq<Field>, x: string, y: string)
    requires |a| == |b| && forall i :: 0 <= i < |a| ==> a[i].tag == b[i].tag
    requires Body(Frame, a) + x == Body(Frame, b) + y
    ensures a == b && x == y
  {
    if a != [] {
      var r, s := Body(Frame, a[1..]), Body(Frame, b[1..]);
      Associate(Frame(a[0]), r, x);
      Associate(Frame(b[0]), s, y);
      FrameUnique(a[0].tag, a[0].value, b[0].value, r + x, s + y);
      FieldsUnique(a[1..], b[1..], x, y);
      assert a == [a[0]] + a[1..] && b == [b[0]] + b[1..];
    } else {
      assert Body(Frame, a) + x == x && Body(Frame, b) + y == y;
    }
  }

  // Whatever follows it, an encoding ends in one place and fixes its item.
  ghost predicate Decodable<T(!new)>(encode: T -> string, valid: T -> bool, same: (T, T) -> bool) {
    forall p, q, x, y :: valid(p) && valid(q) && encode(p) + x == encode(q) + y ==> same(p, q) && x == y
  }

  // Then so does a counted list of encodings.
  lemma ListUnique<T(!new)>(tag: string, encode: T -> string, valid: T -> bool, same: (T, T) -> bool,
    a: seq<T>, b: seq<T>, x: string, y: string)
    requires Decodable(encode, valid, same)
    requires forall p :: p in a || p in b ==> valid(p)
    requires ListBytes(tag, encode, a) + x == ListBytes(tag, encode, b) + y
    ensures x == y && |a| == |b| && forall i :: 0 <= i < |a| ==> same(a[i], b[i])
  {
    Associate(Count(tag, |a|), Body(encode, a), x);
    Associate(Count(tag, |b|), Body(encode, b), y);
    FrameUnique(tag, Varint(|a|), Varint(|b|), Body(encode, a) + x, Body(encode, b) + y);
    assert Varint(|a|) + "" == Varint(|b|) + "";
    VarintUnique(|a|, |b|, "", "");
    BodyUnique(encode, valid, same, a, b, x, y);
  }

  lemma {:induction false} BodyUnique<T(!new)>(encode: T -> string, valid: T -> bool, same: (T, T) -> bool,
    a: seq<T>, b: seq<T>, x: string, y: string)
    requires Decodable(encode, valid, same)
    requires forall p :: p in a || p in b ==> valid(p)
    requires |a| == |b| && Body(encode, a) + x == Body(encode, b) + y
    ensures x == y && forall i :: 0 <= i < |a| ==> same(a[i], b[i])
  {
    if a != [] {
      var r, s := Body(encode, a[1..]), Body(encode, b[1..]);
      Associate(encode(a[0]), r, x);
      Associate(encode(b[0]), s, y);
      assert a[0] in a && b[0] in b;
      assert encode(a[0]) + (r + x) == encode(b[0]) + (s + y);
      BodyUnique(encode, valid, same, a[1..], b[1..], x, y);
      forall i | 0 <= i < |a| ensures same(a[i], b[i]) {
        if i > 0 { assert a[i] == a[1..][i - 1] && b[i] == b[1..][i - 1]; }
      }
    } else {
      assert Body(encode, a) + x == x && Body(encode, b) + y == y;
    }
  }

  lemma CategoryUnique(tag: string, a: seq<File>, b: seq<File>, x: string, y: string)
    requires CategoryBytes(Category(tag, a)) + x == CategoryBytes(Category(tag, b)) + y
    ensures a == b && x == y
  {
    var encode := (f: File) => Body(Frame, FileFields(tag, f));
    var valid, same := (f: File) => true, (f: File, g: File) => f == g;
    forall p, q, u, v | encode(p) + u == encode(q) + v ensures p == q && u == v {
      FieldsUnique(FileFields(tag, p), FileFields(tag, q), u, v);
      assert FileFields(tag, p)[0] == FileFields(tag, q)[0];
      assert FileFields(tag, p)[1] == FileFields(tag, q)[1];
      assert FileFields(tag, p)[2] == FileFields(tag, q)[2];
    }
    ListUnique(tag, encode, valid, same, a, b, x, y);
  }

  lemma FirstCategoryUnique(a: Category, b: Category, x: string, y: string)
    requires a.tag == b.tag && CategoryBytes(a) + x == CategoryBytes(b) + y
    ensures a == b && x == y
  {
    CategoryUnique(a.tag, a.files, b.files, x, y);
  }

  lemma {:induction false} CategoriesUnique(a: seq<Category>, b: seq<Category>, x: string, y: string)
    requires |a| == |b| && forall i :: 0 <= i < |a| ==> a[i].tag == b[i].tag
    requires Body(CategoryBytes, a) + x == Body(CategoryBytes, b) + y
    ensures a == b && x == y
  {
    if a != [] {
      var r, s := Body(CategoryBytes, a[1..]), Body(CategoryBytes, b[1..]);
      Associate(CategoryBytes(a[0]), r, x);
      Associate(CategoryBytes(b[0]), s, y);
      FirstCategoryUnique(a[0], b[0], r + x, s + y);
      CategoriesUnique(a[1..], b[1..], x, y);
      assert a == [a[0]] + a[1..] && b == [b[0]] + b[1..];
    } else {
      assert Body(CategoryBytes, a) + x == x && Body(CategoryBytes, b) + y == y;
    }
  }

  // The same package, with file lists in any order.
  ghost predicate SamePackage(p: Package, q: Package) {
    && p.path == q.path && p.name == q.name && p.modulePath == q.modulePath
    && p.moduleVersion == q.moduleVersion && p.moduleGoVersion == q.moduleGoVersion
    && multiset(p.goInputs) == multiset(q.goInputs) && multiset(p.checkedSyntax) == multiset(q.checkedSyntax)
    && multiset(p.otherInputs) == multiset(q.otherInputs) && multiset(p.embedInputs) == multiset(q.embedInputs)
  }

  ghost predicate SameSnapshot(s: Snapshot, t: Snapshot) {
    && s.toolchain == t.toolchain && s.goVersion == t.goVersion && s.goos == t.goos && s.goarch == t.goarch
    && s.cgo == t.cgo && multiset(s.tags) == multiset(t.tags)
    && |s.packages| == |t.packages|
    && forall i :: 0 <= i < |s.packages| ==> SamePackage(s.packages[i], t.packages[i])
  }

  lemma FilesDetermined(s: seq<File>, a: seq<File>)
    requires DistinctFiles(a) && forall f :: f in s ==> f in a
    ensures Determined(FileLess, s)
  {
    forall i, j | 0 <= i < |s| && 0 <= j < |s| && s[i] != s[j]
      ensures FileLess(s[i], s[j]) || FileLess(s[j], s[i])
    {
      assert s[i] in a && s[j] in a;
      LessTotal(s[i].identity, s[j].identity);
      var k :| 0 <= k < |a| && a[k] == s[i];
      var l :| 0 <= l < |a| && a[l] == s[j];
      assert a[k].identity != a[l].identity;
    }
  }

  lemma SortedFilesMultiset(a: seq<File>, b: seq<File>)
    requires DistinctFiles(a) && DistinctFiles(b)
    ensures SortFiles(a) == SortFiles(b) <==> multiset(a) == multiset(b)
  {
    Orders();
    if multiset(a) == multiset(b) {
      PermutationKeeps(SortFiles(a), a);
      FilesDetermined(SortFiles(a), a);
      SortedUnique(FileLess, SortFiles(a), SortFiles(b));
    } else {
      assert multiset(SortFiles(a)) == multiset(a) && multiset(SortFiles(b)) == multiset(b);
    }
  }

  lemma SortedTagsMultiset(a: seq<string>, b: seq<string>)
    ensures SortTags(a) == SortTags(b) <==> multiset(a) == multiset(b)
  {
    Orders();
    if multiset(a) == multiset(b) {
      var s := SortTags(a);
      forall i, j | 0 <= i < |s| && 0 <= j < |s| && s[i] != s[j] ensures Less(s[i], s[j]) || Less(s[j], s[i]) {
        LessTotal(s[i], s[j]);
      }
      SortedUnique(Less, s, SortTags(b));
    } else {
      assert multiset(SortTags(a)) == multiset(a) && multiset(SortTags(b)) == multiset(b);
    }
  }

  lemma HeadersEqual(p: Package, q: Package)
    requires HeaderFields(p) == HeaderFields(q)
    ensures p.path == q.path && p.name == q.name && p.modulePath == q.modulePath
    ensures p.moduleVersion == q.moduleVersion && p.moduleGoVersion == q.moduleGoVersion
  {
    var a, b := HeaderFields(p), HeaderFields(q);
    assert a[0] == b[0] && a[1] == b[1] && a[2] == b[2] && a[3] == b[3] && a[4] == b[4];
  }

  lemma PackageSplit(a: seq<Field>, b: seq<Field>, c: seq<Category>, d: seq<Category>, x: string, y: string)
    requires SameFieldTags(a, b) && SameCategoryTags(c, d)
    requires (Body(Frame, a) + Body(CategoryBytes, c)) + x == (Body(Frame, b) + Body(CategoryBytes, d)) + y
    ensures a == b && c == d && x == y
  {
    Associate(Body(Frame, a), Body(CategoryBytes, c), x);
    Associate(Body(Frame, b), Body(CategoryBytes, d), y);
    FieldsUnique(a, b, Body(CategoryBytes, c) + x, Body(CategoryBytes, d) + y);
    CategoriesUnique(c, d, x, y);
  }

  ghost predicate SameFieldTags(a: seq<Field>, b: seq<Field>) {
    |a| == |b| && forall i :: 0 <= i < |a| ==> a[i].tag == b[i].tag
  }

  ghost predicate SameCategoryTags(c: seq<Category>, d: seq<Category>) {
    |c| == |d| && forall i :: 0 <= i < |c| ==> c[i].tag == d[i].tag
  }

  lemma PackageTags(p: Package, q: Package)
    ensures SameFieldTags(HeaderFields(p), HeaderFields(q))
    ensures SameCategoryTags(Categories(p), Categories(q))
  {
  }

  lemma PackageUnique(p: Package, q: Package, x: string, y: string)
    requires CompletePackage(p) && CompletePackage(q)
    requires PackageBytes(p) + x == PackageBytes(q) + y
    ensures SamePackage(p, q) && x == y
  {
    PackageEqual(p, q, x, y);
    HeadersEqual(p, q);
    SamePackageFromSorted(p, q);
  }

  lemma PackageEqual(p: Package, q: Package, x: string, y: string)
    requires PackageBytes(p) + x == PackageBytes(q) + y
    ensures HeaderFields(p) == HeaderFields(q) && Categories(p) == Categories(q) && x == y
  {
    PackageTags(p, q);
    PackageSplit(HeaderFields(p), HeaderFields(q), Categories(p), Categories(q), x, y);
  }

  lemma SamePackageFromSorted(p: Package, q: Package)
    requires CompletePackage(p) && CompletePackage(q)
    ensures Categories(p) == Categories(q) <==>
      && multiset(p.goInputs) == multiset(q.goInputs) && multiset(p.checkedSyntax) == multiset(q.checkedSyntax)
      && multiset(p.otherInputs) == multiset(q.otherInputs) && multiset(p.embedInputs) == multiset(q.embedInputs)
  {
    var a, b := Categories(p), Categories(q);
    SortedFilesMultiset(p.goInputs, q.goInputs);
    SortedFilesMultiset(p.checkedSyntax, q.checkedSyntax);
    SortedFilesMultiset(p.otherInputs, q.otherInputs);
    SortedFilesMultiset(p.embedInputs, q.embedInputs);
    assert a == b ==> a[0] == b[0] && a[1] == b[1] && a[2] == b[2] && a[3] == b[3];
  }

  lemma PackagesDecodable()
    ensures Decodable(PackageBytes, CompletePackage, SamePackage)
  {
    forall p, q, x, y | CompletePackage(p) && CompletePackage(q) && PackageBytes(p) + x == PackageBytes(q) + y
      ensures SamePackage(p, q) && x == y
    {
      PackageUnique(p, q, x, y);
    }
  }

  lemma ProfileUnique(s: Snapshot, t: Snapshot, x: string, y: string)
    requires Body(Frame, ProfileFields(s)) + x == Body(Frame, ProfileFields(t)) + y
    ensures s.toolchain == t.toolchain && s.goVersion == t.goVersion && s.goos == t.goos
    ensures s.goarch == t.goarch && s.cgo == t.cgo && x == y
  {
    var a, b := ProfileFields(s), ProfileFields(t);
    FieldsUnique(a, b, x, y);
    assert a[1] == b[1] && a[2] == b[2] && a[3] == b[3] && a[4] == b[4] && a[5] == b[5];
    assert a[5].value[0] == b[5].value[0];
  }

  lemma TagsUnique(a: seq<string>, b: seq<string>, x: string, y: string)
    requires ListBytes("tags", TagFrame, SortTags(a)) + x == ListBytes("tags", TagFrame, SortTags(b)) + y
    ensures multiset(a) == multiset(b) && x == y
  {
    var valid, same := (v: string) => true, (v: string, w: string) => v == w;
    forall p, q, u, v | TagFrame(p) + u == TagFrame(q) + v ensures p == q && u == v {
      FrameUnique("tags-value", p, q, u, v);
    }
    ListUnique("tags", TagFrame, valid, same, SortTags(a), SortTags(b), x, y);
    SortedTagsMultiset(a, b);
  }

  // Equal streams are streams of the same selected source, and the order in
  // which tags and files were listed does not show.
  lemma StreamDecidesSnapshot(s: Snapshot, t: Snapshot)
    requires Complete(s) && Complete(t)
    ensures Stream(s) == Stream(t) <==> SameSnapshot(s, t)
  {
    if Stream(s) == Stream(t) {
      EqualStreams(s, t);
    }
    if SameSnapshot(s, t) {
      SortedTagsMultiset(s.tags, t.tags);
      PackagesSame(s.packages, t.packages);
      assert ProfileFields(s) == ProfileFields(t);
    }
  }

  lemma EqualStreams(s: Snapshot, t: Snapshot)
    requires Complete(s) && Complete(t) && Stream(s) == Stream(t)
    ensures SameSnapshot(s, t)
  {
    var p, q := ListBytes("packages", PackageBytes, s.packages), ListBytes("packages", PackageBytes, t.packages);
    ProfileUnique(s, t,
      ListBytes("tags", TagFrame, SortTags(s.tags)) + p, ListBytes("tags", TagFrame, SortTags(t.tags)) + q);
    TagsUnique(s.tags, t.tags, p, q);
    PackagesDecodable();
    assert p + "" == q + "";
    ListUnique("packages", PackageBytes, CompletePackage, SamePackage, s.packages, t.packages, "", "");
  }

  lemma PackagesSame(a: seq<Package>, b: seq<Package>)
    requires |a| == |b| && forall i :: 0 <= i < |a| ==> SamePackage(a[i], b[i])
    requires forall p :: p in a || p in b ==> CompletePackage(p)
    ensures ListBytes("packages", PackageBytes, a) == ListBytes("packages", PackageBytes, b)
  {
    forall i | 0 <= i < |a| ensures PackageBytes(a[i]) == PackageBytes(b[i]) {
      assert a[i] in a && b[i] in b;
      SamePackageFromSorted(a[i], b[i]);
      assert HeaderFields(a[i]) == HeaderFields(b[i]);
    }
    BodySame(PackageBytes, a, b);
  }

  lemma {:induction false} BodySame<T>(encode: T -> string, a: seq<T>, b: seq<T>)
    requires |a| == |b| && forall i :: 0 <= i < |a| ==> encode(a[i]) == encode(b[i])
    ensures Body(encode, a) == Body(encode, b)
  {
    if a != [] { BodySame(encode, a[1..], b[1..]); }
  }
}
