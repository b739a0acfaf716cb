// Walking a directory tree with a visitor that prunes through error values.
module WalkDir {
  // A directory's children come in the order ReadDir lists them. Unreadable is
  // a directory whose ReadDir fails.
  datatype Entry = File(name: string) | Dir(name: string, children: seq<Entry>) | Unreadable(name: string)
  {
    predicate IsDir() { !File? }
  }

  // One call of the visitor; readFailed marks the report of a failed ReadDir
  // and statFailed that of a failed Stat of the root.
  datatype Call = Call(path: string, isDir: bool, readFailed: bool, statFailed: bool)

  datatype Verdict = Proceed | SkipDir | SkipAll | Failure(code: nat)

  // The visitor may answer by everything it has been called with so far.
  type Visitor = seq<Call> -> Verdict

  function ChildPath(path: string, name: string): string {
    if path == "." then name else path + "/" + name
  }

  function Plain(path: string, entry: Entry): Call {
    Call(path, entry.IsDir(), false, false)
  }

  function Report(path: string): Call {
    Call(path, true, true, false)
  }

  // ---- What the code does -----------------------------------------------------

  datatype Walked = Walked(calls: seq<Call>, verdict: Verdict)

  function Invoke(visit: Visitor, calls: seq<Call>, call: Call): Walked {
    Walked(calls + [call], visit(calls + [call]))
  }

  function Walk(visit: Visitor, calls: seq<Call>, path: string, entry: Entry): Walked
    decreases entry, 1
  {
    var first := Invoke(visit, calls, Plain(path, entry));
    if first.verdict != Proceed then first
    else match entry
      case File(_) => first
      case Unreadable(_) => Invoke(visit, first.calls, Report(path))
      case Dir(_, children) => WalkAll(visit, first.calls, path, children)
  }

  function WalkAll(visit: Visitor, calls: seq<Call>, path: string, children: seq<Entry>): Walked
    decreases children, 0
  {
    if children == [] then Walked(calls, Proceed)
    else
      var r := Walk(visit, calls, ChildPath(path, children[0].name), children[0]);
      if r.verdict == Proceed || (r.verdict == SkipDir && children[0].IsDir()) then WalkAll(visit, r.calls, path, children[1..])
      else r
  }

  class Walker {
    const visit: Visitor
    var calls: seq<Call>

    constructor (visit: Visitor)
      ensures this.visit == visit && calls == []
    {
      this.visit := visit;
      calls := [];
    }

    method InvokeWalkDir(call: Call) returns (verdict: Verdict)
      modifies this
      ensures Walked(calls, verdict) == Invoke(visit, old(calls), call)
    {
      calls := calls + [call];
      verdict := visit(calls);
    }

    method WalkEntry(path: string, entry: Entry) returns (verdict: Verdict)
      modifies this
      ensures Walked(calls, verdict) == Walk(visit, old(calls), path, entry)
      decreases entry
    {
      verdict := InvokeWalkDir(Plain(path, entry));
      if verdict != Proceed || entry.File? {
        return;
      }
      if entry.Unreadable? {
        verdict := InvokeWalkDir(Report(path));
        return;
      }
      ghost var before := calls;
      var children := entry.children;
      for i := 0 to |children|
        invariant WalkAll(visit, before, path, children) == WalkAll(visit, calls, path, children[i..])
      {
        verdict := WalkEntry(ChildPath(path, children[i].name), children[i]);
        assert children[i..][1..] == children[i + 1..];
        if verdict == SkipDir && children[i].IsDir() {
          continue;
        }
        if verdict != Proceed {
          return;
        }
      }
      verdict := Proceed;
    }

    // The root entry is absent when its Stat fails.
    method WalkDir(path: string, root: Entry, statFails: bool) returns (error: Verdict)
      requires calls == []
      modifies this
      ensures statFails ==> Walked(calls, error) == Invoke(visit, [], FailedStat(path))
      ensures !statFails ==> error != SkipAll && calls == Walk(visit, [], path, root).calls
      // A walk that starts at a directory is the documented one.
      ensures !statFails && root.IsDir() ==> Walked(calls, error) == Documented(visit, path, root, false)
      // In general it is unless a skip comes back where nothing can be pruned.
      ensures Walked(calls, error) == Documented(visit, path, root, statFails) <==> !UnhandledSkip(visit, path, root, statFails)
    {
      WalkFollowsDocumentation(visit, path, root);
      assert [] + [FailedStat(path)] == [FailedStat(path)] && [] + [Plain(path, root)] == [Plain(path, root)];
      if statFails {
        error := InvokeWalkDir(FailedStat(path));
        return;
      }
      error := WalkEntry(path, root);
      if error == SkipAll || (error == SkipDir && root.IsDir()) {
        error := Proceed;
      }
    }
  }

  function FailedStat(path: string): Call {
    Call(path, false, false, true)
  }

  // The first and only call answers with a skip, and the code passes it on.
  predicate UnhandledSkip(visit: Visitor, path: string, root: Entry, statFails: bool) {
    if statFails then visit([FailedStat(path)]) in {SkipDir, SkipAll}
    else root.File? && visit([Plain(path, root)]) == SkipDir
  }

  // ---- What the documentation promises -------------------------------------------
  //
  // All possible calls in lexical order, each with the position at which the walk
  // resumes after SkipDir: behind the directory itself, or behind the rest of the
  // directory that holds a file.

  datatype Stop = Stop(call: Call, resume: nat)

  function Size(entry: Entry): nat {
    match entry
    case File(_) => 1
    case Unreadable(_) => 2
    case Dir(_, children) => 1 + SizeAll(children)
  }

  function SizeAll(children: seq<Entry>): nat {
    if children == [] then 0 else Size(children[0]) + SizeAll(children[1..])
  }

  function Stops(path: string, entry: Entry, at: nat, parentEnd: nat): seq<Stop>
    decreases entry, 1
  {
    match entry
    case File(_) => [Stop(Plain(path, entry), parentEnd)]
    case Unreadable(_) => [Stop(Plain(path, entry), at + 2), Stop(Report(path), at + 2)]
    case Dir(_, children) =>
      [Stop(Plain(path, entry), at + Size(entry))] + StopsOfAll(path, children, at + 1, at + Size(entry))
  }

  function StopsOfAll(path: string, children: seq<Entry>, at: nat, end: nat): seq<Stop>
    decreases children, 0
  {
    if children == [] then []
    else
      Stops(ChildPath(path, children[0].name), children[0], at, end)
      + StopsOfAll(path, children[1..], at + Size(children[0]), end)
  }

  ghost predicate Forward(stops: seq<Stop>) {
    forall i :: 0 <= i < |stops| ==> i < stops[i].resume <= |stops|
  }

  ghost function Visit(visit: Visitor, stops: seq<Stop>, calls: seq<Call>, at: nat): Walked
    requires Forward(stops)
    decreases |stops| - at
  {
    if at >= |stops| then Walked(calls, Proceed)
    else
      var next := Invoke(visit, calls, stops[at].call);
      match next.verdict
      case Proceed => Visit(visit, stops, next.calls, at + 1)
      case SkipDir => Visit(visit, stops, next.calls, stops[at].resume)
      case SkipAll => Walked(next.calls, Proceed)
      case Failure(_) => next
  }

  // SkipDir and SkipAll are never returned as errors.
  ghost function Documented(visit: Visitor, path: string, root: Entry, statFails: bool): Walked {
    if statFails then
      var r := Invoke(visit, [], FailedStat(path));
      if r.verdict.Failure? then r else r.(verdict := Proceed)
    else
      StopsAreForward(path, root, 0, Size(root));
      Visit(visit, Stops(path, root, 0, Size(root)), [], 0)
  }

  // ---- The two agree -----------------------------------------------------------------

  lemma {:induction false} StopsSize(path: string, entry: Entry, at: nat, parentEnd: nat)
    ensures |Stops(path, entry, at, parentEnd)| == Size(entry) >= 1
    decreases entry, 1
  {
    if entry.Dir? { StopsOfAllSize(path, entry.children, at + 1, at + Size(entry)); }
  }

  lemma {:induction false} StopsOfAllSize(path: string, children: seq<Entry>, at: nat, end: nat)
    ensures |StopsOfAll(path, children, at, end)| == SizeAll(children)
    decreases children, 0
  {
    if children != [] {
      StopsSize(ChildPath(path, children[0].name), children[0], at, end);
      StopsOfAllSize(path, children[1..], at + Size(children[0]), end);
    }
  }

  // Stops that start at position `at` resume behind themselves, and not behind `end`.
  ghost predicate ForwardFrom(stops: seq<Stop>, at: nat, end: nat) {
    forall i :: 0 <= i < |stops| ==> at + i < stops[i].resume <= end
  }

  lemma FirstStops(path: string, children: seq<Entry>, at: nat, end: nat)
    requires children != []
    ensures var child := children[0]; var stops := Stops(ChildPath(path, child.name), child, at, end);
      && StopsOfAll(path, children, at, end) == stops + StopsOfAll(path, children[1..], at + Size(child), end)
      && |stops| == Size(child) && SizeAll(children) == Size(child) + SizeAll(children[1..])
  {
    StopsSize(ChildPath(path, children[0].name), children[0], at, end);
  }

  lemma {:induction false} StopsForwardFrom(path: string, entry: Entry, at: nat, parentEnd: nat)
    requires at + Size(entry) <= parentEnd
    ensures ForwardFrom(Stops(path, entry, at, parentEnd), at, parentEnd)
    decreases entry, 1
  {
    StopsSize(path, entry, at, parentEnd);
    if entry.Dir? {
      StopsOfAllForwardFrom(path, entry.children, at + 1, at + Size(entry));
    }
  }

  lemma {:induction false} StopsOfAllForwardFrom(path: string, children: seq<Entry>, at: nat, end: nat)
    requires at + SizeAll(children) <= end
    ensures ForwardFrom(StopsOfAll(path, children, at, end), at, end)
    decreases children, 0
  {
    if children != [] {
      var child := children[0];
      FirstStops(path, children, at, end);
      StopsForwardFrom(ChildPath(path, child.name), child, at, end);
      StopsOfAllForwardFrom(path, children[1..], at + Size(child), end);
      ForwardParts(StopsOfAll(path, children, at, end), Stops(ChildPath(path, child.name), child, at, end),
        StopsOfAll(path, children[1..], at + Size(child), end), at, Size(child), end);
    }
  }

  lemma ForwardParts(whole: seq<Stop>, a: seq<Stop>, b: seq<Stop>, at: nat, n: nat, end: nat)
    requires whole == a + b && ForwardFrom(a, at, end) && ForwardFrom(b, at + n, end) && |a| == n
    ensures ForwardFrom(whole, at, end)
  {
  }

  lemma StopsAreForward(path: string, root: Entry, at: nat, parentEnd: nat)
    requires at == 0 && parentEnd == Size(root)
    ensures Forward(Stops(path, root, at, parentEnd))
  {
    StopsForwardFrom(path, root, at, parentEnd);
    StopsSize(path, root, at, parentEnd);
  }

  // Where the visit of all stops goes on after an entry of the given kind.
  ghost function After(visit: Visitor, stops: seq<Stop>, r: Walked, isDir: bool, end: nat, parentEnd: nat): Walked
    requires Forward(stops)
  {
    match r.verdict
    case Proceed => Visit(visit, stops, r.calls, end)
    case SkipDir => Visit(visit, stops, r.calls, if isDir then end else parentEnd)
    case SkipAll => Walked(r.calls, Proceed)
    case Failure(_) => r
  }

  ghost predicate StandsAt(stops: seq<Stop>, at: nat, stop: Stop) {
    at < |stops| && stops[at] == stop
  }

  // The stops of an entry are in the list, from a position on.
  ghost predicate Laid(stops: seq<Stop>, path: string, entry: Entry, at: nat, parentEnd: nat)
    decreases entry, 1
  {
    match entry
    case File(_) => StandsAt(stops, at, Stop(Plain(path, entry), parentEnd))
    case Unreadable(_) => StandsAt(stops, at, Stop(Plain(path, entry), at + 2)) && StandsAt(stops, at + 1, Stop(Report(path), at + 2))
    case Dir(_, children) =>
      StandsAt(stops, at, Stop(Plain(path, entry), at + Size(entry))) && LaidAll(stops, path, children, at + 1, at + Size(entry))
  }

  ghost predicate LaidAll(stops: seq<Stop>, path: string, children: seq<Entry>, at: nat, end: nat)
    decreases children, 0
  {
    children == [] ||
    (Laid(stops, ChildPath(path, children[0].name), children[0], at, end)
     && LaidAll(stops, path, children[1..], at + Size(children[0]), end))
  }

  // An entry without children has one stop, or two.
  lemma LeafVisits(visit: Visitor, stops: seq<Stop>, calls: seq<Call>, path: string, entry: Entry, at: nat, parentEnd: nat)
    requires Forward(stops) && !entry.Dir? && Laid(stops, path, entry, at, parentEnd)
    ensures Visit(visit, stops, calls, at) ==
      After(visit, stops, Walk(visit, calls, path, entry), entry.IsDir(), at + Size(entry), parentEnd)
  {
  }

  // A directory's own stop, and what its children make of the walk.
  lemma DirVisits(visit: Visitor, stops: seq<Stop>, calls: seq<Call>, at: nat, call: Call, end: nat, parentEnd: nat,
    children: Walked, walked: Walked)
    requires Forward(stops) && StandsAt(stops, at, Stop(call, end))
    requires var first := Invoke(visit, calls, call);
      if first.verdict != Proceed then walked == first
      else walked == children && Visit(visit, stops, first.calls, at + 1) == After(visit, stops, children, true, end, end)
    ensures Visit(visit, stops, calls, at) == After(visit, stops, walked, true, end, parentEnd)
  {
  }

  lemma {:induction false} WalkVisits(visit: Visitor, stops: seq<Stop>, calls: seq<Call>,
    path: string, entry: Entry, at: nat, parentEnd: nat)
    requires Forward(stops) && Laid(stops, path, entry, at, parentEnd)
    ensures Visit(visit, stops, calls, at) ==
      After(visit, stops, Walk(visit, calls, path, entry), entry.IsDir(), at + Size(entry), parentEnd)
    decreases entry, 1
  {
    match entry
    case File(_) => LeafVisits(visit, stops, calls, path, entry, at, parentEnd);
    case Unreadable(_) => LeafVisits(visit, stops, calls, path, entry, at, parentEnd);
    case Dir(_, children) =>
      var end, call := at + Size(entry), Plain(path, entry);
      var first := Invoke(visit, calls, call);
      WalkAllVisits(visit, stops, first.calls, path, children, at + 1, end);
      DirVisits(visit, stops, calls, at, call, end, parentEnd,
        WalkAll(visit, first.calls, path, children), Walk(visit, calls, path, entry));
  }

  lemma {:induction false} WalkAllVisits(visit: Visitor, stops: seq<Stop>, calls: seq<Call>,
    path: string, children: seq<Entry>, at: nat, end: nat)
    requires Forward(stops) && LaidAll(stops, path, children, at, end) && end == at + SizeAll(children)
    ensures Visit(visit, stops, calls, at) ==
      After(visit, stops, WalkAll(visit, calls, path, children), true, end, end)
    decreases children, 0
  {
    if children != [] {
      var child := children[0];
      var childPath, next := ChildPath(path, child.name), at + Size(child);
      var r := Walk(visit, calls, childPath, child);
      WalkVisits(visit, stops, calls, childPath, child, at, end);
      WalkAllVisits(visit, stops, r.calls, path, children[1..], next, end);
      WalkAllUnfolds(visit, calls, path, children);
      GoesOn(visit, stops, Visit(visit, stops, calls, at), r, WalkAll(visit, r.calls, path, children[1..]),
        WalkAll(visit, calls, path, children), child.IsDir(), next, end);
    }
  }

  lemma WalkAllUnfolds(visit: Visitor, calls: seq<Call>, path: string, children: seq<Entry>)
    requires children != []
    ensures var r := Walk(visit, calls, ChildPath(path, children[0].name), children[0]);
      WalkAll(visit, calls, path, children) ==
      if r.verdict == Proceed || (r.verdict == SkipDir && children[0].IsDir()) then WalkAll(visit, r.calls, path, children[1..])
      else r
  {
  }

  // After a child the rest of its directory follows, or the child's verdict is passed on.
  lemma GoesOn(visit: Visitor, stops: seq<Stop>, whole: Walked, r: Walked, rest: Walked, walked: Walked,
    isDir: bool, next: nat, end: nat)
    requires Forward(stops) && whole == After(visit, stops, r, isDir, next, end)
    requires Visit(visit, stops, r.calls, next) == After(visit, stops, rest, true, end, end)
    requires walked == if r.verdict == Proceed || (r.verdict == SkipDir && isDir) then rest else r
    ensures whole == After(visit, stops, walked, true, end, end)
  {
  }

  // The list of all stops has them where they belong.
  lemma {:induction false} StopsAreLaid(before: seq<Stop>, behind: seq<Stop>, path: string, entry: Entry, at: nat, parentEnd: nat)
    requires |before| == at
    ensures Laid((before + Stops(path, entry, at, parentEnd)) + behind, path, entry, at, parentEnd)
    decreases entry, 1
  {
    match entry
    case File(_) =>
    case Unreadable(_) =>
    case Dir(_, children) =>
      var end := at + Size(entry);
      var own, below := Stop(Plain(path, entry), end), StopsOfAll(path, children, at + 1, end);
      OwnStopStands(before, own, below, behind);
      StopsOfAllAreLaid(before + [own], behind, path, children, at + 1, end);
  }

  lemma {:induction false} StopsOfAllAreLaid(before: seq<Stop>, behind: seq<Stop>, path: string, children: seq<Entry>, at: nat, end: nat)
    requires |before| == at
    ensures LaidAll((before + StopsOfAll(path, children, at, end)) + behind, path, children, at, end)
    decreases children, 0
  {
    if children != [] {
      var child := children[0];
      var childPath := ChildPath(path, child.name);
      var first, others := Stops(childPath, child, at, end), StopsOfAll(path, children[1..], at + Size(child), end);
      StopsSize(childPath, child, at, end);
      StopsAreLaid(before, others + behind, childPath, child, at, end);
      StopsOfAllAreLaid(before + first, behind, path, children[1..], at + Size(child), end);
      PartsAreLaid(before, first, others, behind, path, children, at, end);
    }
  }

  lemma PartsAreLaid(before: seq<Stop>, first: seq<Stop>, others: seq<Stop>, behind: seq<Stop>,
    path: string, children: seq<Entry>, at: nat, end: nat)
    requires children != [] && first == Stops(ChildPath(path, children[0].name), children[0], at, end)
    requires others == StopsOfAll(path, children[1..], at + Size(children[0]), end)
    requires Laid((before + first) + (others + behind), ChildPath(path, children[0].name), children[0], at, end)
    requires LaidAll(((before + first) + others) + behind, path, children[1..], at + Size(children[0]), end)
    ensures LaidAll((before + StopsOfAll(path, children, at, end)) + behind, path, children, at, end)
  {
    FirstStops(path, children, at, end);
    Between(before, first, others, behind);
  }

  lemma Between<T>(before: seq<T>, a: seq<T>, b: seq<T>, behind: seq<T>)
    ensures (before + (a + b)) + behind == ((before + a) + b) + behind == (before + a) + (b + behind)
  {
  }

  lemma OwnStopStands(before: seq<Stop>, own: Stop, below: seq<Stop>, behind: seq<Stop>)
    ensures StandsAt((before + ([own] + below)) + behind, |before|, own)
    ensures (before + ([own] + below)) + behind == ((before + [own]) + below) + behind
  {
    Between(before, [own], below, behind);
  }

  lemma WalkFollowsDocumentation(visit: Visitor, path: string, root: Entry)
    ensures var r := Walk(visit, [], path, root); var d := Documented(visit, path, root, false);
      && d.calls == r.calls
      && d.verdict == (if r.verdict in {SkipDir, SkipAll} then Proceed else r.verdict)
      && (root.File? ==> r == Invoke(visit, [], Plain(path, root)))
  {
    var stops := Stops(path, root, 0, Size(root));
    StopsAreForward(path, root, 0, Size(root));
    StopsSize(path, root, 0, Size(root));
    assert ([] + stops) + [] == stops;
    StopsAreLaid([], [], path, root, 0, Size(root));
    WalkVisits(visit, stops, [], path, root, 0, Size(root));
  }

  // ---- Which calls there are ------------------------------------------------------------

  // Each name behind a slash.
  function Slashed(names: seq<string>): (r: string)
    ensures names != [] ==> r != "" && r[0] == '/'
  {
    if names == [] then "" else "/" + names[0] + Slashed(names[1..])
  }

  // The path of what the names lead to from the root's path: a dot stands for nothing.
  function PathText(path: string, names: seq<string>): string {
    if names == [] then path
    else if path != "." then path + Slashed(names)
    else if names[0] == "." then PathText(path, names[1..])
    else names[0] + Slashed(names[1..])
  }

  // In lexical order: one call for each entry, and a second one for a directory that
  // cannot be read.
  function Listing(path: string, names: seq<string>, entry: Entry): seq<Call>
    decreases entry, 1
  {
    var text := PathText(path, names);
    match entry
    case File(_) => [Call(text, false, false, false)]
    case Unreadable(_) => [Call(text, true, false, false), Call(text, true, true, false)]
    case Dir(_, children) => [Call(text, true, false, false)] + ListingOfAll(path, names, children)
  }

  function ListingOfAll(path: string, names: seq<string>, children: seq<Entry>): seq<Call>
    decreases children, 0
  {
    if children == [] then []
    else Listing(path, names + [children[0].name], children[0]) + ListingOfAll(path, names, children[1..])
  }

  lemma {:induction false} SlashedOne(names: seq<string>, name: string)
    ensures Slashed(names + [name]) == Slashed(names) + "/" + name
  {
    if names != [] {
      assert (names + [name])[1..] == names[1..] + [name];
      SlashedOne(names[1..], name);
    } else {
      assert ([] + [name])[1..] == [] && ([] + [name])[0] == name;
    }
  }

  lemma {:induction false} PathOfChild(path: string, names: seq<string>, name: string)
    ensures PathText(path, names + [name]) == ChildPath(PathText(path, names), name)
  {
    if names == [] {
      assert [] + [name] == [name] && [name][1..] == [];
      assert Slashed([name]) == "/" + name;
    } else {
      assert (names + [name])[0] == names[0] && (names + [name])[1..] == names[1..] + [name];
      if path != "." {
        SlashedOne(names, name);
        PathIsNoDot(path, names);
      } else if names[0] == "." {
        PathOfChild(path, names[1..], name);
      } else {
        SlashedOne(names[1..], name);
        PathIsNoDot(names[0], names[1..]);
      }
    }
  }

  lemma PathIsNoDot(path: string, names: seq<string>)
    requires path != "."
    ensures path + Slashed(names) != "."
  {
    var text := path + Slashed(names);
    if names == [] {
      assert text == path;
    } else {
      assert text[|path|] == '/';
      assert text[0] == '/' || |text| > 1;
    }
  }

  function CallsOf(stops: seq<Stop>): seq<Call> {
    seq(|stops|, i requires 0 <= i < |stops| => stops[i].call)
  }

  lemma CallsOfBoth(a: seq<Stop>, b: seq<Stop>)
    ensures CallsOf(a + b) == CallsOf(a) + CallsOf(b)
  {
  }

  // The calls that the documented visit chooses from, whatever it prunes.
  lemma {:induction false} StopsAreListed(path: string, names: seq<string>, entry: Entry, at: nat, parentEnd: nat)
    ensures CallsOf(Stops(PathText(path, names), entry, at, parentEnd)) == Listing(path, names, entry)
    decreases entry, 1
  {
    if entry.Dir? {
      var text, end := PathText(path, names), at + Size(entry);
      StopsOfAllAreListed(path, names, entry.children, at + 1, end);
      CallsOfBoth([Stop(Plain(text, entry), end)], StopsOfAll(text, entry.children, at + 1, end));
    }
  }

  lemma {:induction false} StopsOfAllAreListed(path: string, names: seq<string>, children: seq<Entry>, at: nat, end: nat)
    ensures CallsOf(StopsOfAll(PathText(path, names), children, at, end)) == ListingOfAll(path, names, children)
    decreases children, 0
  {
    if children != [] {
      var child := children[0];
      var text := PathText(path, names);
      PathOfChild(path, names, child.name);
      StopsAreListed(path, names + [child.name], child, at, end);
      StopsOfAllAreListed(path, names, children[1..], at + Size(child), end);
      FirstStops(text, children, at, end);
      CallsOfBoth(Stops(ChildPath(text, child.name), child, at, end), StopsOfAll(text, children[1..], at + Size(child), end));
    }
  }

  // A visitor that prunes nothing is called for each of them.
  lemma {:induction false} UnprunedWalk(visit: Visitor, calls: seq<Call>, path: string, names: seq<string>, entry: Entry)
    requires forall c :: visit(c) == Proceed
    ensures Walk(visit, calls, PathText(path, names), entry) == Walked(calls + Listing(path, names, entry), Proceed)
    decreases entry, 1
  {
    var own := Plain(PathText(path, names), entry);
    match entry
    case File(_) =>
    case Unreadable(_) => InSteps(calls, [own], [Report(PathText(path, names))]);
    case Dir(_, children) =>
      UnprunedWalkOfAll(visit, calls + [own], path, names, children);
      InSteps(calls, [own], ListingOfAll(path, names, children));
  }

  lemma {:induction false} UnprunedWalkOfAll(visit: Visitor, calls: seq<Call>, path: string, names: seq<string>, children: seq<Entry>)
    requires forall c :: visit(c) == Proceed
    ensures WalkAll(visit, calls, PathText(path, names), children) == Walked(calls + ListingOfAll(path, names, children), Proceed)
    decreases children, 0
  {
    if children == [] {
      assert calls + [] == calls;
    } else {
      var child := children[0];
      var first, others := Listing(path, names + [child.name], child), ListingOfAll(path, names, children[1..]);
      PathOfChild(path, names, child.name);
      UnprunedWalk(visit, calls, path, names + [child.name], child);
      UnprunedWalkOfAll(visit, calls + first, path, names, children[1..]);
      WalkAllUnfolds(visit, calls, PathText(path, names), children);
      InSteps(calls, first, others);
    }
  }

  lemma InSteps<T>(calls: seq<T>, a: seq<T>, b: seq<T>)
    ensures (calls + a) + b == calls + (a + b)
  {
  }
}
