// Settling a compilation session: requiring packages, emitting declarations and
// initializing packages until no queue has work left.
module Settlement {
  import opened Common
  import opened Text
  import opened PackageGraph
  import opened Schedulers
  import opened Digraph
  import Initialization = InitializationOrder

  // The identity of a checker object.
  type Declaration = nat

  datatype Home = Source(owner: Package, isVariable: bool) | Environment | Unknown

  // What the loader knows: `variables` lists the package-level variables of a scope
  // by name, `implemented` the packages with a source implementation, `contracts`
  // whether the observable contracts of those were captured before.
  datatype Program = Program(
    packages: set<Package>, imports: Imports, emitters: set<Package>,
    home: Declaration -> Home, variables: Package -> seq<Declaration>,
    implemented: set<Package>, contracts: bool)

  ghost predicate WellFormed(program: Program) {
    && (forall p, i :: p in program.packages && i in program.imports(p) && i.target.Loaded? ==>
          i.target.dependency in program.packages)
    && (forall d :: program.home(d).Source? ==> program.home(d).owner in program.packages)
    && (forall p :: p in program.packages ==> Distinct(program.variables(p)))
    && (forall p, d :: p in program.packages && d in program.variables(p) && program.home(d).Source? ==>
          program.home(d) == Source(p, true))
  }

  datatype Builder = Builder(sourceImplementation: bool, storage: seq<Declaration>)

  datatype Failure =
    | HandlerFailed | NoDeclaration | NoPackage | NoEmitter | DependencyWithoutSources | VariableNotIndexed
    | OwnerNotReached | StorageDuplicated | NoAssemblyOwner | StorageMissing | StorageIncomplete

  // Failures of what a handler requests.
  predicate Refused(f: Failure) {
    f in {NoDeclaration, NoPackage, NoEmitter, DependencyWithoutSources, VariableNotIndexed}
  }

  // Failures of the hidden emit handlers or of what they request.
  predicate Requested(f: Failure) {
    f == HandlerFailed || Refused(f)
  }

  // What a hidden handler may do to the session: anything, in any order.
  datatype Effect =
    | Use(declaration: Declaration) | UsePackage(required: Package)
    | Require(owner: nat) | Orphan(owner: nat) | Retain(owner: nat)
    | MarkDirty(artifact: nat) | Discard(artifact: nat)
    | Publish(exporter: Package) | Demand(demand: nat)
  datatype Response = Response(effects: seq<Effect>, fails: bool, revived: set<nat>)

  datatype Outcome = Settled | Failed(failure: Failure) | Running

  // What a handler is called for: a root, a declaration, the requirements of an owner,
  // a dirty artifact, a package, orphaned requirements, exports, or the batched demands.
  datatype Purpose =
    | Rooting | Declaring(declaration: Declaration) | Requiring(owner: nat) | Reconstructing(artifact: nat)
    | Initializing(initialized: Package) | Removing | Exporting(exporter: Package) | Demanding

  // `clear` if no declaration, requirement or dirty artifact was pending.
  datatype Call = Call(purpose: Purpose, clear: bool)

  // The hidden work that is pending.
  datatype Pending = Pending(
    requirements: set<nat>, orphaned: set<nat>, dirty: set<nat>, exports: set<Package>, demands: set<nat>)

  // ---- The calls of handlers ---------------------------------------------------------

  // The declarations and the packages that handlers were called for.
  function Declared(log: seq<Call>): seq<Declaration> {
    if log == [] then []
    else
      var last := log[|log| - 1].purpose;
      Declared(log[..|log| - 1]) + if last.Declaring? then [last.declaration] else []
  }

  function Initialized(log: seq<Call>): seq<Package> {
    if log == [] then []
    else
      var last := log[|log| - 1].purpose;
      Initialized(log[..|log| - 1]) + if last.Initializing? then [last.initialized] else []
  }

  // The packages without source implementation, in their order.
  function Emitted(program: Program, packages: seq<Package>): seq<Package> {
    if packages == [] then []
    else
      var last := packages[|packages| - 1];
      Emitted(program, packages[..|packages| - 1]) + if last in program.implemented then [] else [last]
  }

  // One call for each declaration that was popped, and for each popped package that
  // has no source implementation, in popping order; those for packages came when
  // nothing else was pending.
  ghost predicate Logged(program: Program, log: seq<Call>, v: View) {
    && Declared(log) == v.popped && Initialized(log) == Emitted(program, v.initialized)
    && forall k :: 0 <= k < |log| && log[k].purpose.Initializing? ==> log[k].clear
  }

  function Count(log: seq<Call>, purpose: Purpose): nat {
    if log == [] then 0 else Count(log[..|log| - 1], purpose) + if log[|log| - 1].purpose == purpose then 1 else 0
  }

  lemma {:induction false} CountOccurs(log: seq<Call>, d: Declaration, p: Package)
    ensures Count(log, Declaring(d)) == multiset(Declared(log))[d]
    ensures Count(log, Initializing(p)) == multiset(Initialized(log))[p]
  {
    if log != [] {
      CountOccurs(log[..|log| - 1], d, p);
    }
  }

  lemma {:induction false} EmittedOccurs(program: Program, packages: seq<Package>, p: Package)
    ensures multiset(Emitted(program, packages))[p] == if p in program.implemented then 0 else multiset(packages)[p]
  {
    if packages != [] {
      var init := packages[..|packages| - 1];
      EmittedOccurs(program, init, p);
      assert packages == init + [packages[|packages| - 1]];
    }
  }

  lemma {:induction false} DistinctOccurs<T>(s: seq<T>, x: T)
    requires Distinct(s)
    ensures multiset(s)[x] == if x in s then 1 else 0
  {
    if s != [] {
      var init := s[..|s| - 1];
      DistinctOccurs(init, x);
      assert s == init + [s[|s| - 1]];
    }
  }

  // Exactly one call for each of them, and none for anything else.
  lemma LoggedOnce(program: Program, log: seq<Call>, v: View, d: Declaration, p: Package)
    requires Logged(program, log, v) && Distinct(v.popped) && Distinct(v.initialized)
    ensures Count(log, Declaring(d)) == if d in v.popped then 1 else 0
    ensures Count(log, Initializing(p)) == if p in v.initialized && p !in program.implemented then 1 else 0
  {
    CountOccurs(log, d, p);
    EmittedOccurs(program, v.initialized, p);
    DistinctOccurs(v.popped, d);
    DistinctOccurs(v.initialized, p);
  }

  ghost predicate Adds(before: seq<Call>, after: seq<Call>, done: seq<Purpose>) {
    && |after| == |before| + |done| && before <= after
    && forall k :: 0 <= k < |done| ==>
         after[|before| + k].purpose == done[k] && (done[k].Initializing? ==> after[|before| + k].clear)
  }

  lemma AddsBoth(before: seq<Call>, between: seq<Call>, after: seq<Call>, first: seq<Purpose>, second: seq<Purpose>)
    requires Adds(before, between, first) && Adds(between, after, second)
    ensures Adds(before, after, first + second)
  {
    forall k | 0 <= k < |first + second|
      ensures var c := after[|before| + k]; c.purpose == (first + second)[k] && ((first + second)[k].Initializing? ==> c.clear)
    {
      if k >= |first| {
        assert after[|between| + (k - |first|)].purpose == second[k - |first|];
      }
    }
  }

  // What has been handled of the members in some order.
  lemma BatchOf(purposes: seq<Purpose>, handled: nat, members: set<Purpose>)
    requires Distinct(purposes) && Elements(purposes) == members && handled <= |purposes|
    ensures Batch(members, purposes[..handled], true) && forall p :: p in purposes[..handled] ==> p in members
    ensures handled == |purposes| ==> Batch(members, purposes[..handled], false)
  {
    var done := purposes[..handled];
    assert forall p :: p in done ==> p in Elements(purposes);
    assert handled == |purposes| ==> done == purposes;
  }

  lemma AddedOne(before: seq<Call>, after: seq<Call>, purpose: Purpose)
    requires Adds(before, after, [purpose])
    ensures Declared(after) == Declared(before) + if purpose.Declaring? then [purpose.declaration] else []
    ensures Initialized(after) == Initialized(before) + if purpose.Initializing? then [purpose.initialized] else []
    ensures forall k :: 0 <= k < |after| ==> after[k] == if k < |before| then before[k] else Call(purpose, after[|before|].clear)
    ensures purpose.Initializing? ==> after[|before|].clear
  {
    assert after[|before| + 0].purpose == purpose;
    assert after[..|after| - 1] == before;
  }

  lemma DeclarationLogged(program: Program, log: seq<Call>, after: seq<Call>, a: View, b: View, d: Declaration)
    requires Logged(program, log, a) && Adds(log, after, [Declaring(d)])
    requires b.popped == a.popped + [d] && b.initialized == a.initialized
    ensures Logged(program, after, b)
  {
    AddedOne(log, after, Declaring(d));
  }

  lemma InitializationLogged(program: Program, log: seq<Call>, after: seq<Call>, a: View, b: View, p: Package)
    requires Logged(program, log, a) && Adds(log, after, if p in program.implemented then [] else [Initializing(p)])
    requires b.popped == a.popped && b.initialized == a.initialized + [p]
    ensures Logged(program, after, b)
  {
    assert b.initialized[..|b.initialized| - 1] == a.initialized;
    if p in program.implemented {
      assert after == log;
    } else {
      AddedOne(log, after, Initializing(p));
    }
  }

  // Calls for anything else.
  lemma {:induction false} OthersLogged(program: Program, log: seq<Call>, after: seq<Call>, a: View, b: View, done: seq<Purpose>)
    requires Logged(program, log, a) && Adds(log, after, done)
    requires forall p :: p in done ==> !p.Declaring? && !p.Initializing?
    requires b.popped == a.popped && b.initialized == a.initialized
    ensures Logged(program, after, b)
    decreases |done|
  {
    if done == [] {
      assert after == log;
    } else {
      var n := |done| - 1;
      var init := after[..|after| - 1];
      assert after[|log| + n].purpose == done[n] && done[n] in done;
      OthersLogged(program, log, init, a, b, done[..n]);
      assert forall k :: 0 <= k < |init| ==> after[k] == init[k];
    }
  }

  // A package is initialized by one call, unless a source implements it or its
  // storage is not complete.
  ghost function Initializes(program: Program, p: Package, f: Option<Failure>): seq<Purpose> {
    if p in program.implemented || f == Some(StorageIncomplete) then [] else [Initializing(p)]
  }

  // Each of the members once, if nothing fails.
  ghost predicate Batch(members: set<Purpose>, done: seq<Purpose>, failed: bool) {
    Distinct(done) && Elements(done) <= members && (!failed ==> Elements(done) == members)
  }

  ghost predicate LateDue(pending: Pending, done: seq<Purpose>, outcome: Outcome) {
    if pending.exports != {} then
      Batch(set p <- pending.exports :: Exporting(p), done, outcome.Failed?) && !outcome.Settled?
    else if pending.demands != {} then done == [Demanding] && !outcome.Settled?
    else done == [] && outcome.Settled?
  }

  ghost predicate RemovalsDue(pending: Pending, revived: set<nat>, done: seq<Purpose>, outcome: Outcome) {
    if pending.orphaned == {} then LateDue(pending, done, outcome)
    else
      && done != [] && done[0] == Removing
      && if pending.orphaned <= revived then LateDue(pending, done[1..], outcome) else done == [Removing] && outcome.Running?
  }

  lemma RemovalsThenLate(pending: Pending, revived: set<nat>, later: Pending, done: seq<Purpose>, outcome: Outcome)
    requires pending.orphaned <= revived && later.exports == pending.exports && later.demands == pending.demands
    requires LateDue(later, done, outcome)
    ensures RemovalsDue(pending, revived, Removals(pending) + done, outcome)
  {
    assert (Removals(pending) + done)[|Removals(pending)|..] == done;
    assert Removals(pending) == [] ==> Removals(pending) + done == done;
  }

  ghost function Removals(pending: Pending): seq<Purpose> {
    if pending.orphaned == {} then [] else [Removing]
  }

  // The calls of an iteration: of the sources that have work the first one is asked.
  ghost predicate Due(program: Program, v: View, pending: Pending, revived: set<nat>, done: seq<Purpose>, outcome: Outcome) {
    if v.queue != [] then done == [Declaring(v.queue[0])] && !outcome.Settled?
    else if pending.requirements != {} then
      |done| == 1 && done[0].Requiring? && done[0].owner in pending.requirements && !outcome.Settled?
    else if pending.dirty != {} then
      Batch(set a <- pending.dirty :: Reconstructing(a), done, outcome.Failed?) && !outcome.Settled?
    else if v.packageQueue != [] then
      done == Initializes(program, v.packageQueue[0], Ending(outcome)) && !outcome.Settled?
    else RemovalsDue(pending, revived, done, outcome)
  }

  ghost predicate Fails(call: Call, response: Response) {
    response.fails && !call.purpose.Removing?
  }

  ghost predicate GrantsAll(program: Program, effects: seq<Effect>) {
    forall e :: e in effects ==> Granted(program, e)
  }

  // A handler is to blame for its own failure, or for a request that is not granted.
  ghost predicate Blamed(program: Program, call: Call, response: Response, f: Failure) {
    if f == HandlerFailed then Fails(call, response) else !call.purpose.Removing? && !GrantsAll(program, response.effects)
  }

  // No call since `from` has failed, or only the last one, and that is the failure.
  ghost predicate Answered(program: Program, respond: nat -> Response, log: seq<Call>, from: nat, f: Option<Failure>) {
    var answered := if f.Some? && Requested(f.value) then |log| - 1 else |log|;
    && from <= answered
    && (forall k :: from <= k < answered ==> !Fails(log[k], respond(k)))
    && (answered < |log| ==> Blamed(program, log[answered], respond(answered), f.value))
  }

  lemma AnsweredOn(program: Program, respond: nat -> Response, log: seq<Call>, after: seq<Call>, from: nat, f: Option<Failure>)
    requires Answered(program, respond, log, from, None) && log <= after && Answered(program, respond, after, |log|, f)
    ensures Answered(program, respond, after, from, f)
  {
  }

  // The calls made for `done`, with failure f.
  ghost predicate Makes(program: Program, respond: nat -> Response, before: seq<Call>, after: seq<Call>,
    done: seq<Purpose>, f: Option<Failure>) {
    Adds(before, after, done) && Answered(program, respond, after, |before|, f)
  }

  lemma MakesNone(program: Program, respond: nat -> Response, log: seq<Call>, f: Option<Failure>)
    requires f.Some? ==> !Requested(f.value)
    ensures Makes(program, respond, log, log, [], f)
  {
  }

  lemma MakesOne(program: Program, respond: nat -> Response, log: seq<Call>, purpose: Purpose, clear: bool, f: Option<Failure>)
    requires (purpose.Initializing? ==> clear) && !purpose.Removing?
    requires var response := respond(|log|);
      if f.Some? then (f.value == HandlerFailed && response.fails) || (Refused(f.value) && !GrantsAll(program, response.effects))
      else !response.fails
    ensures Makes(program, respond, log, log + [Call(purpose, clear)], [purpose], f)
  {
  }

  lemma MakesRemoval(program: Program, respond: nat -> Response, log: seq<Call>, clear: bool)
    ensures Makes(program, respond, log, log + [Call(Removing, clear)], [Removing], None)
  {
  }

  lemma MakesBoth(program: Program, respond: nat -> Response, before: seq<Call>, between: seq<Call>, after: seq<Call>,
    first: seq<Purpose>, second: seq<Purpose>, f: Option<Failure>)
    requires Makes(program, respond, before, between, first, None) && Makes(program, respond, between, after, second, f)
    ensures Makes(program, respond, before, after, first + second, f)
  {
    AddsBoth(before, between, after, first, second);
    AnsweredOn(program, respond, between, after, |before|, f);
  }

  lemma MakesMore(program: Program, respond: nat -> Response, before: seq<Call>, between: seq<Call>, after: seq<Call>,
    purposes: seq<Purpose>, k: nat, f: Option<Failure>)
    requires k < |purposes| && Makes(program, respond, before, between, purposes[..k], None)
    requires Makes(program, respond, between, after, [purposes[k]], f)
    ensures Makes(program, respond, before, after, purposes[..k + 1], f) && |after| == |between| + 1
  {
    MakesBoth(program, respond, before, between, after, purposes[..k], [purposes[k]], f);
    assert purposes[..k + 1] == purposes[..k] + [purposes[k]];
  }

  // ---- What handlers leave to the hidden queues -------------------------------------

  function Noted(pending: Pending, effect: Effect): Pending {
    match effect
    case Use(_) => pending
    case UsePackage(_) => pending
    case Require(owner) => pending.(requirements := pending.requirements + {owner})
    case Orphan(owner) => pending.(orphaned := pending.orphaned + {owner})
    case Retain(owner) => pending.(orphaned := pending.orphaned - {owner})
    case MarkDirty(artifact) => pending.(dirty := pending.dirty + {artifact})
    case Discard(artifact) => pending.(dirty := pending.dirty - {artifact})
    case Publish(exporter) => pending.(exports := pending.exports + {exporter})
    case Demand(demand) => pending.(demands := pending.demands + {demand})
  }

  // After the first k effects.
  function NotedFirst(pending: Pending, effects: seq<Effect>, k: nat): Pending
    requires k <= |effects|
  {
    if k == 0 then pending else Noted(NotedFirst(pending, effects, k - 1), effects[k - 1])
  }

  function NotedAll(pending: Pending, effects: seq<Effect>): Pending {
    NotedFirst(pending, effects, |effects|)
  }

  ghost predicate Occurs(effects: seq<Effect>, from: nat, k: nat, effect: Effect)
    requires k <= |effects|
  {
    exists j :: from <= j < k && effects[j] == effect
  }

  // The effect occurs among the first k, and none that takes it back comes later.
  ghost predicate Lasts(effects: seq<Effect>, k: nat, effect: Effect, back: Effect)
    requires k <= |effects|
  {
    exists j :: 0 <= j < k && effects[j] == effect && !Occurs(effects, j + 1, k, back)
  }

  lemma OccursOn(effects: seq<Effect>, from: nat, k: nat, effect: Effect)
    requires from <= k < |effects|
    ensures Occurs(effects, from, k + 1, effect) <==> effects[k] == effect || Occurs(effects, from, k, effect)
  {
  }

  lemma LastsNow(effects: seq<Effect>, k: nat, effect: Effect, back: Effect)
    requires k < |effects| && effects[k] == effect
    ensures Lasts(effects, k + 1, effect, back)
  {
    assert !Occurs(effects, k + 1, k + 1, back);
  }

  lemma LastsStill(effects: seq<Effect>, k: nat, effect: Effect, back: Effect)
    requires k < |effects| && effects[k] != back && Lasts(effects, k, effect, back)
    ensures Lasts(effects, k + 1, effect, back)
  {
    var j :| 0 <= j < k && effects[j] == effect && !Occurs(effects, j + 1, k, back);
    OccursOn(effects, j + 1, k, back);
  }

  lemma LastedBefore(effects: seq<Effect>, k: nat, effect: Effect, back: Effect)
    requires k < |effects| && effects[k] != effect && Lasts(effects, k + 1, effect, back)
    ensures effects[k] != back && Lasts(effects, k, effect, back)
  {
    var j :| 0 <= j < k + 1 && effects[j] == effect && !Occurs(effects, j + 1, k + 1, back);
    OccursOn(effects, j + 1, k, back);
  }

  lemma LastsOn(effects: seq<Effect>, k: nat, effect: Effect, back: Effect)
    requires k < |effects| && effect != back
    ensures Lasts(effects, k + 1, effect, back) <==> effects[k] == effect || (effects[k] != back && Lasts(effects, k, effect, back))
  {
    if effects[k] == effect {
      LastsNow(effects, k, effect, back);
    } else if Lasts(effects, k + 1, effect, back) {
      LastedBefore(effects, k, effect, back);
    } else if effects[k] != back && Lasts(effects, k, effect, back) {
      LastsStill(effects, k, effect, back);
    }
  }

  // What is pending is what was asked for and not taken back afterwards.
  lemma {:induction false} PendingIff(pending: Pending, effects: seq<Effect>, k: nat, n: nat, p: Package)
    requires k <= |effects|
    ensures var after := NotedFirst(pending, effects, k);
      && (n in after.requirements <==> n in pending.requirements || Occurs(effects, 0, k, Require(n)))
      && (p in after.exports <==> p in pending.exports || Occurs(effects, 0, k, Publish(p)))
      && (n in after.demands <==> n in pending.demands || Occurs(effects, 0, k, Demand(n)))
      && (n in after.orphaned <==>
          Lasts(effects, k, Orphan(n), Retain(n)) || (n in pending.orphaned && !Occurs(effects, 0, k, Retain(n))))
      && (n in after.dirty <==>
          Lasts(effects, k, MarkDirty(n), Discard(n)) || (n in pending.dirty && !Occurs(effects, 0, k, Discard(n))))
  {
    if k > 0 {
      PendingIff(pending, effects, k - 1, n, p);
      LastsOn(effects, k - 1, Orphan(n), Retain(n));
      LastsOn(effects, k - 1, MarkDirty(n), Discard(n));
      OccursOn(effects, 0, k - 1, Require(n));
      OccursOn(effects, 0, k - 1, Publish(p));
      OccursOn(effects, 0, k - 1, Demand(n));
      OccursOn(effects, 0, k - 1, Retain(n));
      OccursOn(effects, 0, k - 1, Discard(n));
      NotedIff(NotedFirst(pending, effects, k - 1), effects[k - 1], n, p);
    }
  }

  lemma NotedIff(pending: Pending, effect: Effect, n: nat, p: Package)
    ensures var after := Noted(pending, effect);
      && (n in after.requirements <==> n in pending.requirements || effect == Require(n))
      && (p in after.exports <==> p in pending.exports || effect == Publish(p))
      && (n in after.demands <==> n in pending.demands || effect == Demand(n))
      && (n in after.orphaned <==> effect == Orphan(n) || (n in pending.orphaned && effect != Retain(n)))
      && (n in after.dirty <==> effect == MarkDirty(n) || (n in pending.dirty && effect != Discard(n)))
  {
  }

  // The answers of n calls, one after the other, make one of the other.
  ghost predicate Leads(a: Pending, respond: nat -> Response, from: nat, n: nat, b: Pending) {
    b == NotedCalls(a, respond, from, n)
  }

  ghost function NotedCalls(pending: Pending, respond: nat -> Response, from: nat, n: nat): Pending {
    if n == 0 then pending else NotedAll(NotedCalls(pending, respond, from, n - 1), respond(from + n - 1).effects)
  }

  lemma LeadsOn(a: Pending, respond: nat -> Response, from: nat, n: nat, b: Pending, c: Pending)
    requires Leads(a, respond, from, n, b) && c == NotedAll(b, respond(from + n).effects)
    ensures Leads(a, respond, from, n + 1, c)
  {
  }

  // ---- Invariants over the whole run ----------------------------------------------

  // `open` holds the packages whose requirement is still in progress, `current`
  // the declaration being emitted, `requested` what roots and handlers asked for.
  datatype View = View(
    queue: seq<Declaration>, popped: seq<Declaration>, packageQueue: seq<Package>, initialized: seq<Package>,
    builders: map<Package, Builder>, open: set<Package>, current: Option<Declaration>, requested: set<Declaration>)

  ghost predicate Scheduled(v: View, d: Declaration) {
    d in v.queue || d in v.popped
  }

  ghost predicate Stores(program: Program, d: Declaration) {
    var h := program.home(d);
    h.Source? && h.isVariable && !(program.contracts && h.owner in program.implemented)
  }

  ghost predicate OwnersReached(program: Program, v: View) {
    && v.open <= v.builders.Keys <= program.packages
    && (forall d :: Scheduled(v, d) && program.home(d).Source? ==> program.home(d).owner in v.builders)
    && (forall p :: p in v.builders ==> (v.builders[p].sourceImplementation <==> p in program.implemented))
    && (forall p :: p in v.builders && p !in v.open <==> p in v.packageQueue || p in v.initialized)
  }

  ghost predicate ImportsReached(program: Program, v: View, p: Package) {
    forall i :: i in program.imports(p) ==> Satisfied(i, v.builders.Keys)
  }

  ghost predicate VariablesScheduled(program: Program, v: View, p: Package) {
    p !in program.implemented ==>
      forall d :: d in program.variables(p) ==> Scheduled(v, d) && program.home(d) == Source(p, true)
  }

  // The same of the first k variables.
  ghost predicate FirstScheduled(program: Program, v: View, p: Package, k: nat)
    requires k <= |program.variables(p)|
  {
    forall j :: 0 <= j < k ==> Scheduled(v, program.variables(p)[j]) && program.home(program.variables(p)[j]) == Source(p, true)
  }

  lemma OneMoreScheduled(program: Program, a: View, b: View, p: Package, k: nat)
    requires k < |program.variables(p)| && FirstScheduled(program, a, p, k) && Grows(a, b)
    requires Scheduled(b, program.variables(p)[k]) && program.home(program.variables(p)[k]) == Source(p, true)
    ensures FirstScheduled(program, b, p, k + 1)
  {
  }

  ghost predicate Completed(program: Program, v: View) {
    forall p :: p in v.builders && p !in v.open ==> ImportsReached(program, v, p) && VariablesScheduled(program, v, p)
  }

  ghost predicate StorageHeld(program: Program, v: View) {
    && (forall p :: p in v.builders ==> Distinct(v.builders[p].storage))
    && (forall p, d :: p in v.builders && d in v.builders[p].storage ==>
          d in v.popped && v.current != Some(d) && program.home(d) == Source(p, true))
    && (forall d :: d in v.popped && Stores(program, d) && v.current != Some(d) ==>
          program.home(d).owner in v.builders && d in v.builders[program.home(d).owner].storage)
  }

  // A package-level variable of a package without source implementation.
  predicate Ordinary(program: Program, d: Declaration) {
    var h := program.home(d);
    h.Source? && h.isVariable && h.owner !in program.implemented
  }

  predicate Listed(program: Program, d: Declaration) {
    program.home(d).Source? && d in program.variables(program.home(d).owner)
  }

  // An ordinary variable is scheduled for its scope, or because it was asked for.
  ghost predicate OnlyRequested(program: Program, v: View) {
    forall d :: Scheduled(v, d) && Ordinary(program, d) ==> Listed(program, d) || d in v.requested
  }

  ghost predicate Good(program: Program, v: View) {
    OwnersReached(program, v) && Completed(program, v) && StorageHeld(program, v) && OnlyRequested(program, v)
  }

  // Between two pops the queues only grow, and builders are only added, without storage.
  ghost predicate Grows(a: View, b: View) {
    && a.popped == b.popped && a.initialized == b.initialized && a.current == b.current
    && a.queue <= b.queue && a.packageQueue <= b.packageQueue
    && a.builders.Keys <= b.builders.Keys && a.requested <= b.requested
    && (forall p :: p in a.builders ==> b.builders[p] == a.builders[p])
    && (forall p :: p in b.builders && p !in a.builders ==> b.builders[p].storage == [])
  }

  // Nothing is popped, and what is scheduled stays so.
  ghost predicate Moves(a: View, b: View) {
    a.popped == b.popped && a.initialized == b.initialized && a.queue <= b.queue && a.requested <= b.requested
  }

  ghost predicate Stays(a: View, b: View) {
    a.popped == b.popped && a.initialized == b.initialized && a.queue == b.queue && a.packageQueue == b.packageQueue
  }

  lemma GrowsKeepsStorage(program: Program, a: View, b: View)
    requires StorageHeld(program, a) && Grows(a, b)
    ensures StorageHeld(program, b)
  {
  }

  lemma GrowsKeepsCompleted(program: Program, a: View, b: View)
    requires Completed(program, a) && Grows(a, b)
    requires forall p :: p in b.builders && p !in b.open && !(p in a.builders && p !in a.open) ==>
      ImportsReached(program, b, p) && VariablesScheduled(program, b, p)
    ensures Completed(program, b)
  {
    forall p | p in a.builders && p !in a.open ensures ImportsReached(program, b, p) && VariablesScheduled(program, b, p) {
      forall i | i in program.imports(p) ensures Satisfied(i, b.builders.Keys) {
        assert Satisfied(i, a.builders.Keys);
      }
      assert forall d :: Scheduled(a, d) ==> Scheduled(b, d);
    }
  }

  // A declaration whose owner has a builder may be enqueued.
  lemma EnqueueKeepsGood(program: Program, v: View, d: Declaration)
    requires Good(program, v) && (program.home(d).Source? ==> program.home(d).owner in v.builders)
    requires Ordinary(program, d) ==> Listed(program, d) || d in v.requested
    ensures var w := if d in v.queue || d in v.popped then v else v.(queue := v.queue + [d]);
      Good(program, w) && Grows(v, w) && Scheduled(w, d)
  {
    var w := v.(queue := v.queue + [d]);
    assert w.queue[|v.queue|] == d;
    GrowsKeepsStorage(program, v, w);
    GrowsKeepsCompleted(program, v, w);
  }

  lemma RequestKeepsGood(program: Program, v: View, d: Declaration)
    requires Good(program, v)
    ensures var w := v.(requested := v.requested + {d}); Good(program, w) && Grows(v, w)
  {
    var w := v.(requested := v.requested + {d});
    GrowsKeepsStorage(program, v, w);
    GrowsKeepsCompleted(program, v, w);
  }

  lemma RegisterKeepsGood(program: Program, v: View, p: Package)
    requires Good(program, v) && p in program.packages && p !in v.builders
    ensures var w := v.(builders := v.builders[p := Builder(p in program.implemented, [])], open := v.open + {p});
      Good(program, w) && Grows(v, w)
  {
    var w := v.(builders := v.builders[p := Builder(p in program.implemented, [])], open := v.open + {p});
    GrowsKeepsStorage(program, v, w);
    GrowsKeepsCompleted(program, v, w);
  }

  lemma CloseKeepsGood(program: Program, v: View, p: Package)
    requires Good(program, v) && p in v.open && ImportsReached(program, v, p) && VariablesScheduled(program, v, p)
    ensures p !in v.packageQueue && p !in v.initialized
    ensures var w := v.(packageQueue := v.packageQueue + [p], open := v.open - {p});
      Good(program, w) && Grows(v, w)
  {
    var w := v.(packageQueue := v.packageQueue + [p], open := v.open - {p});
    assert ImportsReached(program, w, p) && VariablesScheduled(program, w, p) by {
      assert forall d :: Scheduled(v, d) ==> Scheduled(w, d);
    }
    GrowsKeepsStorage(program, v, w);
    GrowsKeepsCompleted(program, v, w);
  }

  lemma PopKeepsGood(program: Program, v: View)
    requires Good(program, v) && v.queue != [] && v.current == None && v.queue[0] !in v.popped
    ensures Good(program, v.(queue := v.queue[1..], popped := v.popped + [v.queue[0]], current := Some(v.queue[0])))
  {
    var w := v.(queue := v.queue[1..], popped := v.popped + [v.queue[0]], current := Some(v.queue[0]));
    forall d ensures Scheduled(w, d) <==> Scheduled(v, d) {
      assert v.queue == [v.queue[0]] + v.queue[1..];
    }
    assert forall p :: ImportsReached(program, v, p) ==> ImportsReached(program, w, p);
    assert forall p :: VariablesScheduled(program, v, p) ==> VariablesScheduled(program, w, p);
  }

  lemma OwnerIsReached(program: Program, v: View, d: Declaration, p: Package)
    requires Good(program, v) && v.current == Some(d) && d in v.popped && program.home(d) == Source(p, true)
    ensures p in v.builders && d !in v.builders[p].storage
  {
    assert Scheduled(v, d);
    StoreKeepsGood(program, v, d, p);
  }

  lemma StoreKeepsGood(program: Program, v: View, d: Declaration, p: Package)
    requires Good(program, v) && v.current == Some(d) && d in v.popped
    requires program.home(d) == Source(p, true) && p in v.builders
    ensures d !in v.builders[p].storage
    ensures var b := v.builders[p];
      Good(program, v.(builders := v.builders[p := b.(storage := b.storage + [d])], current := None))
  {
    var b := v.builders[p];
    var w := v.(builders := v.builders[p := b.(storage := b.storage + [d])], current := None);
    assert v.builders.Keys == w.builders.Keys;
    assert forall q :: ImportsReached(program, v, q) ==> ImportsReached(program, w, q);
    assert forall q :: VariablesScheduled(program, v, q) ==> VariablesScheduled(program, w, q);
    assert d in w.builders[p].storage by { assert w.builders[p].storage[|b.storage|] == d; }
    assert forall x :: x in b.storage ==> x in w.builders[p].storage;
  }

  // A declaration without storage of its own is done when its handler is.
  lemma DoneKeepsGood(program: Program, v: View, d: Declaration)
    requires Good(program, v) && v.current == Some(d) && !Stores(program, d)
    ensures Good(program, v.(current := None))
  {
    var w := v.(current := None);
    assert forall p :: ImportsReached(program, v, p) ==> ImportsReached(program, w, p);
    assert forall p :: VariablesScheduled(program, v, p) ==> VariablesScheduled(program, w, p);
    forall p, x | p in v.builders && x in v.builders[p].storage ensures x in w.popped && program.home(x) == Source(p, true) {}
  }

  lemma PopPackageKeepsGood(program: Program, v: View)
    requires Good(program, v) && v.packageQueue != []
    ensures Good(program, v.(packageQueue := v.packageQueue[1..], initialized := v.initialized + [v.packageQueue[0]]))
    ensures v.packageQueue[0] in v.builders && v.packageQueue[0] !in v.open
  {
    var w := v.(packageQueue := v.packageQueue[1..], initialized := v.initialized + [v.packageQueue[0]]);
    assert v.packageQueue == [v.packageQueue[0]] + v.packageQueue[1..];
    assert forall p :: ImportsReached(program, v, p) ==> ImportsReached(program, w, p);
    assert forall p :: VariablesScheduled(program, v, p) ==> VariablesScheduled(program, w, p);
  }

  // With no declaration left, the storage of an ordinary package holds exactly the
  // variables that were scheduled for it.
  lemma StoredIsScheduled(program: Program, v: View, p: Package)
    requires Good(program, v) && v.queue == [] && v.current == None && p in v.builders && p !in program.implemented
    ensures forall d :: d in v.builders[p].storage <==> Scheduled(v, d) && program.home(d) == Source(p, true)
  {
    forall d | Scheduled(v, d) && program.home(d) == Source(p, true) ensures d in v.builders[p].storage {
      assert Stores(program, d);
    }
  }

  // With no declaration left, the storage of every ordinary package is complete.
  lemma StorageComplete(program: Program, v: View, p: Package)
    requires Good(program, v) && v.queue == [] && v.current == None
    requires p in v.builders && p !in v.open && p !in program.implemented
    ensures forall d :: d in program.variables(p) ==> d in v.builders[p].storage
  {
    forall d | d in program.variables(p) ensures d in v.builders[p].storage {
      assert VariablesScheduled(program, v, p) && Scheduled(v, d);
      assert Stores(program, d);
    }
  }

  // ---- The session ---------------------------------------------------------------------

  // A variable emitted for a package whose scope does not list it.
  predicate Unlisted(program: Program, d: Declaration) {
    Ordinary(program, d) && !Listed(program, d)
  }

  predicate UnlistedFor(program: Program, p: Package, d: Declaration) {
    Unlisted(program, d) && program.home(d).owner == p
  }

  // It is scheduled, and its package is still to be initialized.
  ghost predicate Awaited(program: Program, v: View, d: Declaration) {
    Scheduled(v, d) && Unlisted(program, d) && program.home(d).owner !in v.initialized
  }

  // Handlers that ask for nothing more and do not fail, from some call on.
  ghost predicate Calm(respond: nat -> Response, from: nat) {
    forall k :: k >= from ==> respond(k).effects == [] && !respond(k).fails
  }

  // A declaration that is used is scheduled, a package that is used has its builder.
  ghost predicate Honoured(effect: Effect, v: View) {
    && (effect.Use? ==> Scheduled(v, effect.declaration))
    && (effect.UsePackage? ==> effect.required in v.builders)
  }

  ghost predicate UsesScheduled(effects: seq<Effect>, k: nat, v: View)
    requires k <= |effects|
  {
    forall j :: 0 <= j < k ==> Honoured(effects[j], v)
  }

  lemma UsesStayScheduled(effects: seq<Effect>, k: nat, a: View, b: View)
    requires k < |effects| && UsesScheduled(effects, k, a) && Grows(a, b)
    requires Honoured(effects[k], b)
    ensures UsesScheduled(effects, k + 1, b)
  {
  }

  // Packages that can be required without an error.
  ghost predicate Requirable(program: Program, packages: set<Package>) {
    && packages <= program.emitters
    && (forall p, i :: p in packages && i in program.imports(p) ==> Exempt(i) || (i.target.Loaded? && i.target.hasModule))
    && (forall p, d :: p in packages && d in program.variables(p) ==> program.home(d).Source?)
  }

  // A request that is granted, and changes no hidden queue.
  ghost predicate Granted(program: Program, e: Effect) {
    e.Use? && !program.home(e.declaration).Unknown? &&
    (program.home(e.declaration).Source? ==> Requirable(program, program.packages))
  }

  // Variables that are awaited stay so.
  ghost predicate Keeps(program: Program, a: View, b: View) {
    forall d :: Awaited(program, a, d) ==> Awaited(program, b, d)
  }

  // One piece of work less, and nothing new is awaited.
  ghost predicate Shrinks(program: Program, a: View, b: View) {
    |b.queue| + |b.packageQueue| + 1 == |a.queue| + |a.packageQueue| && Keeps(program, b, a)
  }

  lemma PopKeepsScheduled(a: View, b: View)
    requires a.queue != [] && b.queue == a.queue[1..] && b.popped == a.popped + [a.queue[0]]
    ensures forall d :: Scheduled(b, d) <==> Scheduled(a, d)
  {
    assert a.queue == [a.queue[0]] + a.queue[1..];
  }

  lemma InitializedNow(a: View, b: View, p: Package)
    requires b.queue == a.queue && b.popped == a.popped && b.initialized == a.initialized + [p] && Distinct(b.initialized)
    ensures p !in a.initialized && forall q :: q in b.initialized <==> q in a.initialized || q == p
    ensures forall d :: Scheduled(b, d) <==> Scheduled(a, d)
  {
    assert forall i :: 0 <= i < |a.initialized| ==> b.initialized[i] == a.initialized[i];
    assert b.initialized[|a.initialized|] == p;
  }

  predicate ImportByPath(a: Import, b: Import) {
    Less(a.path, b.path)
  }

  function SortedImports(program: Program, p: Package): (r: seq<Import>)
    ensures Sorted(ImportByPath, r) && forall i :: i in r <==> i in program.imports(p)
  {
    StringOrder();
    PermutationKeeps(Sort(ImportByPath, program.imports(p)), program.imports(p));
    Sort(ImportByPath, program.imports(p))
  }

  ghost predicate Reached(imports: seq<Import>, v: View) {
    forall i :: i in imports ==> Satisfied(i, v.builders.Keys)
  }

  lemma ReachedGrows(imports: seq<Import>, k: nat, a: View, b: View)
    requires k < |imports| && Reached(imports[..k], a) && Grows(a, b) && Satisfied(imports[k], b.builders.Keys)
    ensures Reached(imports[..k + 1], b)
  {
    forall i | i in imports[..k + 1] ensures Satisfied(i, b.builders.Keys) {
      assert i in imports[..k] || i == imports[k];
      assert Satisfied(i, a.builders.Keys) ==> Satisfied(i, b.builders.Keys);
    }
  }

  lemma GrowsTransitive(a: View, b: View, c: View)
    requires Grows(a, b) && Grows(b, c)
    ensures Grows(a, c)
  {
  }

  // The packages hold whatever their members import.
  ghost predicate ImportClosed(program: Program, packages: set<Package>) {
    forall p, i :: p in packages && i in program.imports(p) && i.target.Loaded? ==> i.target.dependency in packages
  }

  // What was added was needed: builders within the given packages, and variables of
  // the given owners or of packages with a new builder.
  ghost predicate Needed(program: Program, within: set<Package>, owners: set<Package>, a: View, b: View) {
    && b.builders.Keys <= a.builders.Keys + within
    && forall d :: d in b.queue && d !in a.queue ==> OwnedVariable(program, owners + (b.builders.Keys - a.builders.Keys), d)
  }

  ghost predicate OwnedVariable(program: Program, owners: set<Package>, d: Declaration) {
    exists p :: p in owners && p !in program.implemented && d in program.variables(p)
  }

  lemma NeededTransitive(program: Program, within: set<Package>, owners: set<Package>, more: set<Package>, a: View, b: View, c: View)
    requires Grows(a, b) && Grows(b, c) && Needed(program, within, owners, a, b) && Needed(program, within, more, b, c)
    requires more <= owners + (b.builders.Keys - a.builders.Keys)
    ensures Needed(program, within, owners, a, c)
  {
    forall d | d in c.queue && d !in a.queue ensures OwnedVariable(program, owners + (c.builders.Keys - a.builders.Keys), d) {
      if d in b.queue {
        assert OwnedVariable(program, owners + (b.builders.Keys - a.builders.Keys), d);
      } else {
        assert OwnedVariable(program, more + (c.builders.Keys - b.builders.Keys), d);
      }
    }
  }

  lemma NeededMore(program: Program, within: set<Package>, few: set<Package>, many: set<Package>, a: View, b: View)
    requires Needed(program, within, few, a, b) && few <= many
    ensures Needed(program, within, many, a, b)
  {
    forall d | d in b.queue && d !in a.queue ensures OwnedVariable(program, many + (b.builders.Keys - a.builders.Keys), d) {
      assert OwnedVariable(program, few + (b.builders.Keys - a.builders.Keys), d);
    }
  }

  lemma NeededVariable(program: Program, within: set<Package>, p: Package, a: View, b: View, c: View, d: Declaration)
    requires Needed(program, within, {p}, a, b) && p !in program.implemented && d in program.variables(p)
    requires c == b.(queue := c.queue) && (c.queue == b.queue || c.queue == b.queue + [d])
    ensures Needed(program, within, {p}, a, c)
  {
    forall x | x in c.queue && x !in a.queue ensures OwnedVariable(program, {p} + (c.builders.Keys - a.builders.Keys), x) {
      assert x in b.queue || x == d;
    }
  }

  class Session {
    const program: Program
    // The hidden handlers: the answer to each of their calls.
    const respond: nat -> Response
    const scheduler: DeclarationScheduler<Declaration>
    const initializations: InitializationScheduler<Package>

    var calls: nat
    var builders: map<Package, Builder>
    var requirements: set<nat>
    var orphaned: set<nat>
    var dirty: set<nat>
    var exports: set<Package>
    var demands: set<nat>
    // The calls of handlers so far: respond(k) answers log[k].
    ghost var log: seq<Call>
    ghost var open: set<Package>
    ghost var current: Option<Declaration>
    ghost var requested: set<Declaration>

    constructor (program: Program, respond: nat -> Response)
      requires WellFormed(program)
      ensures fresh(scheduler) && fresh(initializations) && Valid() && Idle()
      ensures this.program == program && this.respond == respond && builders == map[] && calls == 0
      ensures log == [] && Logged(program, log, Now())
      ensures Bare() && scheduler.popped == [] && initializations.popped == []
    {
      this.program, this.respond := program, respond;
      scheduler := new DeclarationScheduler();
      initializations := new InitializationScheduler();
      calls, builders := 0, map[];
      requirements, orphaned, dirty, exports, demands := {}, {}, {}, {}, {};
      log, open, current, requested := [], {}, None, {};
    }

    ghost function Now(): View
      reads this, scheduler, initializations
    {
      View(scheduler.queue, scheduler.popped, initializations.queue, initializations.popped, builders, open, current, requested)
    }

    ghost predicate Grants(response: Response) {
      !response.fails && GrantsAll(program, response.effects)
    }

    // The queues of the hidden components.
    ghost function Hidden(): Pending
      reads this
    {
      Pending(requirements, orphaned, dirty, exports, demands)
    }

    // What comes before the initialization of a package is done.
    ghost predicate Clear()
      reads this, scheduler
    {
      scheduler.queue == [] && requirements == {} && dirty == {}
    }

    ghost predicate Sound()
      reads this, scheduler, initializations
    {
      WellFormed(program) && scheduler.Valid() && initializations.Valid() && |log| == calls
    }

    ghost predicate Valid()
      reads this, scheduler, initializations
    {
      Sound() && Good(program, Now())
    }

    // Between two iterations of the settling loop.
    ghost predicate Idle()
      reads this
    {
      open == {} && current == None
    }

    method EnqueueDeclaration(d: Declaration)
      requires Valid() && (program.home(d).Source? ==> program.home(d).owner in builders)
      requires Ordinary(program, d) ==> Listed(program, d) || d in requested
      modifies scheduler
      ensures Valid() && Grows(old(Now()), Now()) && Scheduled(Now(), d)
      ensures Now() == old(Now()).(queue := scheduler.queue)
      ensures scheduler.queue == old(scheduler.queue) || scheduler.queue == old(scheduler.queue) + [d]
    {
      EnqueueKeepsGood(program, Now(), d);
      scheduler.Enqueue(d);
    }

    method Register(p: Package)
      requires Valid() && p in program.packages && p !in builders
      modifies `builders, `open
      ensures Valid() && Grows(old(Now()), Now()) && p in builders && open == old(open) + {p}
      ensures scheduler.queue == old(scheduler.queue) && builders.Keys == old(builders).Keys + {p}
    {
      RegisterKeepsGood(program, Now(), p);
      builders := builders[p := Builder(p in program.implemented, [])];
      open := open + {p};
    }

    method Close(p: Package)
      requires Valid() && p in open && ImportsReached(program, Now(), p) && VariablesScheduled(program, Now(), p)
      modifies `open, initializations
      ensures Valid() && Grows(old(Now()), Now()) && open == old(open) - {p} && builders == old(builders)
    {
      CloseKeepsGood(program, Now(), p);
      initializations.Enqueue(p);
      open := open - {p};
    }

    // The builder is registered before its imports are required, which ends the
    // recursion; the package is enqueued for initialization after its variables.
    // Nothing is required that is not among the packages reached by imports: `within`
    // is any import-closed set with the package.
    method RequirePackage(p: Package, ghost within: set<Package>) returns (f: Option<Failure>)
      requires Valid() && p in program.packages && p in within && ImportClosed(program, within)
      modifies `builders, `open, scheduler, initializations
      ensures Sound()
      ensures f == None ==> Valid() && Grows(old(Now()), Now()) && open == old(open) && p in builders
      ensures f == None ==> Needed(program, within, {}, old(Now()), Now())
      ensures f.Some? ==> Refused(f.value)
      ensures Requirable(program, within) ==> f == None
      decreases program.packages - builders.Keys, 0
    {
      if p in builders {
        return None;
      }
      if p !in program.emitters {
        return Some(NoEmitter);
      }
      ghost var before := Now();
      Register(p);
      ghost var registered := Now();
      f := RequireOpen(p, within);
      if f.Some? {
        return;
      }
      ghost var between := Now();
      NeededTransitive(program, within, {}, {p}, before, registered, between);
      GrowsTransitive(before, registered, between);
      Close(p);
      GrowsTransitive(before, between, Now());
    }

    // Imports and variables of a package that has its builder already.
    method RequireOpen(p: Package, ghost within: set<Package>) returns (f: Option<Failure>)
      requires Valid() && p in program.packages && p in builders && p in within && ImportClosed(program, within)
      modifies `builders, `open, scheduler, initializations
      ensures Sound()
      ensures f == None ==> Valid() && Grows(old(Now()), Now()) && open == old(open)
      ensures f == None ==> ImportsReached(program, Now(), p) && VariablesScheduled(program, Now(), p)
      ensures f == None ==> Needed(program, within, {p}, old(Now()), Now())
      ensures f.Some? ==> Refused(f.value)
      ensures Requirable(program, within) ==> f == None
      decreases program.packages - builders.Keys, 3
    {
      ghost var before := Now();
      f := RequireImports(p, within);
      if f.Some? {
        return;
      }
      NeededMore(program, within, {}, {p}, before, Now());
      if p in program.implemented {
        return;
      }
      ghost var between := Now();
      f := EnqueueVariables(p, within);
      if f.Some? {
        return;
      }
      NeededTransitive(program, within, {p}, {p}, before, between, Now());
      GrowsTransitive(before, between, Now());
    }

    method RequireImports(p: Package, ghost within: set<Package>) returns (f: Option<Failure>)
      requires Valid() && p in program.packages && p in builders && p in within && ImportClosed(program, within)
      modifies `builders, `open, scheduler, initializations
      ensures Sound()
      ensures f == None ==> Valid() && Grows(old(Now()), Now()) && open == old(open) && ImportsReached(program, Now(), p)
      ensures f == None ==> Needed(program, within, {}, old(Now()), Now())
      ensures f.Some? ==> Refused(f.value)
      ensures Requirable(program, within) ==> f == None
      decreases program.packages - builders.Keys, 2
    {
      ghost var before := Now();
      var imports := SortedImports(program, p);
      for k := 0 to |imports|
        invariant Valid() && Grows(before, Now()) && open == old(open) && Needed(program, within, {}, before, Now())
        invariant program.packages - builders.Keys <= program.packages - before.builders.Keys
        invariant Reached(imports[..k], Now())
      {
        assert imports[k] in imports && imports[k] in program.imports(p);
        ghost var between := Now();
        f := RequireImport(imports[k], within);
        if f.Some? {
          return;
        }
        NeededTransitive(program, within, {}, {}, before, between, Now());
        GrowsTransitive(before, between, Now());
        ReachedGrows(imports, k, between, Now());
      }
      assert imports[..|imports|] == imports;
      return None;
    }

    method RequireImport(i: Import, ghost within: set<Package>) returns (f: Option<Failure>)
      requires Valid() && ImportClosed(program, within)
      requires i.target.Loaded? ==> i.target.dependency in program.packages && i.target.dependency in within
      requires exists p :: p in within && i in program.imports(p)
      modifies `builders, `open, scheduler, initializations
      ensures Sound()
      ensures f == None ==> Valid() && Grows(old(Now()), Now()) && open == old(open) && Satisfied(i, builders.Keys)
      ensures f == None ==> Needed(program, within, {}, old(Now()), Now())
      ensures f.Some? ==> Refused(f.value)
      ensures Requirable(program, within) ==> f == None
      decreases program.packages - builders.Keys, 1
    {
      if Exempt(i) {
        return None;
      }
      if !i.target.Loaded? || !i.target.hasModule {
        return Some(DependencyWithoutSources);
      }
      f := RequirePackage(i.target.dependency, within);
    }

    method EnqueueVariables(p: Package, ghost within: set<Package>) returns (f: Option<Failure>)
      requires Valid() && p in program.packages && p in builders && p !in program.implemented
      modifies scheduler
      ensures Sound()
      ensures f == None ==> Valid() && Grows(old(Now()), Now()) && VariablesScheduled(program, Now(), p)
      ensures f == None ==> Needed(program, within, {p}, old(Now()), Now())
      ensures f.Some? ==> f.value == VariableNotIndexed
      ensures p in within && Requirable(program, within) ==> f == None
    {
      ghost var before := Now();
      var variables := program.variables(p);
      for k := 0 to |variables|
        invariant Valid() && Grows(before, Now()) && Needed(program, within, {p}, before, Now())
        invariant FirstScheduled(program, Now(), p, k)
      {
        assert variables[k] in variables;
        if !program.home(variables[k]).Source? {
          return Some(VariableNotIndexed);
        }
        ghost var between := Now();
        EnqueueDeclaration(variables[k]);
        NeededVariable(program, within, p, before, between, Now(), variables[k]);
        GrowsTransitive(before, between, Now());
        OneMoreScheduled(program, between, Now(), p, k);
      }
      return None;
    }

    method RequireUse(d: Declaration) returns (f: Option<Failure>)
      requires Valid()
      modifies `builders, `open, `requested, scheduler, initializations
      ensures Sound()
      ensures f == None ==> Valid() && Grows(old(Now()), Now()) && open == old(open)
      ensures f == None ==> Scheduled(Now(), d) && d in requested
      ensures f.Some? ==> Refused(f.value)
      ensures Granted(program, Use(d)) ==> f == None
    {
      var home := program.home(d);
      if home.Unknown? {
        return Some(NoDeclaration);
      }
      ghost var before := Now();
      if home.Source? {
        f := RequirePackage(home.owner, program.packages);
        if f.Some? {
          return;
        }
      }
      ghost var required := Now();
      RequestKeepsGood(program, required, d);
      requested := requested + {d};
      GrowsTransitive(before, required, Now());
      ghost var between := Now();
      EnqueueDeclaration(d);
      GrowsTransitive(before, between, Now());
      return None;
    }

    method Apply(effect: Effect) returns (f: Option<Failure>)
      requires Valid()
      modifies this, scheduler, initializations
      ensures Sound() && calls == old(calls) && log == old(log)
      ensures f == None ==> Valid() && Grows(old(Now()), Now()) && open == old(open)
      ensures f == None ==> Honoured(effect, Now()) && Hidden() == Noted(old(Hidden()), effect)
      ensures f.Some? ==> Refused(f.value)
      ensures Granted(program, effect) ==> f == None && Hidden() == old(Hidden())
    {
      match effect {
        case Use(d) =>
          f := RequireUse(d);
          return;
        case UsePackage(p) =>
          if p !in program.packages {
            return Some(NoPackage);
          }
          f := RequirePackage(p, program.packages);
          return;
        case Require(owner) => requirements := requirements + {owner};
        case Orphan(owner) => orphaned := orphaned + {owner};
        case Retain(owner) => orphaned := orphaned - {owner};
        case MarkDirty(artifact) => dirty := dirty + {artifact};
        case Discard(artifact) => dirty := dirty - {artifact};
        case Publish(exporter) => exports := exports + {exporter};
        case Demand(demand) => demands := demands + {demand};
      }
      return None;
    }

    // One call of a hidden handler. A handler that only makes requests that can be
    // granted succeeds; one that asks for nothing changes nothing.
    method Handle(ghost purpose: Purpose) returns (f: Option<Failure>)
      requires Valid() && !purpose.Removing? && (purpose.Initializing? ==> Clear())
      modifies this, scheduler, initializations
      ensures Sound() && Makes(program, respond, old(log), log, [purpose], f)
      ensures f == None ==> Valid() && Grows(old(Now()), Now()) && open == old(open)
      ensures f == None ==> UsesScheduled(respond(old(calls)).effects, |respond(old(calls)).effects|, Now())
      ensures f == None ==> Hidden() == NotedAll(old(Hidden()), respond(old(calls)).effects)
      ensures f.Some? ==> Requested(f.value)
      ensures Grants(respond(old(calls))) ==> f == None && Hidden() == old(Hidden())
      ensures respond(old(calls)).effects == [] ==> Now() == old(Now())
    {
      var response := respond(calls);
      log := log + [Call(purpose, Clear())];
      calls := calls + 1;
      f := ApplyAll(response.effects);
      if f == None && response.fails {
        f := Some(HandlerFailed);
      }
      MakesOne(program, respond, old(log), purpose, old(Clear()), f);
    }

    // The requests of a handler, one after the other.
    method ApplyAll(effects: seq<Effect>) returns (f: Option<Failure>)
      requires Valid()
      modifies this, scheduler, initializations
      ensures Sound() && calls == old(calls) && log == old(log)
      ensures f == None ==> Valid() && Grows(old(Now()), Now()) && open == old(open)
      ensures f == None ==> UsesScheduled(effects, |effects|, Now()) && Hidden() == NotedAll(old(Hidden()), effects)
      ensures f.Some? ==> Refused(f.value) && !GrantsAll(program, effects)
      ensures GrantsAll(program, effects) ==> Hidden() == old(Hidden())
      ensures effects == [] ==> Now() == old(Now())
    {
      ghost var before := Now();
      for k := 0 to |effects|
        invariant Valid() && Grows(before, Now()) && open == old(open) && calls == old(calls) && log == old(log)
        invariant UsesScheduled(effects, k, Now()) && Hidden() == NotedFirst(old(Hidden()), effects, k)
        invariant GrantsAll(program, effects) ==> Hidden() == old(Hidden())
        invariant k == 0 ==> Now() == before
      {
        ghost var between := Now();
        assert effects[k] in effects;
        f := Apply(effects[k]);
        if f.Some? {
          return;
        }
        GrowsTransitive(before, between, Now());
        UsesStayScheduled(effects, k, between, Now());
      }
      return None;
    }

    // The storage is appended after everything its emission requires.
    method EmitPackageStorage(d: Declaration, p: Package) returns (f: Option<Failure>)
      requires Valid() && open == {} && current == Some(d) && d in scheduler.popped && program.home(d) == Source(p, true)
      modifies this, scheduler, initializations
      ensures Sound() && Makes(program, respond, old(log), log, [Declaring(d)], f)
      ensures f == None ==> Valid() && Idle() && Moves(old(Now()), Now())
      ensures f.Some? ==> Requested(f.value)
      ensures Calm(respond, old(calls)) ==> f == None && Hidden() == old(Hidden()) && Stays(old(Now()), Now())
    {
      OwnerIsReached(program, Now(), d, p);
      if p !in builders {
        return Some(OwnerNotReached);
      }
      if d in builders[p].storage {
        return Some(StorageDuplicated);
      }
      f := Handle(Declaring(d));
      if f.Some? {
        return;
      }
      Store(d, p);
    }

    method Store(d: Declaration, p: Package)
      requires Valid() && open == {} && current == Some(d) && d in scheduler.popped
      requires program.home(d) == Source(p, true) && p in builders
      modifies `builders, `current
      ensures Valid() && Idle() && Moves(old(Now()), Now()) && Stays(old(Now()), Now())
      ensures builders == old(builders)[p := old(builders)[p].(storage := old(builders)[p].storage + [d])]
    {
      StoreKeepsGood(program, Now(), d, p);
      builders := builders[p := builders[p].(storage := builders[p].storage + [d])];
      current := None;
    }

    method Emit(d: Declaration) returns (f: Option<Failure>)
      requires Valid() && open == {} && current == Some(d) && d in scheduler.popped
      modifies this, scheduler, initializations
      ensures Sound() && Makes(program, respond, old(log), log, [Declaring(d)], f)
      ensures f == None ==> Valid() && Idle() && Moves(old(Now()), Now())
      ensures f.Some? ==> Requested(f.value)
      ensures Calm(respond, old(calls)) ==> f == None && Hidden() == old(Hidden()) && Stays(old(Now()), Now())
    {
      var home := program.home(d);
      if home.Source? && !(program.contracts && home.owner in program.implemented) && home.isVariable {
        f := EmitPackageStorage(d, home.owner);
        return;
      }
      f := Handle(Declaring(d));
      if f.Some? {
        return;
      }
      DoneKeepsGood(program, Now(), d);
      current := None;
    }

    // Of the errors about storage only one is left: a variable was emitted for the
    // package that its scope does not list.
    method EmitPackageInitialization(p: Package) returns (f: Option<Failure>)
      requires Valid() && Idle() && Clear() && p in initializations.popped
      modifies this, scheduler, initializations
      ensures Sound() && p in old(builders)
      ensures Makes(program, respond, old(log), log, Initializes(program, p, f), f)
      ensures f == None ==> Valid() && Idle() && Moves(old(Now()), Now())
      ensures f.Some? ==> Requested(f.value) || f.value == StorageIncomplete
      ensures f == Some(StorageIncomplete) <==>
        p !in program.implemented && exists d :: d in old(builders)[p].storage && d !in program.variables(p)
      ensures f == Some(StorageIncomplete) <==> exists d :: Scheduled(old(Now()), d) && UnlistedFor(program, p, d)
      ensures f == Some(StorageIncomplete) ==> Now() == old(Now())
      ensures Calm(respond, old(calls)) ==>
        (f == None || f == Some(StorageIncomplete)) && Hidden() == old(Hidden()) && Stays(old(Now()), Now())
    {
      if p !in builders {
        return Some(NoAssemblyOwner);
      }
      if builders[p].sourceImplementation {
        assert forall d :: !UnlistedFor(program, p, d);
        MakesNone(program, respond, log, None);
        return None;
      }
      StorageComplete(program, Now(), p);
      var variables, storage := program.variables(p), builders[p].storage;
      for k := 0 to |variables| {
        assert variables[k] in variables;
        if variables[k] !in storage {
          return Some(StorageMissing);
        }
      }
      MoreThanListed(variables, storage);
      StoredIsScheduled(program, Now(), p);
      if |storage| != |variables| {
        MakesNone(program, respond, log, Some(StorageIncomplete));
        return Some(StorageIncomplete);
      }
      f := Handle(Initializing(p));
    }

    // Owners come out of the hidden queues in any order.
    method ApplyRequirements() returns (f: Option<Failure>, ghost owner: nat)
      requires Valid() && Idle() && requirements != {}
      modifies this, scheduler, initializations
      ensures Sound() && owner in old(requirements) && Makes(program, respond, old(log), log, [Requiring(owner)], f)
      ensures f == None ==> Valid() && Idle() && Grows(old(Now()), Now())
      ensures f == None ==> var rest := old(Hidden()).(requirements := old(requirements) - {owner});
        Hidden() == NotedAll(rest, respond(old(calls)).effects)
      ensures f.Some? ==> Requested(f.value)
    {
      var next :| next in requirements;
      requirements := requirements - {next};
      owner := next;
      f := Handle(Requiring(next));
    }

    // One handler call for each member of a batch, until one fails.
    method HandleBatch(purposes: seq<Purpose>) returns (f: Option<Failure>, ghost handled: nat)
      requires Valid() && Idle() && forall p :: p in purposes ==> p.Reconstructing? || p.Exporting?
      modifies this, scheduler, initializations
      ensures Sound() && handled <= |purposes| && (f == None ==> handled == |purposes|)
      ensures Makes(program, respond, old(log), log, purposes[..handled], f)
      ensures f == None ==> Valid() && Idle() && Grows(old(Now()), Now())
      ensures f == None ==> Leads(old(Hidden()), respond, |old(log)|, |purposes|, Hidden())
      ensures f.Some? ==> Requested(f.value)
    {
      ghost var before := Now();
      MakesNone(program, respond, log, None);
      for k := 0 to |purposes|
        invariant Valid() && Idle() && Grows(before, Now())
        invariant Makes(program, respond, old(log), log, purposes[..k], None)
        invariant Leads(old(Hidden()), respond, |old(log)|, k, Hidden())
      {
        ghost var between, hidden := Now(), Hidden();
        f := HandleMember(old(log), purposes, k);
        if f.Some? {
          return f, k + 1;
        }
        GrowsTransitive(before, between, Now());
        LeadsOn(old(Hidden()), respond, |old(log)|, k, hidden, Hidden());
      }
      return None, |purposes|;
    }

    method HandleMember(ghost start: seq<Call>, purposes: seq<Purpose>, k: nat) returns (f: Option<Failure>)
      requires Valid() && Idle() && k < |purposes| && (purposes[k].Reconstructing? || purposes[k].Exporting?)
      requires Makes(program, respond, start, log, purposes[..k], None)
      modifies this, scheduler, initializations
      ensures Sound() && Makes(program, respond, start, log, purposes[..k + 1], f)
      ensures f == None ==> Valid() && Idle() && Grows(old(Now()), Now())
      ensures f == None ==> Hidden() == NotedAll(old(Hidden()), respond(|start| + k).effects)
      ensures f.Some? ==> Requested(f.value)
    {
      f := Handle(purposes[k]);
      MakesMore(program, respond, start, old(log), log, purposes, k, f);
    }

    // Orphaned requirements that are live again are forgotten, the owners of the
    // others become pending. Pending additions would be a panic.
    method FinalizeRemovals() returns (worked: bool)
      requires Valid() && Idle() && requirements == {}
      modifies this
      ensures Valid() && Idle() && Now() == old(Now()) && orphaned == {}
      ensures Makes(program, respond, old(log), log, Removals(old(Hidden())), None)
      ensures requirements == old(orphaned) - respond(old(calls)).revived
      ensures worked <==> !(old(orphaned) <= respond(old(calls)).revived)
      ensures dirty == old(dirty) && exports == old(exports) && demands == old(demands)
    {
      if orphaned == {} {
        MakesNone(program, respond, log, None);
        return false;
      }
      var owners := orphaned - respond(calls).revived;
      NoneLeft(orphaned, respond(calls).revived);
      MakesRemoval(program, respond, log, Clear());
      log := log + [Call(Removing, Clear())];
      calls := calls + 1;
      orphaned := {};
      requirements := requirements + owners;
      return owners != {};
    }

    method NextDeclaration() returns (next: Option<Declaration>)
      requires Valid() && Idle()
      modifies `current, scheduler
      ensures Valid() && open == {} && current == next
      ensures next == None <==> old(scheduler.queue) == []
      ensures next == None ==> Now() == old(Now())
      ensures next.Some? ==> next.value == old(scheduler.queue)[0] && scheduler.queue == old(scheduler.queue)[1..]
      ensures next.Some? ==> scheduler.popped == old(scheduler.popped) + [next.value]
    {
      if scheduler.queue != [] {
        assert scheduler.queue[0] in scheduler.queue;
        PopKeepsGood(program, Now());
      }
      next := scheduler.Next();
      current := next;
    }

    method NextPackage() returns (next: Option<Package>)
      requires Valid() && Idle()
      modifies initializations
      ensures Valid()
      ensures next == None <==> old(initializations.queue) == []
      ensures next == None ==> Now() == old(Now())
      ensures next.Some? ==> next.value == old(initializations.queue)[0] && initializations.queue == old(initializations.queue)[1..]
      ensures next.Some? ==> initializations.popped == old(initializations.popped) + [next.value]
    {
      if initializations.queue != [] {
        PopPackageKeepsGood(program, Now());
      }
      next := initializations.Next();
    }

    // The first source of work of an iteration.
    method EmitNext() returns (worked: bool, f: Option<Failure>)
      requires Valid() && Idle() && Logged(program, log, Now())
      modifies this, scheduler, initializations
      ensures Sound() && (worked <==> old(scheduler.queue) != [])
      ensures worked ==> Makes(program, respond, old(log), log, [Declaring(old(scheduler.queue)[0])], f)
      ensures f == None ==> Logged(program, log, Now())
      ensures !worked ==> f == None && Now() == old(Now()) && Hidden() == old(Hidden()) && log == old(log)
      ensures f == None ==> Valid() && Idle() && Keeps(program, old(Now()), Now())
      ensures f.Some? ==> Requested(f.value)
      ensures Calm(respond, old(calls)) ==> f == None && Hidden() == old(Hidden())
      ensures Calm(respond, old(calls)) && worked ==> Shrinks(program, old(Now()), Now())
    {
      ghost var before := Now();
      var declaration := NextDeclaration();
      if declaration.None? {
        return false, None;
      }
      ghost var between := Now();
      PopKeepsScheduled(before, between);
      f := Emit(declaration.value);
      if f == None {
        DeclarationLogged(program, old(log), log, before, Now(), declaration.value);
      }
      return true, f;
    }

    // The fourth one, asked when no declaration and no hidden work is left.
    method InitializeNext() returns (worked: bool, f: Option<Failure>)
      requires Valid() && Idle() && Clear() && Logged(program, log, Now())
      modifies this, scheduler, initializations
      ensures Sound() && (worked <==> old(initializations.queue) != [])
      ensures worked ==> Makes(program, respond, old(log), log, Initializes(program, old(initializations.queue)[0], f), f)
      ensures f == None ==> Logged(program, log, Now())
      ensures !worked ==> f == None && Now() == old(Now()) && Hidden() == old(Hidden()) && log == old(log)
      ensures f == None ==> Valid() && Idle() && Keeps(program, old(Now()), Now())
      ensures f.Some? ==> Requested(f.value) || f.value == StorageIncomplete
      ensures f == Some(StorageIncomplete) ==> exists d :: Awaited(program, old(Now()), d) && d in requested
      ensures Calm(respond, old(calls)) ==> (f == None || f == Some(StorageIncomplete)) && Hidden() == old(Hidden())
      ensures Calm(respond, old(calls)) && worked ==> Shrinks(program, old(Now()), Now())
    {
      ghost var before := Now();
      var p := NextPackage();
      if p.None? {
        return false, None;
      }
      ghost var between := Now();
      InitializedNow(before, between, p.value);
      f := EmitPackageInitialization(p.value);
      if f == Some(StorageIncomplete) {
        ghost var d :| Scheduled(between, d) && UnlistedFor(program, p.value, d);
        assert Awaited(program, before, d);
      }
      if f == None {
        InitializationLogged(program, old(log), log, before, Now(), p.value);
      }
      return true, f;
    }

    ghost predicate Quiet()
      reads this, scheduler, initializations
    {
      && scheduler.queue == [] && initializations.queue == []
      && requirements == {} && orphaned == {} && dirty == {} && exports == {} && demands == {}
    }

    ghost predicate Bare()
      reads this
    {
      Hidden() == Pending({}, {}, {}, {}, {})
    }

    ghost function Work(): nat
      reads this, scheduler, initializations
    {
      |scheduler.queue| + |initializations.queue|
    }

    method ReconstructDirty() returns (f: Option<Failure>, ghost done: seq<Purpose>)
      requires Valid() && Idle() && Logged(program, log, Now())
      modifies this, scheduler, initializations
      ensures Sound() && Makes(program, respond, old(log), log, done, f)
      ensures Batch(set a <- old(dirty) :: Reconstructing(a), done, f.Some?)
      ensures f == None ==> Logged(program, log, Now())
      ensures f == None ==> Valid() && Idle() && Grows(old(Now()), Now())
      ensures f == None ==> Leads(old(Hidden()), respond, |old(log)|, |done|, Hidden())
      ensures f.Some? ==> Requested(f.value)
    {
      ghost var before := Now();
      var purposes := Iterate(set a <- dirty :: Reconstructing(a));
      assert forall p :: p in purposes ==> p in Elements(purposes);
      ghost var handled: nat;
      f, handled := HandleBatch(purposes);
      done := purposes[..handled];
      BatchOf(purposes, handled, set a <- old(dirty) :: Reconstructing(a));
      if f == None {
        OthersLogged(program, old(log), log, before, Now(), done);
      }
    }

    method PublishExports() returns (f: Option<Failure>, ghost done: seq<Purpose>)
      requires Valid() && Idle() && Logged(program, log, Now())
      modifies this, scheduler, initializations
      ensures Sound() && Makes(program, respond, old(log), log, done, f)
      ensures Batch(set p <- old(exports) :: Exporting(p), done, f.Some?)
      ensures f == None ==> Logged(program, log, Now())
      ensures f == None ==> Valid() && Idle() && Grows(old(Now()), Now())
      ensures f == None ==> Leads(old(Hidden()).(exports := {}), respond, |old(log)|, |done|, Hidden())
      ensures f.Some? ==> Requested(f.value)
    {
      ghost var before := Now();
      var purposes := Iterate(set p <- exports :: Exporting(p));
      assert forall p :: p in purposes ==> p in Elements(purposes);
      exports := {};
      ghost var handled: nat;
      f, handled := HandleBatch(purposes);
      done := purposes[..handled];
      BatchOf(purposes, handled, set p <- old(exports) :: Exporting(p));
      if f == None {
        OthersLogged(program, old(log), log, before, Now(), done);
      }
    }

    // One iteration of the settling loop. A later source of work is asked only
    // when all earlier ones are empty. `done` is what handlers are called for.
    method Step() returns (outcome: Outcome, ghost done: seq<Purpose>)
      requires Valid() && Idle() && Logged(program, log, Now())
      modifies this, scheduler, initializations
      ensures Sound() && Makes(program, respond, old(log), log, done, Ending(outcome))
      ensures Due(program, old(Now()), old(Hidden()), respond(old(calls)).revived, done, outcome)
      ensures !outcome.Failed? ==> Valid() && Idle() && Keeps(program, old(Now()), Now()) && Logged(program, log, Now())
      ensures outcome.Settled? ==> Quiet()
      ensures outcome.Failed? ==> Requested(outcome.failure) || outcome.failure == StorageIncomplete
      ensures outcome == Failed(StorageIncomplete) ==> exists d :: Awaited(program, old(Now()), d) && d in requested
      ensures Calm(respond, old(calls)) && old(Bare()) ==> Bare() && !(outcome.Failed? && Requested(outcome.failure))
      ensures Calm(respond, old(calls)) && old(Bare()) && !outcome.Settled? ==> Shrinks(program, old(Now()), Now())
    {
      var worked, f := EmitNext();
      if worked {
        return After(f), [Declaring(old(scheduler.queue)[0])];
      }
      if requirements != {} || dirty != {} {
        outcome, done := HiddenWork();
        return;
      }
      worked, f := InitializeNext();
      if worked {
        return After(f), Initializes(program, old(initializations.queue)[0], f);
      }
      outcome, done := LateWork();
    }

    // The sources of work between the two queues.
    method HiddenWork() returns (outcome: Outcome, ghost done: seq<Purpose>)
      requires Valid() && Idle() && scheduler.queue == [] && (requirements != {} || dirty != {})
      requires Logged(program, log, Now())
      modifies this, scheduler, initializations
      ensures Sound() && Makes(program, respond, old(log), log, done, Ending(outcome))
      ensures Due(program, old(Now()), old(Hidden()), {}, done, outcome)
      ensures outcome.Running? ==> Valid() && Idle() && Keeps(program, old(Now()), Now()) && Logged(program, log, Now())
      ensures outcome.Failed? ==> Requested(outcome.failure)
      ensures !outcome.Settled?
    {
      ghost var before := Now();
      var f;
      if requirements != {} {
        ghost var owner: nat;
        f, owner := ApplyRequirements();
        done := [Requiring(owner)];
        if f == None {
          OthersLogged(program, old(log), log, before, Now(), done);
        }
      } else {
        f, done := ReconstructDirty();
      }
      return After(f), done;
    }

    // The sources of work behind the queues and the pending owners.
    method LateWork() returns (outcome: Outcome, ghost done: seq<Purpose>)
      requires Valid() && Idle() && Clear() && initializations.queue == [] && Logged(program, log, Now())
      modifies this, scheduler, initializations
      ensures Sound() && Makes(program, respond, old(log), log, done, Ending(outcome))
      ensures RemovalsDue(old(Hidden()), respond(old(calls)).revived, done, outcome)
      ensures !outcome.Failed? ==> Valid() && Idle() && Keeps(program, old(Now()), Now()) && Logged(program, log, Now())
      ensures outcome.Settled? ==> Quiet()
      ensures outcome.Failed? ==> Requested(outcome.failure)
      ensures old(Bare()) ==> outcome.Settled? && Bare()
    {
      var finalized := FinalizeRemovals();
      ghost var removed := log;
      OthersLogged(program, old(log), log, old(Now()), Now(), Removals(old(Hidden())));
      if finalized {
        return Running, [Removing];
      }
      ghost var later := Hidden();
      outcome, done := LastWork();
      MakesBoth(program, respond, old(log), removed, log, Removals(old(Hidden())), done, Ending(outcome));
      RemovalsThenLate(old(Hidden()), respond(old(calls)).revived, later, done, outcome);
      done := Removals(old(Hidden())) + done;
    }

    method LastWork() returns (outcome: Outcome, ghost done: seq<Purpose>)
      requires Valid() && Idle() && Clear() && initializations.queue == [] && orphaned == {} && Logged(program, log, Now())
      modifies this, scheduler, initializations
      ensures Sound() && Makes(program, respond, old(log), log, done, Ending(outcome)) && LateDue(old(Hidden()), done, outcome)
      ensures !outcome.Failed? ==> Valid() && Idle() && Keeps(program, old(Now()), Now()) && Logged(program, log, Now())
      ensures outcome.Settled? ==> Quiet() && Hidden() == old(Hidden())
      ensures outcome.Failed? ==> Requested(outcome.failure)
      ensures old(Bare()) ==> outcome.Settled?
    {
      ghost var before := Now();
      if exports != {} {
        var f;
        f, done := PublishExports();
        return After(f), done;
      }
      if demands != {} {
        demands := {};
        var f := Handle(Demanding);
        if f == None {
          OthersLogged(program, old(log), log, before, Now(), [Demanding]);
        }
        return After(f), [Demanding];
      }
      MakesNone(program, respond, log, None);
      return Settled, [];
    }

    // Whatever the handlers do and however long it takes: a declaration is popped
    // at most once, a package initialized at most once, and a settled session has
    // initialized exactly the packages it required, with their storage complete. A
    // handler was then called once for each declaration and for each package without
    // source implementation, and a failing call ends the run with its failure.
    // Incomplete storage is reported only if a variable that its scope does not list
    // was asked for, and such a variable never lets the session settle.
    method Settle(rounds: nat) returns (outcome: Outcome)
      requires Valid() && Idle() && Logged(program, log, Now())
      modifies this, scheduler, initializations
      ensures Distinct(scheduler.popped) && Distinct(initializations.popped)
      ensures old(log) <= log && |log| == calls && Answered(program, respond, log, |old(log)|, Ending(outcome))
      ensures !outcome.Failed? ==> Logged(program, log, Now())
      ensures outcome.Failed? ==> Requested(outcome.failure) || outcome.failure == StorageIncomplete
      ensures outcome == Failed(StorageIncomplete) ==> exists d :: d in requested && Unlisted(program, d)
      ensures outcome.Settled? ==> forall d :: !Awaited(program, old(Now()), d)
      ensures outcome.Settled? ==> Quiet() && Elements(initializations.popped) == builders.Keys
      ensures outcome.Settled? ==> Closed(program.imports, builders.Keys)
      ensures outcome.Settled? ==> forall p :: p in builders ==>
        Distinct(builders[p].storage) && (p in program.implemented || StoresAll(program, builders[p], p))
      // Once nothing more is asked for, the run ends, and it is decided how.
      ensures Calm(respond, old(calls)) && old(Bare()) && rounds > old(Work()) ==>
        outcome == (if exists d :: Awaited(program, old(Now()), d) then Failed(StorageIncomplete) else Settled)
    {
      outcome := Iterations(rounds);
      if outcome.Settled? {
        SettledFacts(program, Now());
      }
    }

    // The settling loop.
    method Iterations(rounds: nat) returns (outcome: Outcome)
      requires Valid() && Idle() && Logged(program, log, Now())
      modifies this, scheduler, initializations
      ensures Sound() && old(log) <= log && Answered(program, respond, log, |old(log)|, Ending(outcome))
      ensures !outcome.Failed? ==> Valid() && Idle() && Keeps(program, old(Now()), Now()) && Logged(program, log, Now())
      ensures outcome.Settled? ==> Quiet()
      ensures outcome.Failed? ==> Requested(outcome.failure) || outcome.failure == StorageIncomplete
      ensures outcome == Failed(StorageIncomplete) ==> exists d :: d in requested && Unlisted(program, d)
      ensures Calm(respond, old(calls)) && old(Bare()) ==>
        && !(outcome.Failed? && Requested(outcome.failure)) && !(rounds > old(Work()) && outcome.Running?)
        && (outcome == Failed(StorageIncomplete) ==> exists d :: Awaited(program, old(Now()), d))
    {
      ghost var start, work, calm := Now(), Work(), Calm(respond, calls) && Bare();
      for k := 0 to rounds
        invariant Valid() && Idle() && Keeps(program, start, Now()) && Logged(program, log, Now())
        invariant old(log) <= log && Answered(program, respond, log, |old(log)|, None)
        invariant calm ==> Calm(respond, calls) && Bare() && Work() + k <= work && Keeps(program, Now(), start)
      {
        ghost var logged := log;
        ghost var done;
        outcome, done := Step();
        AnsweredOn(program, respond, logged, log, |old(log)|, Ending(outcome));
        if !outcome.Running? {
          return;
        }
      }
      return Running;
    }

    // The check of pending work always passes behind a settled session; `closed` is
    // whether the artifact graph is closed as well.
    method VerifyTargetFilesSettled(closed: bool) returns (ok: bool)
      requires Valid()
      ensures Quiet() ==> (ok <==> closed)
      ensures ok <==>
        && scheduler.queue == [] && initializations.queue == []
        && requirements == {} && orphaned == {} && dirty == {} && exports == {} && closed
    {
      var declarations := scheduler.HasPending();
      var packages := initializations.HasPending();
      if declarations || exports != {} || requirements != {} || orphaned != {} || dirty != {} || packages {
        return false;
      }
      return closed;
    }
  }

  function Ending(outcome: Outcome): Option<Failure> {
    if outcome.Failed? then Some(outcome.failure) else None
  }

  function After(f: Option<Failure>): Outcome {
    if f.Some? then Failed(f.value) else Running
  }

  ghost predicate StoresAll(program: Program, b: Builder, p: Package) {
    forall d :: d in program.variables(p) ==> d in b.storage
  }

  lemma SettledFacts(program: Program, v: View)
    requires Good(program, v) && v.queue == [] && v.packageQueue == [] && v.open == {} && v.current == None
    ensures Elements(v.initialized) == v.builders.Keys && forall d :: !Awaited(program, v, d)
    ensures Closed(program.imports, v.builders.Keys)
    ensures forall p :: p in v.builders ==>
      Distinct(v.builders[p].storage) && (p in program.implemented || StoresAll(program, v.builders[p], p))
  {
    assert forall p :: p in v.builders <==> p in v.initialized;
    forall p, i | p in v.builders && i in program.imports(p) ensures Satisfied(i, v.builders.Keys) {
      assert ImportsReached(program, v, p);
    }
    forall p | p in v.builders && p !in program.implemented ensures StoresAll(program, v.builders[p], p) {
      StorageComplete(program, v, p);
    }
  }

  // One request is enough: when the first handler asks for a variable that the scope
  // of its ordinary package does not list, and nothing more happens, the run ends
  // with the report of incomplete storage.
  method UnlistedRequestIsReported(program: Program, respond: nat -> Response, d: Declaration) returns (outcome: Outcome)
    requires WellFormed(program) && Requirable(program, program.packages) && Unlisted(program, d)
    requires respond(0) == Response([Use(d)], false, {}) && Calm(respond, 1)
    ensures outcome == Failed(StorageIncomplete)
  {
    var session := new Session(program, respond);
    ghost var before := session.Now();
    var f := session.Handle(Rooting);
    OthersLogged(program, [], session.log, before, session.Now(), [Rooting]);
    assert Use(d) in respond(0).effects;
    assert Awaited(program, session.Now(), d);
    outcome := session.Settle(|session.scheduler.queue| + |session.initializations.queue| + 1);
  }

  lemma NoneLeft<T>(a: set<T>, b: set<T>)
    ensures a - b == {} <==> a <= b
  {
    assert forall x :: x in a - b <==> x in a && x !in b;
  }

  // The members of a set, in whatever order it is iterated.
  method Iterate<T(==)>(members: set<T>) returns (listed: seq<T>)
    ensures Elements(listed) == members && Distinct(listed)
  {
    listed := [];
    var rest := members;
    while rest != {}
      invariant rest <= members && Distinct(listed)
      invariant forall x :: x in listed <==> x in members && x !in rest
      decreases |rest|
    {
      var x :| x in rest;
      rest := rest - {x};
      assert x !in listed;
      listed := listed + [x];
    }
    assert forall x :: x in Elements(listed) <==> x in members;
  }

  // Behind a settled session the initialization order misses no dependency: it is
  // the specified one, unless packages import each other in a cycle.
  method SettleAndOrder(session: Session, rounds: nat) returns (outcome: Outcome, order: Initialization.Outcome)
    requires session.Valid() && session.Idle() && Logged(session.program, session.log, session.Now())
    modifies session, session.scheduler, session.initializations
    ensures outcome.Settled? ==> !order.DependencyAbsent?
    ensures outcome.Settled? ==>
      (order.NoReadyPackage? <==> HasCycle(Initialization.Edges(session.program.imports), session.builders.Keys))
    ensures outcome.Settled? && order.Order? ==>
      Initialization.SpecifiedOrder(session.program.imports, session.builders.Keys, order.order)
  {
    outcome := session.Settle(rounds);
    var listed := Iterate(session.builders.Keys);
    order := Initialization.PackageInitializationOrder(session.program.imports, session.builders.Keys, listed);
  }

  lemma MoreThanListed(variables: seq<Declaration>, storage: seq<Declaration>)
    requires Distinct(variables) && Distinct(storage) && forall d :: d in variables ==> d in storage
    ensures |storage| != |variables| <==> exists d :: d in storage && d !in variables
  {
    DistinctSize(variables);
    DistinctSize(storage);
    SubsetSize(Elements(variables), Elements(storage));
    if forall d :: d in storage ==> d in variables {
      SubsetSize(Elements(storage), Elements(variables));
    } else {
      var d :| d in storage && d !in variables;
      assert d in Elements(storage) && d !in Elements(variables);
    }
  }
}
