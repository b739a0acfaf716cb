// reflect.DeepEqual of the runtime library: equality of possibly cyclic box
// graphs through one shared table of visited pairs.
module DeepEqual {
  import opened Common

  type Box = nat
  type TypeId = nat
  // A map key up to Go key equality.
  type Key = nat

  datatype Float = NaN | NegativeZero | Infinite(negative: bool) | Finite(value: real)

  // JavaScript ===: NaN differs from everything, the two zeros agree.
  predicate StrictlyEqual(a: Float, b: Float) {
    var zero := Finite(0.0);
    var left := if a == NegativeZero then zero else a;
    var right := if b == NegativeZero then zero else b;
    left != NaN && left == right
  }

  datatype Pointee = Nil | Target(element: Option<Box>)

  // What the generated value facet of a box's type reveals.  A slot that holds
  // None is a nil interface.  The keys of a map are the ones it lists; lookup
  // finds entries, and a listed key that is not equal to itself is not found.
  datatype Payload =
    | NoFacet
    | Int(integer: int)
    | Uint(unsigned: nat)
    | Floating(float: Float)
    | Bool(truth: bool)
    | String(text: string)
    | Pointer(pointee: Pointee)
    | Struct(fields: seq<Option<Box>>)
    | Slice(nilSlice: bool, elements: seq<Option<Box>>)
    | Map(nilMap: bool, keys: seq<Key>, lookup: map<Key, Option<Box>>)
    | Unsupported

  datatype Cell = Cell(typ: Option<TypeId>, payload: Payload)
  type Heap = map<Box, Cell>

  datatype Outcome = Equal(equal: bool) | Panic

  predicate SlotIn(heap: Heap, slot: Option<Box>) {
    slot.Some? ==> slot.value in heap
  }

  ghost predicate ChildrenIn(heap: Heap, payload: Payload) {
    match payload
    case Pointer(Target(element)) => SlotIn(heap, element)
    case Struct(fields) => forall s :: s in fields ==> SlotIn(heap, s)
    case Slice(_, elements) => forall s :: s in elements ==> SlotIn(heap, s)
    case Map(_, _, lookup) => forall k :: k in lookup ==> SlotIn(heap, lookup[k])
    case _ => true
  }

  // The kind, and for structs the field count, is a property of the type.
  predicate SameShape(a: Payload, b: Payload) {
    match (a, b)
    case (NoFacet, NoFacet) => true
    case (Int(_), Int(_)) => true
    case (Uint(_), Uint(_)) => true
    case (Floating(_), Floating(_)) => true
    case (Bool(_), Bool(_)) => true
    case (String(_), String(_)) => true
    case (Pointer(_), Pointer(_)) => true
    case (Struct(f), Struct(g)) => |f| == |g|
    case (Slice(_, _), Slice(_, _)) => true
    case (Map(_, _, _), Map(_, _, _)) => true
    case (Unsupported, Unsupported) => true
    case _ => false
  }

  ghost predicate WellTyped(heap: Heap) {
    && (forall b :: b in heap ==> ChildrenIn(heap, heap[b].payload))
    && (forall a, b :: a in heap && b in heap && heap[a].typ == heap[b].typ ==>
          SameShape(heap[a].payload, heap[b].payload))
  }

  ghost predicate Supported(heap: Heap) {
    forall b :: b in heap ==>
      heap[b].typ.Some? && !heap[b].payload.NoFacet? && !heap[b].payload.Unsupported?
  }

  // ---- Bisimulation -------------------------------------------------------

  ghost predicate SlotsRelated(a: Option<Box>, b: Option<Box>, related: set<(Box, Box)>) {
    if a.None? || b.None? then a == b else (a.value, b.value) in related
  }

  // One unfolding of two boxes agrees and sends their children into `related`.
  ghost predicate StepRelated(heap: Heap, left: Box, right: Box, related: set<(Box, Box)>)
    requires left in heap && right in heap
  {
    && heap[left].typ.Some?
    && heap[left].typ == heap[right].typ
    && match (heap[left].payload, heap[right].payload)
       case (Int(a), Int(b)) => a == b
       case (Uint(a), Uint(b)) => a == b
       case (Floating(a), Floating(b)) => StrictlyEqual(a, b)
       case (Bool(a), Bool(b)) => a == b
       case (String(a), String(b)) => a == b
       case (Pointer(a), Pointer(b)) =>
         if a.Nil? || b.Nil? then a == b else SlotsRelated(a.element, b.element, related)
       case (Struct(a), Struct(b)) => EachRelated(a, b, related)
       case (Slice(n, a), Slice(m, b)) => n == m && EachRelated(a, b, related)
       case (Map(n, ks, a), Map(m, ls, b)) =>
         n == m && |ks| == |ls| &&
         forall k :: k in ks && k in a ==> k in b && SlotsRelated(a[k], b[k], related)
       case _ => false
  }

  ghost predicate EachRelated(a: seq<Option<Box>>, b: seq<Option<Box>>, related: set<(Box, Box)>) {
    |a| == |b| && forall i :: 0 <= i < |a| ==> SlotsRelated(a[i], b[i], related)
  }

  ghost predicate Bisimulation(heap: Heap, related: set<(Box, Box)>) {
    forall p :: p in related ==>
      p.0 in heap && p.1 in heap && StepRelated(heap, p.0, p.1, related)
  }

  ghost predicate Bisimilar(heap: Heap, left: Box, right: Box) {
    exists related :: Bisimulation(heap, related) && (left, right) in related
  }

  ghost function AllPairs(heap: Heap): set<(Box, Box)> {
    set a, b | a in heap.Keys && b in heap.Keys :: (a, b)
  }

  ghost function Bisimilarity(heap: Heap): set<(Box, Box)> {
    set p | p in AllPairs(heap) && Bisimilar(heap, p.0, p.1)
  }

  lemma StepMonotone(heap: Heap, left: Box, right: Box, small: set<(Box, Box)>, large: set<(Box, Box)>)
    requires left in heap && right in heap && small <= large
    requires StepRelated(heap, left, right, small)
    ensures StepRelated(heap, left, right, large)
  {
  }

  // The union of all bisimulations is one, and the largest.
  lemma BisimilarityIsGreatest(heap: Heap)
    ensures Bisimulation(heap, Bisimilarity(heap))
    ensures forall related :: Bisimulation(heap, related) ==> related <= Bisimilarity(heap)
  {
    var all := Bisimilarity(heap);
    forall related | Bisimulation(heap, related) ensures related <= all {
      forall p | p in related ensures p in all {
        assert (p.0, p.1) == p;
        assert (p.0, p.1) in AllPairs(heap);
      }
    }
    forall p | p in all ensures p.0 in heap && p.1 in heap && StepRelated(heap, p.0, p.1, all) {
      var related: set<(Box, Box)> :| Bisimulation(heap, related) && (p.0, p.1) in related;
      StepMonotone(heap, p.0, p.1, related, all);
    }
  }

  // ---- The traversal ------------------------------------------------------

  // Every pair entered since `before` has been checked against `now`.
  ghost predicate Checked(heap: Heap, before: set<(Box, Box)>, now: set<(Box, Box)>) {
    forall p :: p in now && p !in before ==>
      p.0 in heap && p.1 in heap && StepRelated(heap, p.0, p.1, now)
  }

  lemma CheckedExtends(heap: Heap, a: set<(Box, Box)>, b: set<(Box, Box)>, c: set<(Box, Box)>)
    requires Checked(heap, a, b) && Checked(heap, b, c) && b <= c
    ensures Checked(heap, a, c)
  {
    forall p | p in c && p !in a
      ensures p.0 in heap && p.1 in heap && StepRelated(heap, p.0, p.1, c)
    {
      if p in b { StepMonotone(heap, p.0, p.1, b, c); }
    }
  }

  class Comparison {
    const heap: Heap
    ghost const pairs: set<(Box, Box)>
    ghost const bisimilarity: set<(Box, Box)>
    var visited: map<Box, set<Box>>
    ghost var entered: set<(Box, Box)>

    constructor (heap: Heap)
      requires WellTyped(heap)
      ensures this.heap == heap && bisimilarity == Bisimilarity(heap)
      ensures Valid() && entered == {}
    {
      this.heap := heap;
      pairs := AllPairs(heap);
      bisimilarity := Bisimilarity(heap);
      visited := map[];
      entered := {};
      BisimilarityIsGreatest(heap);
    }

    ghost predicate Valid()
      reads this
    {
      && WellTyped(heap)
      && Bisimulation(heap, bisimilarity)
      && entered <= pairs
      && (forall a, b :: a in heap && b in heap ==> (a, b) in pairs)
      && (forall a, b :: (a, b) in entered <==> a in visited && b in visited[a])
    }

    ghost function Unvisited(): set<(Box, Box)>
      reads this
    {
      pairs - entered
    }

    // The pair is in the table from here on, and there is one less to visit.
    method Enter(left: Box, right: Box)
      requires Valid() && left in heap && right in heap && (left, right) !in entered
      modifies this
      ensures Valid() && entered == old(entered) + {(left, right)}
      ensures Unvisited() == old(Unvisited()) - {(left, right)} && (left, right) in old(Unvisited())
    {
      var seen := if left in visited then visited[left] else {};
      visited := visited[left := seen + {right}];
      entered := entered + {(left, right)};
    }

    method DeepValueEqual(left: Box, right: Box) returns (outcome: Outcome)
      requires Valid() && left in heap && right in heap
      modifies this
      ensures Valid() && old(entered) <= entered
      ensures outcome == Equal(true) ==>
        (left, right) in entered && Checked(heap, old(entered), entered)
      ensures outcome == Equal(false) ==> (left, right) !in bisimilarity
      ensures Supported(heap) ==> outcome.Equal?
      decreases |Unvisited()|, 0
    {
      var leftType, rightType := heap[left].typ, heap[right].typ;
      if leftType.None? || rightType.None? {
        return Panic;
      }
      if leftType != rightType {
        return Equal(false);
      }
      if left in visited && right in visited[left] {
        return Equal(true);
      }
      ghost var before := entered;
      Enter(left, right);
      ghost var checking := entered;
      outcome := CompareEntered(left, right);
      if outcome == Equal(true) {
        CheckedEntered(before, checking, (left, right));
      }
    }

    // The case split on the kind, for a pair that has just been entered.
    method CompareEntered(left: Box, right: Box) returns (outcome: Outcome)
      requires Valid() && left in heap && right in heap
      requires heap[left].typ.Some? && heap[left].typ == heap[right].typ
      modifies this
      ensures Valid() && old(entered) <= entered
      ensures outcome == Equal(true) ==>
        StepRelated(heap, left, right, entered) && Checked(heap, old(entered), entered)
      ensures outcome == Equal(false) ==> !StepRelated(heap, left, right, bisimilarity)
      ensures Supported(heap) ==> outcome.Equal?
      decreases |Unvisited()|, 2
    {
      assert SameShape(heap[left].payload, heap[right].payload);
      assert ChildrenIn(heap, heap[left].payload) && ChildrenIn(heap, heap[right].payload);
      match heap[left].payload {
        case NoFacet => outcome := Panic;
        case Int(a) => outcome := Equal(a == heap[right].payload.integer);
        case Uint(a) => outcome := Equal(a == heap[right].payload.unsigned);
        case Floating(a) => outcome := Equal(StrictlyEqual(a, heap[right].payload.float));
        case Bool(a) => outcome := Equal(a == heap[right].payload.truth);
        case String(a) => outcome := Equal(a == heap[right].payload.text);
        case Pointer(a) =>
          var b := heap[right].payload.pointee;
          if a.Nil? && b.Nil? {
            outcome := Equal(true);
          } else if a.Nil? || b.Nil? {
            outcome := Equal(false);
          } else if a.element.None? || b.element.None? {
            outcome := Equal(a.element == b.element);
          } else {
            outcome := DeepValueEqual(a.element.value, b.element.value);
          }
        case Struct(a) =>
          outcome := CompareSlots(a, heap[right].payload.fields);
        case Slice(nilSlice, a) =>
          var b := heap[right].payload;
          if nilSlice != b.nilSlice || |a| != |b.elements| {
            outcome := Equal(false);
          } else {
            outcome := CompareSlots(a, b.elements);
          }
        case Map(nilMap, keys, lookup) =>
          var b := heap[right].payload;
          if nilMap != b.nilMap || |keys| != |b.keys| {
            outcome := Equal(false);
          } else {
            outcome := CompareEntries(keys, lookup, b.lookup);
          }
        case Unsupported => outcome := Panic;
      }
    }

    // A pair entered and then found consistent joins the checked ones.
    lemma CheckedEntered(before: set<(Box, Box)>, checking: set<(Box, Box)>, pair: (Box, Box))
      requires pair.0 in heap && pair.1 in heap && checking == before + {pair}
      requires Checked(heap, checking, entered)
      requires StepRelated(heap, pair.0, pair.1, entered)
      ensures Checked(heap, before, entered)
    {
    }

    method CompareSlots(lefts: seq<Option<Box>>, rights: seq<Option<Box>>) returns (outcome: Outcome)
      requires Valid() && |lefts| == |rights|
      requires forall s :: s in lefts || s in rights ==> SlotIn(heap, s)
      modifies this
      ensures Valid() && old(entered) <= entered
      ensures outcome == Equal(true) ==>
        EachRelated(lefts, rights, entered) && Checked(heap, old(entered), entered)
      ensures outcome == Equal(false) ==> !EachRelated(lefts, rights, bisimilarity)
      ensures Supported(heap) ==> outcome.Equal?
      decreases |Unvisited()|, 1
    {
      var index := 0;
      while index < |lefts|
        invariant 0 <= index <= |lefts|
        invariant Valid() && old(entered) <= entered
        invariant forall i :: 0 <= i < index ==> SlotsRelated(lefts[i], rights[i], entered)
        invariant Checked(heap, old(entered), entered)
      {
        var left, right := lefts[index], rights[index];
        assert left in lefts && right in rights;
        if left.None? || right.None? {
          if left != right {
            return Equal(false);
          }
        } else {
          ghost var before := entered;
          SubsetSize(Unvisited(), old(Unvisited()));
          outcome := DeepValueEqual(left.value, right.value);
          if outcome != Equal(true) {
            return;
          }
          CheckedExtends(heap, old(entered), before, entered);
        }
        index := index + 1;
      }
      return Equal(true);
    }

    method CompareEntries(keys: seq<Key>, lefts: map<Key, Option<Box>>, rights: map<Key, Option<Box>>)
      returns (outcome: Outcome)
      requires Valid()
      requires forall k :: k in lefts ==> SlotIn(heap, lefts[k])
      requires forall k :: k in rights ==> SlotIn(heap, rights[k])
      modifies this
      ensures Valid() && old(entered) <= entered
      ensures outcome == Equal(true) ==>
        && (forall k :: k in keys && k in lefts ==>
              k in rights && SlotsRelated(lefts[k], rights[k], entered))
        && Checked(heap, old(entered), entered)
      ensures outcome == Equal(false) ==>
        exists k :: k in keys && k in lefts &&
          (k in rights ==> !SlotsRelated(lefts[k], rights[k], bisimilarity))
      ensures Supported(heap) ==> outcome.Equal?
      decreases |Unvisited()|, 1
    {
      var position := 0;
      while position < |keys|
        invariant 0 <= position <= |keys|
        invariant Valid() && old(entered) <= entered
        invariant forall i :: 0 <= i < position && keys[i] in lefts ==>
          keys[i] in rights && SlotsRelated(lefts[keys[i]], rights[keys[i]], entered)
        invariant Checked(heap, old(entered), entered)
      {
        var key := keys[position];
        if key in lefts {
          if key !in rights {
            return Equal(false);
          }
          var left, right := lefts[key], rights[key];
          if left.None? || right.None? {
            if left != right {
              return Equal(false);
            }
          } else {
            ghost var before := entered;
            SubsetSize(Unvisited(), old(Unvisited()));
            outcome := DeepValueEqual(left.value, right.value);
            if outcome != Equal(true) {
              return;
            }
            CheckedExtends(heap, old(entered), before, entered);
          }
        }
        position := position + 1;
      }
      return Equal(true);
    }
  }

  // The exported operation decides bisimilarity, on cyclic graphs too.
  method DeepEqual(heap: Heap, left: Option<Box>, right: Option<Box>) returns (outcome: Outcome)
    requires WellTyped(heap) && SlotIn(heap, left) && SlotIn(heap, right)
    ensures left.None? || right.None? ==> outcome == Equal(left == right)
    ensures left.Some? && right.Some? && outcome.Equal? ==>
      (outcome.equal <==> Bisimilar(heap, left.value, right.value))
    ensures left.Some? && right.Some? && outcome.Equal? ==>
      (outcome.equal <==> LooksAlike(heap, left.value, right.value))
    ensures Supported(heap) ==> outcome.Equal?
  {
    if left.None? || right.None? {
      return Equal(left == right);
    }
    var comparison := new Comparison(heap);
    outcome := comparison.DeepValueEqual(left.value, right.value);
    BisimilarityIsGreatest(heap);
    if outcome == Equal(true) {
      assert Bisimulation(heap, comparison.entered);
    }
    BisimilarIffLooksAlike(heap, left.value, right.value);
  }

  // ---- What can be seen of a value ------------------------------------------------

  // One step into a value.
  datatype Selector = Deref | Field(index: nat) | Element(index: nat) | Entry(key: Key)

  // What there is to see at a place. Pointers, structs, slices and maps show only
  // that they are nil or how large they are.
  datatype Sight =
    | NilInterface
    | IntegerOf(typ: TypeId, integer: int)
    | NaturalOf(typ: TypeId, natural: nat)
    | RealOf(typ: TypeId, value: real)
    | InfinityOf(typ: TypeId, negative: bool)
    | TruthOf(typ: TypeId, truth: bool)
    | TextOf(typ: TypeId, text: string)
    | PointerOf(typ: TypeId, isNil: bool)
    | StructOf(typ: TypeId, fields: nat)
    | SliceOf(typ: TypeId, isNil: bool, length: nat)
    | MapOf(typ: TypeId, isNil: bool, length: nat)
    // A NaN, which equals nothing, and values that cannot be compared.
    | Incomparable

  function SightOf(cell: Cell): Sight {
    if cell.typ.None? then Incomparable
    else
      var t := cell.typ.value;
      match cell.payload
      case Int(n) => IntegerOf(t, n)
      case Uint(n) => NaturalOf(t, n)
      case Floating(NegativeZero) => RealOf(t, 0.0)
      case Floating(Finite(x)) => RealOf(t, x)
      case Floating(Infinite(negative)) => InfinityOf(t, negative)
      case Floating(NaN) => Incomparable
      case Bool(b) => TruthOf(t, b)
      case String(text) => TextOf(t, text)
      case Pointer(pointee) => PointerOf(t, pointee.Nil?)
      case Struct(fields) => StructOf(t, |fields|)
      case Slice(isNil, elements) => SliceOf(t, isNil, |elements|)
      case Map(isNil, keys, _) => MapOf(t, isNil, |keys|)
      case NoFacet => Incomparable
      case Unsupported => Incomparable
  }

  // Where one step leads, if there is such a place: possibly to a nil interface.
  function Selected(payload: Payload, selector: Selector): Option<Option<Box>> {
    match (payload, selector)
    case (Pointer(Target(element)), Deref) => Some(element)
    case (Struct(fields), Field(i)) => if i < |fields| then Some(fields[i]) else None
    case (Slice(_, elements), Element(i)) => if i < |elements| then Some(elements[i]) else None
    case (Map(_, _, lookup), Entry(k)) => if k in lookup then Some(lookup[k]) else None
    case _ => None
  }

  // The step leads somewhere, and into a map by a key that it lists.
  predicate Followed(payload: Payload, selector: Selector) {
    Selected(payload, selector).Some? && (payload.Map? && selector.Entry? ==> selector.key in payload.keys)
  }

  // What is seen at the end of a path, if it leads anywhere.
  function Seen(heap: Heap, place: Option<Box>, path: seq<Selector>): Option<Sight>
    decreases |path|
  {
    if place.None? then (if path == [] then Some(NilInterface) else None)
    else if place.value !in heap then None
    else if path == [] then Some(SightOf(heap[place.value]))
    else
      var next := Selected(heap[place.value].payload, path[0]);
      if next.None? then None else Seen(heap, next.value, path[1..])
  }

  // The path leads somewhere, and into maps by the keys that they list.
  ghost predicate Reaches(heap: Heap, place: Option<Box>, path: seq<Selector>)
    decreases |path|
  {
    if path == [] then SlotIn(heap, place)
    else
      && place.Some? && place.value in heap && Followed(heap[place.value].payload, path[0])
      && Reaches(heap, Selected(heap[place.value].payload, path[0]).value, path[1..])
  }

  // What the left side shows at the end of the path the right side shows too, and
  // it can be compared.
  ghost predicate AlikeAt(heap: Heap, left: Option<Box>, right: Option<Box>, path: seq<Selector>) {
    Reaches(heap, left, path) ==> Seen(heap, left, path) == Seen(heap, right, path) != Some(Incomparable)
  }

  // Whatever can be reached on the left shows the same on the right, and can be compared.
  ghost predicate PlacesLookAlike(heap: Heap, left: Option<Box>, right: Option<Box>) {
    forall path :: AlikeAt(heap, left, right, path)
  }

  ghost predicate LooksAlike(heap: Heap, left: Box, right: Box) {
    PlacesLookAlike(heap, Some(left), Some(right))
  }

  lemma {:induction false} RelatedLookAlike(heap: Heap, related: set<(Box, Box)>, left: Option<Box>, right: Option<Box>, path: seq<Selector>)
    requires Bisimulation(heap, related) && SlotsRelated(left, right, related)
    ensures AlikeAt(heap, left, right, path)
    decreases |path|
  {
    if path != [] && Reaches(heap, left, path) {
      assert StepRelated(heap, left.value, right.value, related);
      var next := Selected(heap[left.value].payload, path[0]).value;
      SelectedRelated(heap, related, left.value, right.value, path[0]);
      RelatedLookAlike(heap, related, next, Selected(heap[right.value].payload, path[0]).value, path[1..]);
    } else if left.Some? {
      assert StepRelated(heap, left.value, right.value, related);
    }
  }

  lemma SelectedRelated(heap: Heap, related: set<(Box, Box)>, left: Box, right: Box, selector: Selector)
    requires left in heap && right in heap && StepRelated(heap, left, right, related)
    requires Followed(heap[left].payload, selector)
    ensures var there := Selected(heap[right].payload, selector);
      there.Some? && SlotsRelated(Selected(heap[left].payload, selector).value, there.value, related)
  {
  }

  // Pairs of boxes that look alike.
  ghost function Alikes(heap: Heap): set<(Box, Box)> {
    set p | p in AllPairs(heap) && LooksAlike(heap, p.0, p.1)
  }

  lemma AlikeChild(heap: Heap, left: Box, right: Box, selector: Selector)
    requires left in heap && right in heap && ChildrenIn(heap, heap[left].payload) && LooksAlike(heap, left, right)
    requires Followed(heap[left].payload, selector)
    ensures var there := Selected(heap[right].payload, selector);
      there.Some? && PlacesLookAlike(heap, Selected(heap[left].payload, selector).value, there.value)
  {
    var here := Selected(heap[left].payload, selector).value;
    assert [selector][1..] == [];
    assert AlikeAt(heap, Some(left), Some(right), [selector]);
    ChildInHeap(heap, heap[left].payload, selector);
    assert Reaches(heap, here, []) && Reaches(heap, Some(left), [selector]);
    assert Seen(heap, Some(left), [selector]) == Seen(heap, here, []);
    var there := Selected(heap[right].payload, selector);
    forall path ensures AlikeAt(heap, here, there.value, path) {
      assert ([selector] + path)[0] == selector && ([selector] + path)[1..] == path;
      assert AlikeAt(heap, Some(left), Some(right), [selector] + path);
    }
  }

  lemma ChildInHeap(heap: Heap, payload: Payload, selector: Selector)
    requires ChildrenIn(heap, payload) && Selected(payload, selector).Some?
    ensures SlotIn(heap, Selected(payload, selector).value)
  {
  }

  lemma AlikeSlots(heap: Heap, left: Option<Box>, right: Option<Box>)
    requires SlotIn(heap, left) && SlotIn(heap, right) && PlacesLookAlike(heap, left, right)
    ensures SlotsRelated(left, right, Alikes(heap))
  {
    assert AlikeAt(heap, left, right, []);
    if left.Some? && right.Some? {
      assert (left.value, right.value) in AllPairs(heap);
    }
  }

  lemma AlikeStep(heap: Heap, left: Box, right: Box)
    requires WellTyped(heap) && left in heap && right in heap && LooksAlike(heap, left, right)
    ensures StepRelated(heap, left, right, Alikes(heap))
  {
    assert AlikeAt(heap, Some(left), Some(right), []);
    assert SightOf(heap[left]) == SightOf(heap[right]) != Incomparable;
    assert ChildrenIn(heap, heap[left].payload) && ChildrenIn(heap, heap[right].payload);
    forall selector | Followed(heap[left].payload, selector)
      ensures Selected(heap[right].payload, selector).Some?
      ensures SlotsRelated(Selected(heap[left].payload, selector).value, Selected(heap[right].payload, selector).value, Alikes(heap))
    {
      AlikeChild(heap, left, right, selector);
      ChildInHeap(heap, heap[left].payload, selector);
      ChildInHeap(heap, heap[right].payload, selector);
      AlikeSlots(heap, Selected(heap[left].payload, selector).value, Selected(heap[right].payload, selector).value);
    }
    AlikePayloads(heap, left, right);
  }

  // Same sight, and related children: that is one unfolding.
  lemma AlikePayloads(heap: Heap, left: Box, right: Box)
    requires left in heap && right in heap && SightOf(heap[left]) == SightOf(heap[right]) != Incomparable
    requires forall selector :: Followed(heap[left].payload, selector) ==>
      && Selected(heap[right].payload, selector).Some?
      && SlotsRelated(Selected(heap[left].payload, selector).value, Selected(heap[right].payload, selector).value, Alikes(heap))
    ensures StepRelated(heap, left, right, Alikes(heap))
  {
    var p, q := heap[left].payload, heap[right].payload;
    match (p, q) {
      case (Pointer(Target(a)), Pointer(Target(b))) =>
        assert Followed(p, Deref) && Selected(p, Deref) == Some(a) && Selected(q, Deref) == Some(b);
      case (Struct(a), Struct(b)) =>
        forall i | 0 <= i < |a| ensures SlotsRelated(a[i], b[i], Alikes(heap)) {
          assert Followed(p, Field(i)) && Selected(p, Field(i)) == Some(a[i]) && Selected(q, Field(i)) == Some(b[i]);
        }
      case (Slice(_, a), Slice(_, b)) =>
        forall i | 0 <= i < |a| ensures SlotsRelated(a[i], b[i], Alikes(heap)) {
          assert Followed(p, Element(i)) && Selected(p, Element(i)) == Some(a[i]) && Selected(q, Element(i)) == Some(b[i]);
        }
      case (Map(_, ks, a), Map(_, ls, b)) =>
        forall k | k in ks && k in a ensures k in b && SlotsRelated(a[k], b[k], Alikes(heap)) {
          assert Followed(p, Entry(k)) && Selected(p, Entry(k)) == Some(a[k]) && Selected(q, Entry(k)).Some?;
        }
      case _ =>
    }
  }

  // Bisimilar boxes are those that look alike: on every path from the left one, into
  // maps by the keys they list, the same is seen from the right one.
  lemma BisimilarIffLooksAlike(heap: Heap, left: Box, right: Box)
    requires WellTyped(heap) && left in heap && right in heap
    ensures Bisimilar(heap, left, right) <==> LooksAlike(heap, left, right)
  {
    if Bisimilar(heap, left, right) {
      var related: set<(Box, Box)> :| Bisimulation(heap, related) && (left, right) in related;
      forall path ensures AlikeAt(heap, Some(left), Some(right), path) {
        RelatedLookAlike(heap, related, Some(left), Some(right), path);
      }
    }
    if LooksAlike(heap, left, right) {
      forall p | p in Alikes(heap) ensures p.0 in heap && p.1 in heap && StepRelated(heap, p.0, p.1, Alikes(heap)) {
        AlikeStep(heap, p.0, p.1);
      }
      assert (left, right) in AllPairs(heap);
      assert Bisimulation(heap, Alikes(heap)) && (left, right) in Alikes(heap);
    }
  }

  // ---- What the decided relation is -----------------------------------------

  // Pairs whose unfoldings to the given depth cannot be told apart.
  ghost function Unfolding(heap: Heap, depth: nat): set<(Box, Box)> {
    if depth == 0 then AllPairs(heap)
    else set p | p in AllPairs(heap) && StepRelated(heap, p.0, p.1, Unfolding(heap, depth - 1))
  }

  ghost predicate Inseparable(heap: Heap, p: (Box, Box)) {
    forall depth: nat :: p in Unfolding(heap, depth)
  }

  ghost function Limit(heap: Heap): set<(Box, Box)> {
    set p | p in AllPairs(heap) && Inseparable(heap, p)
  }

  lemma {:induction false} BisimulationInUnfolding(heap: Heap, related: set<(Box, Box)>, depth: nat)
    requires Bisimulation(heap, related)
    ensures related <= Unfolding(heap, depth)
  {
    if depth != 0 {
      BisimulationInUnfolding(heap, related, depth - 1);
    }
    forall p | p in related ensures p in Unfolding(heap, depth) {
      assert (p.0, p.1) == p;
      assert (p.0, p.1) in AllPairs(heap);
      if depth != 0 {
        StepMonotone(heap, p.0, p.1, related, Unfolding(heap, depth - 1));
      }
    }
  }

  // Boxes are bisimilar exactly when no finite unfolding separates them.
  lemma BisimilarIffEveryUnfoldingAgrees(heap: Heap, left: Box, right: Box)
    requires left in heap && right in heap
    ensures Bisimilar(heap, left, right) <==> Inseparable(heap, (left, right))
  {
    if Bisimilar(heap, left, right) {
      var related: set<(Box, Box)> :| Bisimulation(heap, related) && (left, right) in related;
      forall depth: nat ensures (left, right) in Unfolding(heap, depth) {
        BisimulationInUnfolding(heap, related, depth);
      }
    }
    if Inseparable(heap, (left, right)) {
      forall p | p in Limit(heap) ensures p.0 in heap && p.1 in heap && StepRelated(heap, p.0, p.1, Limit(heap)) {
        LimitStep(heap, p);
      }
      assert (left, right) in AllPairs(heap);
      assert Bisimulation(heap, Limit(heap)) && (left, right) in Limit(heap);
    }
  }

  lemma LimitSlot(heap: Heap, a: Option<Box>, b: Option<Box>)
    requires forall depth: nat :: SlotsRelated(a, b, Unfolding(heap, depth))
    ensures SlotsRelated(a, b, Limit(heap))
  {
    assert SlotsRelated(a, b, Unfolding(heap, 0));
    if a.Some? && b.Some? {
      forall depth: nat ensures (a.value, b.value) in Unfolding(heap, depth) {
        assert SlotsRelated(a, b, Unfolding(heap, depth));
      }
    }
  }

  lemma LimitStep(heap: Heap, p: (Box, Box))
    requires p in AllPairs(heap)
    requires Inseparable(heap, p)
    ensures StepRelated(heap, p.0, p.1, Limit(heap))
  {
    forall depth: nat ensures StepRelated(heap, p.0, p.1, Unfolding(heap, depth)) {
      assert p in Unfolding(heap, depth + 1);
    }
    assert StepRelated(heap, p.0, p.1, Unfolding(heap, 0));
    match (heap[p.0].payload, heap[p.1].payload) {
      case (Pointer(a), Pointer(b)) =>
        if a.Target? && b.Target? {
          forall depth: nat ensures SlotsRelated(a.element, b.element, Unfolding(heap, depth)) {
            assert StepRelated(heap, p.0, p.1, Unfolding(heap, depth));
          }
          LimitSlot(heap, a.element, b.element);
        }
      case (Struct(a), Struct(b)) => LimitEach(heap, p, a, b);
      case (Slice(_, a), Slice(_, b)) => LimitEach(heap, p, a, b);
      case (Map(_, ks, a), Map(_, ls, b)) =>
        forall k | k in ks && k in a ensures k in b && SlotsRelated(a[k], b[k], Limit(heap)) {
          forall depth: nat ensures SlotsRelated(a[k], b[k], Unfolding(heap, depth)) {
            assert StepRelated(heap, p.0, p.1, Unfolding(heap, depth));
          }
          LimitSlot(heap, a[k], b[k]);
        }
      case _ =>
    }
  }

  lemma LimitEach(heap: Heap, p: (Box, Box), a: seq<Option<Box>>, b: seq<Option<Box>>)
    requires p.0 in heap && p.1 in heap
    requires
      || (heap[p.0].payload == Struct(a) && heap[p.1].payload == Struct(b))
      || (heap[p.0].payload.Slice? && heap[p.0].payload.elements == a &&
          heap[p.1].payload.Slice? && heap[p.1].payload.elements == b)
    requires forall depth: nat :: StepRelated(heap, p.0, p.1, Unfolding(heap, depth))
    ensures EachRelated(a, b, Limit(heap))
  {
    assert StepRelated(heap, p.0, p.1, Unfolding(heap, 0));
    forall i | 0 <= i < |a| ensures SlotsRelated(a[i], b[i], Limit(heap)) {
      forall depth: nat ensures SlotsRelated(a[i], b[i], Unfolding(heap, depth)) {
        assert StepRelated(heap, p.0, p.1, Unfolding(heap, depth));
      }
      LimitSlot(heap, a[i], b[i]);
    }
  }

  ghost predicate SlotWithin(slot: Option<Box>, boxes: set<Box>) {
    slot.Some? ==> slot.value in boxes
  }

  // Boxes closed under children, each supported and none holding NaN.
  ghost predicate Reproducible(heap: Heap, boxes: set<Box>) {
    forall b :: b in boxes ==>
      && b in heap && heap[b].typ.Some?
      && match heap[b].payload
         case NoFacet => false
         case Unsupported => false
         case Floating(f) => f != NaN
         case Pointer(Target(element)) => SlotWithin(element, boxes)
         case Struct(fields) => forall s :: s in fields ==> SlotWithin(s, boxes)
         case Slice(_, elements) => forall s :: s in elements ==> SlotWithin(s, boxes)
         case Map(_, keys, lookup) => forall k :: k in keys && k in lookup ==> SlotWithin(lookup[k], boxes)
         case _ => true
  }

  // A value equals itself exactly when no NaN and no unsupported value is
  // reachable from it: there is no shortcut for identical pointers.
  lemma EqualToItselfIffReproducible(heap: Heap, box: Box)
    requires box in heap
    ensures Bisimilar(heap, box, box) <==> exists boxes :: box in boxes && Reproducible(heap, boxes)
  {
    if Bisimilar(heap, box, box) {
      var related: set<(Box, Box)> :| Bisimulation(heap, related) && (box, box) in related;
      var boxes := set b | b in heap.Keys && (b, b) in related;
      forall b | b in boxes ensures StepRelated(heap, b, b, related) {
        assert (b, b) in related;
      }
      assert Reproducible(heap, boxes);
      assert box in boxes;
    }
    if boxes: set<Box> :| box in boxes && Reproducible(heap, boxes) {
      var related := set b | b in boxes :: (b, b);
      forall p | p in related ensures p.0 in heap && p.1 in heap && StepRelated(heap, p.0, p.1, related) {
        assert p.0 in boxes && p.1 == p.0;
        ReproducibleStep(heap, p.0, boxes, related);
      }
      assert Bisimulation(heap, related) && (box, box) in related;
    }
  }

  lemma ReproducibleStep(heap: Heap, box: Box, boxes: set<Box>, related: set<(Box, Box)>)
    requires Reproducible(heap, boxes) && box in boxes
    requires related == set b | b in boxes :: (b, b)
    ensures StepRelated(heap, box, box, related)
  {
    match heap[box].payload {
      case Struct(fields) =>
        forall i | 0 <= i < |fields| ensures SlotsRelated(fields[i], fields[i], related) {
          assert fields[i] in fields;
        }
      case Slice(_, elements) =>
        forall i | 0 <= i < |elements| ensures SlotsRelated(elements[i], elements[i], related) {
          assert elements[i] in elements;
        }
      case _ =>
    }
  }

  // A lookup finds only keys that the map lists.
  ghost predicate LookupsListed(heap: Heap) {
    forall b :: b in heap && heap[b].payload.Map? ==> heap[b].payload.lookup.Keys <= Elements(heap[b].payload.keys)
  }

  // Two boxes that are maps find the same keys.
  ghost predicate SameLookups(heap: Heap, left: Box, right: Box)
    requires left in heap && right in heap
  {
    heap[left].payload.Map? && heap[right].payload.Map? ==> heap[left].payload.lookup.Keys == heap[right].payload.lookup.Keys
  }

  // A bisimulation that pairs maps with the same keys only.
  ghost predicate Matching(heap: Heap, related: set<(Box, Box)>) {
    Bisimulation(heap, related) && forall p :: p in related ==> SameLookups(heap, p.0, p.1)
  }

  // The two directions agree exactly when maps can be paired with the same keys.
  lemma SymmetricIff(heap: Heap, left: Box, right: Box)
    requires LookupsListed(heap) && Bisimilar(heap, left, right)
    ensures Bisimilar(heap, right, left) <==> exists related :: Matching(heap, related) && (left, right) in related
  {
    if related :| Matching(heap, related) && (left, right) in related {
      FlippedIsBisimulation(heap, related);
      assert (right, left) in Flipped(related);
    }
    if Bisimilar(heap, right, left) {
      var there: set<(Box, Box)> :| Bisimulation(heap, there) && (left, right) in there;
      var back: set<(Box, Box)> :| Bisimulation(heap, back) && (right, left) in back;
      var both := there * Flipped(back);
      forall p | p in both ensures p.0 in heap && p.1 in heap && StepRelated(heap, p.0, p.1, both) && SameLookups(heap, p.0, p.1) {
        BothWays(heap, p.0, p.1, there, back);
      }
      assert (left, right) in both;
    }
  }

  ghost function Flipped(related: set<(Box, Box)>): set<(Box, Box)> {
    set p: (Box, Box) | p in related :: (p.1, p.0)
  }

  lemma FlippedIsBisimulation(heap: Heap, related: set<(Box, Box)>)
    requires LookupsListed(heap) && Matching(heap, related)
    ensures Bisimulation(heap, Flipped(related))
  {
    forall p | p in Flipped(related) ensures p.0 in heap && p.1 in heap && StepRelated(heap, p.0, p.1, Flipped(related)) {
      assert (p.1, p.0) in related;
      FlippedStep(heap, p.1, p.0, related);
    }
  }

  lemma FlippedStep(heap: Heap, left: Box, right: Box, related: set<(Box, Box)>)
    requires LookupsListed(heap) && left in heap && right in heap
    requires StepRelated(heap, left, right, related) && SameLookups(heap, left, right)
    ensures StepRelated(heap, right, left, Flipped(related))
  {
    forall p | p in related ensures (p.1, p.0) in Flipped(related) {}
    match (heap[left].payload, heap[right].payload) {
      case (Map(_, ks, a), Map(_, ls, b)) =>
        forall k | k in ls && k in b ensures k in a && SlotsRelated(b[k], a[k], Flipped(related)) {
          assert k in a.Keys && k in Elements(ks);
        }
      case _ =>
    }
  }

  // What holds in both directions holds of the pairs that are in both.
  lemma BothWays(heap: Heap, left: Box, right: Box, there: set<(Box, Box)>, back: set<(Box, Box)>)
    requires LookupsListed(heap) && Bisimulation(heap, there) && Bisimulation(heap, back)
    requires (left, right) in there && (right, left) in back
    ensures StepRelated(heap, left, right, there * Flipped(back)) && SameLookups(heap, left, right)
  {
    var both := there * Flipped(back);
    assert StepRelated(heap, left, right, there) && StepRelated(heap, right, left, back);
    forall p: (Box, Box) | p in there && (p.1, p.0) in back ensures p in both {}
    match (heap[left].payload, heap[right].payload) {
      case (Map(_, ks, a), Map(_, ls, b)) =>
        forall k ensures k in a <==> k in b {
          assert k in a ==> k in Elements(ks);
          assert k in b ==> k in Elements(ls);
        }
      case _ =>
    }
  }

  // ---- A condition on one side -------------------------------------------------------

  // All boxes reachable from those of the set are in it.
  ghost predicate ClosedUnderChildren(heap: Heap, boxes: set<Box>) {
    forall b :: b in boxes && b in heap ==>
      match heap[b].payload
      case Pointer(Target(element)) => SlotWithin(element, boxes)
      case Struct(fields) => forall f :: f in fields ==> SlotWithin(f, boxes)
      case Slice(_, elements) => forall e :: e in elements ==> SlotWithin(e, boxes)
      case Map(_, _, lookup) => forall k :: k in lookup ==> SlotWithin(lookup[k], boxes)
      case _ => true
  }

  // Every listed key is found and listed once: no map of the set holds a NaN key.
  ghost predicate KeysFound(heap: Heap, boxes: set<Box>) {
    forall b :: b in boxes && b in heap && heap[b].payload.Map? ==>
      Distinct(heap[b].payload.keys) && Elements(heap[b].payload.keys) == heap[b].payload.lookup.Keys
  }

  // It is enough that no NaN key can be reached from the left operand.
  lemma Symmetric(heap: Heap, left: Box, right: Box, boxes: set<Box>)
    requires LookupsListed(heap) && Bisimilar(heap, left, right)
    requires left in boxes && ClosedUnderChildren(heap, boxes) && KeysFound(heap, boxes)
    ensures Bisimilar(heap, right, left)
  {
    var related: set<(Box, Box)> :| Bisimulation(heap, related) && (left, right) in related;
    var reached := set p: (Box, Box) | p in related && p.0 in boxes;
    forall p | p in reached ensures StepRelated(heap, p.0, p.1, reached) && SameLookups(heap, p.0, p.1) {
      ReachedStep(heap, p.0, p.1, related, boxes, reached);
    }
    assert Matching(heap, reached) && (left, right) in reached;
    SymmetricIff(heap, left, right);
  }

  lemma ReachedStep(heap: Heap, left: Box, right: Box, related: set<(Box, Box)>, boxes: set<Box>, reached: set<(Box, Box)>)
    requires LookupsListed(heap) && Bisimulation(heap, related) && (left, right) in related
    requires left in boxes && ClosedUnderChildren(heap, boxes) && KeysFound(heap, boxes)
    requires reached == set p | p in related && p.0 in boxes
    ensures StepRelated(heap, left, right, reached) && SameLookups(heap, left, right)
  {
    assert StepRelated(heap, left, right, related);
    match (heap[left].payload, heap[right].payload) {
      case (Map(_, ks, a), Map(_, ls, b)) =>
        DistinctSize(ks);
        DistinctSize(ls);
        forall k | k in a.Keys ensures k in b.Keys { assert k in Elements(ks); }
        SubsetSize(b.Keys, Elements(ls));
        SubsetSize(a.Keys, b.Keys);
      case (Struct(f), Struct(g)) =>
        forall i | 0 <= i < |f| ensures SlotsRelated(f[i], g[i], reached) { assert f[i] in f; }
      case (Slice(_, f), Slice(_, g)) =>
        forall i | 0 <= i < |f| ensures SlotsRelated(f[i], g[i], reached) { assert f[i] in f; }
      case _ =>
    }
  }

  // Without such a condition the relation is not symmetric: a map with one NaN
  // key equals any map of size one, and not the other way round.
  lemma NaNKeyBreaksSymmetry()
    ensures exists heap: Heap, a, b ::
      WellTyped(heap) && Supported(heap) && LookupsListed(heap) && a in heap && b in heap &&
      Bisimilar(heap, a, b) && !Bisimilar(heap, b, a)
  {
    var heap: Heap := map[
      0 := Cell(Some(7), Map(false, [1], map[])),
      1 := Cell(Some(7), Map(false, [2], map[2 := None]))];
    var related := {(0, 1)};
    assert Bisimulation(heap, related) && (0, 1) in related;
    forall other | Bisimulation(heap, other) ensures (1, 0) !in other {
      assert !StepRelated(heap, 1, 0, other) by { assert 2 in [2]; }
    }
    assert Bisimilar(heap, 0, 1) && !Bisimilar(heap, 1, 0);
  }
}
