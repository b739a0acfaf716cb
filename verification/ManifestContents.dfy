// What a parsed provider manifest holds, entry by entry in terms of its document.
module ManifestContents {
  import opened Common
  import opened ManifestIndex
  import opened ProviderManifest

  // ---- Contents ----------------------------------------------------------------

  ghost predicate HoldsBindings(d: Document, m: Manifest) {
    && (forall n, b :: n in d.modules && b in n.bindings ==>
          b.identity in m.bindings && m.bindings[b.identity] == (n.specifier, b))
    && (forall k :: k in m.bindings ==> exists n, b :: n in d.modules && b in n.bindings && k == b.identity)
  }

  ghost predicate HoldsRepresentations(d: Document, m: Manifest) {
    && (forall n, r :: n in d.facetModules && r in n.representations ==>
          (n.specifier, r.exportName) in m.representations && m.representations[(n.specifier, r.exportName)] == r)
    && (forall k :: k in m.representations ==>
          exists n, r :: n in d.facetModules && r in n.representations && k == (n.specifier, r.exportName))
  }

  ghost predicate HoldsInterfaces(d: Document, m: Manifest) {
    && (forall n, i :: n in d.facetModules && i in n.interfaces ==>
          i.identity in m.interfaces && m.interfaces[i.identity] == (n.specifier, i))
    && (forall k :: k in m.interfaces ==> exists n, i :: n in d.facetModules && i in n.interfaces && k == i.identity)
  }

  ghost predicate HoldsProfiles(d: Document, m: Manifest) {
    && (forall n, p :: n in d.facetModules && p in n.profiles ==>
          (p.identity, p.key) in m.profiles && m.profiles[(p.identity, p.key)] == (n.specifier, p))
    && (forall k :: k in m.profiles ==> exists n, p :: n in d.facetModules && p in n.profiles && k == (p.identity, p.key))
  }

  ghost predicate HoldsStatefuls(d: Document, m: Manifest) {
    && (forall n, p :: n in d.facetModules && p in n.statefuls ==>
          (p.identity, p.key) in m.statefuls && m.statefuls[(p.identity, p.key)] == (n.specifier, p))
    && (forall k :: k in m.statefuls ==> exists n, p :: n in d.facetModules && p in n.statefuls && k == (p.identity, p.key))
  }

  // The facet, with the representation of its module that it names, if it names one.
  ghost predicate BindsFacet(n: FacetModule, f: Facet, bound: BoundFacet) {
    && bound.specifier == n.specifier && bound.facet == f
    && (f.representationExport == "" ==> bound.representation == None)
    && (f.representationExport != "" ==>
          && bound.representation.Some? && bound.representation.value in n.representations
          && bound.representation.value.exportName == f.representationExport)
  }

  ghost predicate HoldsFacets(d: Document, m: Manifest) {
    && (forall n, f, c :: n in d.facetModules && f in n.facets && c in f.capabilities ==>
          (f.identity, f.kind, c) in m.facets && BindsFacet(n, f, m.facets[(f.identity, f.kind, c)]))
    && (forall k :: k in m.facets ==>
          exists n, f, c :: n in d.facetModules && f in n.facets && c in f.capabilities && k == (f.identity, f.kind, c))
  }

  // ---- Resolved capabilities ---------------------------------------------------

  predicate KeyedBy(p: Profile, identity: string, key: string) {
    p.identity == identity && p.key == key
  }

  predicate NamedBy(i: Interface, identity: string, exportName: string) {
    i.identity == identity && i.exportName == exportName
  }

  ghost predicate FirstKeyed(profiles: seq<Profile>, identity: string, key: string, k: nat) {
    k < |profiles| && KeyedBy(profiles[k], identity, key) && forall j :: 0 <= j < k ==> !KeyedBy(profiles[j], identity, key)
  }

  ghost predicate FirstNamed(interfaces: seq<Interface>, identity: string, exportName: string, k: nat) {
    && k < |interfaces| && NamedBy(interfaces[k], identity, exportName)
    && forall j :: 0 <= j < k ==> !NamedBy(interfaces[j], identity, exportName)
  }

  ghost predicate LastNamed(interfaces: seq<Interface>, identity: string, exportName: string, k: nat) {
    && k < |interfaces| && NamedBy(interfaces[k], identity, exportName)
    && forall j :: k < j < |interfaces| ==> !NamedBy(interfaces[j], identity, exportName)
  }

  ghost predicate FirstProfile(profiles: seq<Profile>, identity: string, key: string, found: Option<Profile>) {
    && (found.None? ==> forall p :: p in profiles ==> !KeyedBy(p, identity, key))
    && (found.Some? ==> exists k: nat :: FirstKeyed(profiles, identity, key, k) && profiles[k] == found.value)
  }

  ghost predicate FirstWith(interfaces: seq<Interface>, identity: string, exportName: string, found: Option<Interface>) {
    && (found.None? ==> forall i :: i in interfaces ==> !NamedBy(i, identity, exportName))
    && (found.Some? ==> exists k: nat :: FirstNamed(interfaces, identity, exportName, k) && interfaces[k] == found.value)
  }

  ghost predicate LastWith(interfaces: seq<Interface>, identity: string, exportName: string, found: Option<Interface>) {
    && (found.None? ==> forall i :: i in interfaces ==> !NamedBy(i, identity, exportName))
    && (found.Some? ==> exists k: nat :: LastNamed(interfaces, identity, exportName, k) && interfaces[k] == found.value)
  }

  ghost predicate Has(interfaces: seq<Interface>, identity: string, exportName: string) {
    exists i :: i in interfaces && NamedBy(i, identity, exportName)
  }

  // The target is the profile's. So is the base, unless the module's own interface is
  // preferred: for internal use, or because the profile has none of that name.
  ghost predicate ResolvesTo(n: FacetModule, c: Capability, r: Resolved) {
    && r.specifier == n.specifier && r.capability == c
    && FirstProfile(n.profiles, c.profileIdentity, c.profileKey, r.profile)
    && var listed := if r.profile.Some? then r.profile.value.interfaces else [];
    && LastWith(listed, c.targetIdentity, c.targetExport, r.target)
    && if Has(n.interfaces, c.baseIdentity, c.baseExport) && (c.usage == ProviderInternal || !Has(listed, c.baseIdentity, c.baseExport))
       then FirstWith(n.interfaces, c.baseIdentity, c.baseExport, r.base)
       else LastWith(listed, c.baseIdentity, c.baseExport, r.base)
  }

  // The capabilities of one module with the base, in their order.
  ghost predicate ListsCapabilities(n: FacetModule, base: string, list: seq<Resolved>) {
    exists places: seq<nat> ::
      && |places| == |list| && (forall s, t :: 0 <= s < t < |places| ==> places[s] < places[t])
      && (forall j :: j in places <==> 0 <= j < |n.capabilities| && n.capabilities[j].baseIdentity == base)
      && forall t :: 0 <= t < |list| ==> places[t] < |n.capabilities| && ResolvesTo(n, n.capabilities[places[t]], list[t])
  }

  // The list is put together from the modules' parts, in the order of the modules.
  ghost predicate PutTogether(d: Document, base: string, list: seq<Resolved>, part: FacetModule -> seq<Resolved>) {
    list == Flatten(d.facetModules, part) && forall n :: n in d.facetModules ==> ListsCapabilities(n, base, part(n))
  }

  ghost predicate ListsAll(d: Document, base: string, list: seq<Resolved>) {
    exists part: FacetModule -> seq<Resolved> :: PutTogether(d, base, list, part)
  }

  ghost predicate HoldsCapabilities(d: Document, m: Manifest) {
    forall base :: ListsAll(d, base, Grouped(m.capabilities, base))
  }

  ghost predicate HoldsDocument(d: Document, m: Manifest) {
    && HoldsBindings(d, m) && HoldsRepresentations(d, m) && HoldsInterfaces(d, m)
    && HoldsProfiles(d, m) && HoldsStatefuls(d, m) && HoldsFacets(d, m) && HoldsCapabilities(d, m)
  }

  // ---- Entries and indexes --------------------------------------------------------

  lemma {:induction false} ScanComesFrom<K, V>(entries: seq<(K, V)>, key: K)
    ensures var v := Scan(entries, key); v.Some? ==> (key, v.value) in entries
  {
    if entries != [] && entries[0].0 != key {
      ScanComesFrom(entries[1..], key);
    }
  }

  lemma IndexHolds<K(!new), V>(entries: seq<(K, V)>, index: map<K, V>)
    requires Distinct(Keys(entries)) && forall k :: Lookup(index, k) == Scan(entries, k)
    ensures forall e :: e in entries ==> e.0 in index && index[e.0] == e.1
    ensures forall k :: k in index ==> (k, index[k]) in entries
  {
    forall e | e in entries ensures e.0 in index && index[e.0] == e.1 {
      var i :| 0 <= i < |entries| && entries[i] == e;
      ScanFinds(entries, i);
      assert Lookup(index, e.0) == Some(e.1);
    }
    forall k | k in index ensures (k, index[k]) in entries {
      assert Lookup(index, k) == Scan(entries, k);
      ScanComesFrom(entries, k);
    }
  }

  lemma MapMember<A, B>(f: A -> B, s: seq<A>, y: B)
    ensures y in MapSeq(f, s) <==> exists x :: x in s && f(x) == y
  {
    if x :| x in s && f(x) == y {
      var i :| 0 <= i < |s| && s[i] == x;
      assert MapSeq(f, s)[i] == y;
    }
    if y in MapSeq(f, s) {
      var i :| 0 <= i < |s| && MapSeq(f, s)[i] == y;
      assert s[i] in s;
    }
  }

  // An index of records, each under its key, with its value.
  lemma RecordsHeld<A, R, K(!new), V>(xs: seq<A>, entries: A -> seq<(K, V)>, records: A -> seq<R>, key: (A, R) -> K, value: (A, R) -> V,
    index: map<K, V>)
    requires forall x :: x in xs ==> entries(x) == MapSeq((r: R) => (key(x, r), value(x, r)), records(x))
    requires Distinct(Keys(Flatten(xs, entries))) && forall k :: Lookup(index, k) == Scan(Flatten(xs, entries), k)
    ensures forall x, r :: x in xs && r in records(x) ==> key(x, r) in index && index[key(x, r)] == value(x, r)
    ensures forall k :: k in index ==> exists x, r :: x in xs && r in records(x) && k == key(x, r)
  {
    IndexHolds(Flatten(xs, entries), index);
    forall x, r | x in xs && r in records(x) ensures key(x, r) in index && index[key(x, r)] == value(x, r) {
      var e := (key(x, r), value(x, r));
      MapMember((r: R) => (key(x, r), value(x, r)), records(x), e);
      FlattenMember(xs, entries, e);
    }
    forall k | k in index ensures exists x, r :: x in xs && r in records(x) && k == key(x, r) {
      var e := (k, index[k]);
      FlattenMember(xs, entries, e);
      var x :| x in xs && e in entries(x);
      MapMember((r: R) => (key(x, r), value(x, r)), records(x), e);
    }
  }

  lemma BindingsHeld(d: Document, m: Manifest)
    requires Accepted(d) && AnswersAsScan(d, m)
    ensures HoldsBindings(d, m)
  {
    var key, value := (n: Module, b: Binding) => b.identity, (n: Module, b: Binding) => (n.specifier, b);
    BindingKeysDistinct(d);
    RecordsHeld(d.modules, BindingEntries, (n: Module) => n.bindings, key, value, m.bindings);
    forall n, b | n in d.modules && b in n.bindings
      ensures b.identity in m.bindings && m.bindings[b.identity] == (n.specifier, b)
    {
      assert key(n, b) in m.bindings;
    }
  }

  lemma RepresentationsHeld(d: Document, m: Manifest)
    requires Accepted(d) && AnswersAsScan(d, m)
    ensures HoldsRepresentations(d, m)
  {
    var key, value := (n: FacetModule, r: Representation) => (n.specifier, r.exportName), (n: FacetModule, r: Representation) => r;
    RepresentationKeysDistinct(d);
    RecordsHeld(d.facetModules, RepresentationEntries, (n: FacetModule) => n.representations, key, value, m.representations);
    forall n, r | n in d.facetModules && r in n.representations
      ensures (n.specifier, r.exportName) in m.representations && m.representations[(n.specifier, r.exportName)] == r
    {
      assert key(n, r) in m.representations;
    }
  }

  lemma InterfacesHeld(d: Document, m: Manifest)
    requires Accepted(d) && AnswersAsScan(d, m)
    ensures HoldsInterfaces(d, m)
  {
    var key, value := (n: FacetModule, i: Interface) => i.identity, (n: FacetModule, i: Interface) => (n.specifier, i);
    InterfaceKeysDistinct(d);
    RecordsHeld(d.facetModules, InterfaceEntries, (n: FacetModule) => n.interfaces, key, value, m.interfaces);
    forall n, i | n in d.facetModules && i in n.interfaces
      ensures i.identity in m.interfaces && m.interfaces[i.identity] == (n.specifier, i)
    {
      assert key(n, i) in m.interfaces;
    }
  }

  lemma ProfilesHeld(d: Document, m: Manifest)
    requires Accepted(d) && AnswersAsScan(d, m)
    ensures HoldsProfiles(d, m)
  {
    var key, value := (n: FacetModule, p: Profile) => (p.identity, p.key), (n: FacetModule, p: Profile) => (n.specifier, p);
    ProfileKeysDistinct(d);
    RecordsHeld(d.facetModules, ProfileEntries, (n: FacetModule) => n.profiles, key, value, m.profiles);
    forall n, p | n in d.facetModules && p in n.profiles
      ensures (p.identity, p.key) in m.profiles && m.profiles[(p.identity, p.key)] == (n.specifier, p)
    {
      assert key(n, p) in m.profiles;
    }
  }

  lemma StatefulsHeld(d: Document, m: Manifest)
    requires Accepted(d) && AnswersAsScan(d, m)
    ensures HoldsStatefuls(d, m)
  {
    var key, value := (n: FacetModule, p: Profile) => (p.identity, p.key), (n: FacetModule, p: Profile) => (n.specifier, p);
    ProfileKeysDistinct(d);
    RecordsHeld(d.facetModules, StatefulEntries, (n: FacetModule) => n.statefuls, key, value, m.statefuls);
    forall n, p | n in d.facetModules && p in n.statefuls
      ensures (p.identity, p.key) in m.statefuls && m.statefuls[(p.identity, p.key)] == (n.specifier, p)
    {
      assert key(n, p) in m.statefuls;
    }
  }

  // ---- Facets ---------------------------------------------------------------------

  lemma FacetEntry(n: FacetModule, e: (FacetKey, BoundFacet))
    ensures e in FacetEntries(n) <==>
      exists f, c :: f in n.facets && c in f.capabilities && e == ((f.identity, f.kind, c), NewFacet(n, f))
  {
    var of := (f: Facet) => MapSeq((c: string) => ((f.identity, f.kind, c), NewFacet(n, f)), f.capabilities);
    FlattenMember(n.facets, of, e);
    forall f ensures e in of(f) <==> exists c :: c in f.capabilities && e == ((f.identity, f.kind, c), NewFacet(n, f)) {
      MapMember((c: string) => ((f.identity, f.kind, c), NewFacet(n, f)), f.capabilities, e);
    }
  }

  lemma FacetIsBound(n: FacetModule, f: Facet)
    requires AcceptedFacetModule(n) && f in n.facets
    ensures BindsFacet(n, f, NewFacet(n, f))
  {
    if f.representationExport != "" {
      FacetResolves(n, f);
    }
  }

  lemma FacetsHeld(d: Document, m: Manifest)
    requires Accepted(d) && AnswersAsScan(d, m)
    ensures HoldsFacets(d, m)
  {
    var entries := Flatten(d.facetModules, FacetEntries);
    FacetKeysDistinct(d);
    IndexHolds(entries, m.facets);
    forall n, f, c | n in d.facetModules && f in n.facets && c in f.capabilities
      ensures (f.identity, f.kind, c) in m.facets && BindsFacet(n, f, m.facets[(f.identity, f.kind, c)])
    {
      var e := ((f.identity, f.kind, c), NewFacet(n, f));
      FacetEntry(n, e);
      FlattenMember(d.facetModules, FacetEntries, e);
      FacetIsBound(n, f);
    }
    forall k | k in m.facets
      ensures exists n, f, c :: n in d.facetModules && f in n.facets && c in f.capabilities && k == (f.identity, f.kind, c)
    {
      var e := (k, m.facets[k]);
      FlattenMember(d.facetModules, FacetEntries, e);
      var n :| n in d.facetModules && e in FacetEntries(n);
      FacetEntry(n, e);
    }
  }

  // ---- Capabilities ------------------------------------------------------------------

  lemma {:induction false} SelectAppend<K, V>(a: seq<(K, V)>, b: seq<(K, V)>, key: K)
    ensures Select(a + b, key) == Select(a, key) + Select(b, key)
  {
    if b == [] {
      assert a + b == a;
    } else {
      var last := |b| - 1;
      assert (a + b)[..|a + b| - 1] == a + b[..last];
      SelectAppend(a, b[..last], key);
    }
  }

  lemma {:induction false} SelectFlatten<A, K, V>(xs: seq<A>, entries: A -> seq<(K, V)>, key: K, part: A -> seq<V>)
    requires forall x :: x in xs ==> part(x) == Select(entries(x), key)
    ensures Select(Flatten(xs, entries), key) == Flatten(xs, part)
  {
    if xs != [] {
      SelectAppend(entries(xs[0]), Flatten(xs[1..], entries), key);
      SelectFlatten(xs[1..], entries, key, part);
    }
  }

  // Where the selected entries stand.
  ghost predicate Places<K, V>(entries: seq<(K, V)>, key: K, places: seq<nat>) {
    && |places| == |Select(entries, key)| && (forall s, t :: 0 <= s < t < |places| ==> places[s] < places[t])
    && (forall j :: j in places <==> 0 <= j < |entries| && entries[j].0 == key)
    && forall t :: 0 <= t < |places| ==> places[t] < |entries| && entries[places[t]].1 == Select(entries, key)[t]
  }

  lemma {:induction false} SelectPlaces<K, V>(entries: seq<(K, V)>, key: K) returns (places: seq<nat>)
    ensures Places(entries, key, places)
  {
    if entries == [] {
      places := [];
    } else {
      var last := |entries| - 1;
      var init := entries[..last];
      places := SelectPlaces(init, key);
      assert forall t :: 0 <= t < |places| ==> places[t] in places && init[places[t]] == entries[places[t]];
      if entries[last].0 == key {
        places := places + [last];
      }
    }
  }

  lemma {:induction false} FoundProfile(profiles: seq<Profile>, identity: string, key: string)
    ensures FirstProfile(profiles, identity, key, FindProfile(profiles, identity, key))
  {
    if profiles != [] {
      if KeyedBy(profiles[0], identity, key) {
        assert FirstKeyed(profiles, identity, key, 0);
      } else {
        var rest := profiles[1..];
        FoundProfile(rest, identity, key);
        assert profiles == [profiles[0]] + rest;
        if k: nat :| FirstKeyed(rest, identity, key, k) && rest[k] == FindProfile(rest, identity, key).value {
          assert FirstKeyed(profiles, identity, key, k + 1);
        }
      }
    }
  }

  lemma {:induction false} FoundFirst(interfaces: seq<Interface>, identity: string, exportName: string)
    ensures FirstWith(interfaces, identity, exportName, FirstInterface(interfaces, identity, exportName))
  {
    if interfaces != [] {
      if NamedBy(interfaces[0], identity, exportName) {
        assert FirstNamed(interfaces, identity, exportName, 0);
      } else {
        var rest := interfaces[1..];
        FoundFirst(rest, identity, exportName);
        assert interfaces == [interfaces[0]] + rest;
        if k: nat :| FirstNamed(rest, identity, exportName, k) && rest[k] == FirstInterface(rest, identity, exportName).value {
          assert FirstNamed(interfaces, identity, exportName, k + 1);
        }
      }
    }
  }

  lemma {:induction false} FoundLast(interfaces: seq<Interface>, identity: string, exportName: string)
    ensures LastWith(interfaces, identity, exportName, LastInterface(interfaces, identity, exportName))
  {
    if interfaces != [] {
      var last: nat := |interfaces| - 1;
      if NamedBy(interfaces[last], identity, exportName) {
        assert LastNamed(interfaces, identity, exportName, last);
      } else {
        var init := interfaces[..last];
        FoundLast(init, identity, exportName);
        assert interfaces == init + [interfaces[last]];
        if k: nat :| LastNamed(init, identity, exportName, k) && init[k] == LastInterface(init, identity, exportName).value {
          assert LastNamed(interfaces, identity, exportName, k);
        }
      }
    }
  }

  lemma ResolutionResolves(n: FacetModule, c: Capability)
    ensures ResolvesTo(n, c, Resolution(n, c))
  {
    var r := Resolution(n, c);
    var listed := if r.profile.Some? then r.profile.value.interfaces else [];
    FoundProfile(n.profiles, c.profileIdentity, c.profileKey);
    FoundLast(listed, c.targetIdentity, c.targetExport);
    FoundLast(listed, c.baseIdentity, c.baseExport);
    FoundFirst(n.interfaces, c.baseIdentity, c.baseExport);
    HasIff(n.interfaces, c.baseIdentity, c.baseExport);
    HasIff(listed, c.baseIdentity, c.baseExport);
  }

  lemma HasIff(interfaces: seq<Interface>, identity: string, exportName: string)
    ensures Has(interfaces, identity, exportName) <==> FirstInterface(interfaces, identity, exportName).Some?
    ensures Has(interfaces, identity, exportName) <==> LastInterface(interfaces, identity, exportName).Some?
  {
    FoundFirst(interfaces, identity, exportName);
    FoundLast(interfaces, identity, exportName);
  }

  lemma ModuleLists(n: FacetModule, base: string)
    ensures ListsCapabilities(n, base, Select(CapabilityEntries(n), base))
  {
    var entries, list := CapabilityEntries(n), Select(CapabilityEntries(n), base);
    var places := SelectPlaces(entries, base);
    forall t | 0 <= t < |list| ensures places[t] < |n.capabilities| && ResolvesTo(n, n.capabilities[places[t]], list[t]) {
      ResolutionResolves(n, n.capabilities[places[t]]);
    }
  }

  lemma SelectionListsAll(d: Document, base: string, list: seq<Resolved>)
    requires list == Select(Flatten(d.facetModules, CapabilityEntries), base)
    ensures ListsAll(d, base, list)
  {
    var part: FacetModule -> seq<Resolved> := n => Select(CapabilityEntries(n), base);
    SelectFlatten(d.facetModules, CapabilityEntries, base, part);
    forall n | n in d.facetModules ensures ListsCapabilities(n, base, part(n)) {
      ModuleLists(n, base);
    }
    assert PutTogether(d, base, list, part);
  }

  lemma CapabilitiesHeld(d: Document, m: Manifest)
    requires AnswersAsScan(d, m)
    ensures HoldsCapabilities(d, m)
  {
    forall base ensures ListsAll(d, base, Grouped(m.capabilities, base)) {
      SelectionListsAll(d, base, Grouped(m.capabilities, base));
    }
  }

  // Everything in the document is found in the parsed manifest under its keys, bound
  // and resolved within its module; and there is nothing else in it.
  lemma ParsedHoldsDocument(d: Document, m: Manifest)
    requires Accepted(d) && AnswersAsScan(d, m)
    ensures HoldsDocument(d, m)
  {
    BindingsHeld(d, m);
    RepresentationsHeld(d, m);
    InterfacesHeld(d, m);
    ProfilesHeld(d, m);
    StatefulsHeld(d, m);
    FacetsHeld(d, m);
    CapabilitiesHeld(d, m);
  }
}
