// The sealed provider manifest: which documents validation accepts, the
// indexes built from them, and the resolution of cross references.  Checks of
// single fields are left out, so the model accepts more documents.
module ProviderManifest {
  import opened Common
  import opened Text
  import opened ManifestIndex

  const NUL: char := 0 as char

  datatype Binding = Binding(identity: string, exportName: string)
  datatype Module = Module(importPath: string, specifier: string, bindings: seq<Binding>)

  datatype RepresentationMethod = RepresentationMethod(identity: string, member: string)
  datatype Representation = Representation(exportName: string, methods: seq<RepresentationMethod>)

  // Mode, methods, protocol and fingerprint are one piece of evidence.
  datatype Interface = Interface(identity: string, exportName: string, evidence: string)
  datatype Profile = Profile(
    identity: string, key: string, exportName: string,
    interfaces: seq<Interface>, effects: seq<string>, evidence: string)

  datatype Usage = ProviderInternal | GeneratedBridge | InvalidUsage
  datatype Capability = Capability(
    usage: Usage, baseIdentity: string, baseExport: string,
    profileIdentity: string, profileKey: string,
    targetIdentity: string, targetExport: string, viewExport: string)

  datatype Facet = Facet(
    kind: string, identity: string, capabilities: seq<string>,
    exportName: string, resultExport: string, storageExport: string, representationExport: string)

  datatype FacetModule = FacetModule(
    specifier: string,
    representations: seq<Representation>,
    interfaces: seq<Interface>,
    capabilities: seq<Capability>,
    profiles: seq<Profile>,
    statefuls: seq<Profile>,
    facets: seq<Facet>)

  datatype Document = Document(modules: seq<Module>, facetModules: seq<FacetModule>)

  predicate ValidDigest(s: string) {
    |s| == 64 && forall c :: c in s ==> '0' <= c <= '9' || 'a' <= c <= 'f'
  }

  function Joined(a: string, b: string): string {
    a + ([NUL] + b)
  }

  // ---- Export ownership -------------------------------------------------------

  datatype Owner =
    | Alone
    | OfBinding(binding: Interface)
    | OfInterface(profileInterface: Interface)
    | OfCallable(callable: (string, string))
    | OfStateful(stateful: (string, string))

  // Whether a later claim of an owned export is the same target again.
  predicate SameTarget(prior: Owner, next: Owner) {
    match next
    case OfInterface(i) => prior == OfBinding(i) || prior == OfInterface(i)
    case OfCallable(_) => prior == next
    case OfStateful(_) => prior == next
    case _ => false
  }

  function RepresentationClaims(representations: seq<Representation>): seq<(string, Owner)> {
    if representations == [] then [] else [(representations[0].exportName, Alone)] + RepresentationClaims(representations[1..])
  }

  function InterfaceClaims(interfaces: seq<Interface>, bindings: bool): seq<(string, Owner)> {
    if interfaces == [] then []
    else
      var owner := if bindings then OfBinding(interfaces[0]) else OfInterface(interfaces[0]);
      [(interfaces[0].exportName, owner)] + InterfaceClaims(interfaces[1..], bindings)
  }

  function ProfileClaims(profile: Profile, callable: bool): seq<(string, Owner)> {
    var target := (profile.identity, profile.evidence);
    InterfaceClaims(profile.interfaces, false)
      + [(profile.exportName, if callable then OfCallable(target) else OfStateful(target))]
  }

  function CapabilityClaims(capabilities: seq<Capability>): seq<(string, Owner)> {
    if capabilities == [] then [] else [(capabilities[0].viewExport, Alone)] + CapabilityClaims(capabilities[1..])
  }

  function FacetClaims(facet: Facet): seq<(string, Owner)> {
    [(facet.exportName, Alone)]
      + (if facet.resultExport == "" then [] else [(facet.resultExport, Alone)])
      + (if facet.storageExport == "" then [] else [(facet.storageExport, Alone)])
  }

  // All claims of a module, in the order in which validation makes them.
  function Claims(m: FacetModule): seq<(string, Owner)> {
    RepresentationClaims(m.representations)
      + InterfaceClaims(m.interfaces, true)
      + Flatten(m.profiles, (p: Profile) => ProfileClaims(p, true))
      + Flatten(m.statefuls, (p: Profile) => ProfileClaims(p, false))
      + CapabilityClaims(m.capabilities)
      + Flatten(m.facets, FacetClaims)
  }

  // Two claims of one export are claims of the same shareable target.
  ghost predicate ExclusivelyOwned(claims: seq<(string, Owner)>) {
    ExclusiveUpTo(claims, |claims|)
  }

  ghost predicate ExclusiveUpTo(claims: seq<(string, Owner)>, n: nat)
    requires n <= |claims|
  {
    forall i, j :: 0 <= i < j < n && claims[i].0 == claims[j].0 ==> SameTarget(claims[i].1, claims[j].1)
  }

  method ClaimExports(claims: seq<(string, Owner)>) returns (ok: bool)
    ensures ok <==> ExclusivelyOwned(claims)
  {
    var owners: map<string, Owner> := map[];
    ghost var first: map<string, nat> := map[];
    for i := 0 to |claims|
      invariant ExclusiveUpTo(claims, i)
      invariant owners.Keys == first.Keys
      invariant forall e :: e in first ==> first[e] < i && claims[first[e]] == (e, owners[e])
      invariant forall j :: 0 <= j < i ==> claims[j].0 in first && first[claims[j].0] <= j
    {
      var (name, owner) := claims[i];
      if name in owners {
        if !SameTarget(owners[name], owner) {
          assert claims[first[name]].0 == claims[i].0;
          return false;
        }
        forall j | 0 <= j < i && claims[j].0 == name ensures SameTarget(claims[j].1, owner) {
          assert first[name] < j ==> SameTarget(claims[first[name]].1, claims[j].1);
        }
      } else {
        owners := owners[name := owner];
        first := first[name := i];
      }
    }
    return true;
  }

  // ---- Provider interface capabilities ---------------------------------------

  function JoinedProfiles(profiles: seq<Profile>): seq<(string, Profile)> {
    seq(|profiles|, i requires 0 <= i < |profiles| => (Joined(profiles[i].identity, profiles[i].key), profiles[i]))
  }

  function JoinedInterfaces(interfaces: seq<Interface>): seq<(string, Interface)> {
    seq(|interfaces|, i requires 0 <= i < |interfaces| => (Joined(interfaces[i].identity, interfaces[i].exportName), interfaces[i]))
  }

  predicate Names(i: Interface, identity: string, exportName: string) {
    i.identity == identity && i.exportName == exportName
  }

  predicate Listed(interfaces: seq<Interface>, identity: string, exportName: string) {
    exists k :: 0 <= k < |interfaces| && Names(interfaces[k], identity, exportName)
  }

  // Base and target join the profile, or the provider interfaces of the module.
  predicate JoinsProfile(c: Capability, profile: Profile, providerBase: bool) {
    var base := Listed(profile.interfaces, c.baseIdentity, c.baseExport);
    && (match c.usage
        case ProviderInternal => providerBase
        case GeneratedBridge => base != providerBase
        case InvalidUsage => false)
    && Listed(profile.interfaces, c.targetIdentity, c.targetExport)
  }

  ghost predicate AcceptedCapability(m: FacetModule, c: Capability) {
    && c.baseIdentity != "" && c.baseExport != "" && c.profileIdentity != "" && c.profileKey != ""
    && c.targetIdentity != "" && c.targetExport != "" && c.viewExport != ""
    && !c.usage.InvalidUsage?
    && var profiles := Written(JoinedProfiles(m.profiles), map[]);
       var interfaces := Written(JoinedInterfaces(m.interfaces), map[]);
       var key := Joined(c.profileIdentity, c.profileKey);
       key in profiles && JoinsProfile(c, profiles[key], Joined(c.baseIdentity, c.baseExport) in interfaces)
  }

  function CapabilityKey(c: Capability): string {
    Joined(c.baseIdentity, Joined(c.targetIdentity, c.targetExport))
  }

  function CapabilityKeys(capabilities: seq<Capability>): (keys: seq<string>)
    ensures "" !in keys
  {
    seq(|capabilities|, i requires 0 <= i < |capabilities| => CapabilityKey(capabilities[i]))
  }

  method ValidateCapabilities(m: FacetModule) returns (ok: bool)
    ensures ok <==> AcceptedCapabilities(m)
  {
    var profiles := Write(map[], JoinedProfiles(m.profiles));
    var interfaces := Write(map[], JoinedInterfaces(m.interfaces));
    for i := 0 to |m.capabilities|
      invariant forall j :: 0 <= j < i ==> AcceptedCapability(m, m.capabilities[j])
    {
      var c := m.capabilities[i];
      assert c in m.capabilities;
      if c.usage.InvalidUsage? || c.baseIdentity == "" || c.baseExport == "" || c.profileIdentity == "" ||
         c.profileKey == "" || c.targetIdentity == "" || c.targetExport == "" || c.viewExport == "" {
        return false;
      }
      var key := Joined(c.profileIdentity, c.profileKey);
      if key !in profiles {
        return false;
      }
      if !JoinsProfile(c, profiles[key], Joined(c.baseIdentity, c.baseExport) in interfaces) {
        return false;
      }
    }
    ok := StrictlyOrdered(CapabilityKeys(m.capabilities));
  }

  // The resolved view of a capability.
  datatype Resolved = Resolved(
    specifier: string, capability: Capability,
    profile: Option<Profile>, base: Option<Interface>, target: Option<Interface>)

  function FindProfile(profiles: seq<Profile>, identity: string, key: string): Option<Profile> {
    if profiles == [] then None
    else if profiles[0].identity == identity && profiles[0].key == key then Some(profiles[0])
    else FindProfile(profiles[1..], identity, key)
  }

  // The last entry in the list that has both names.
  function LastInterface(interfaces: seq<Interface>, identity: string, exportName: string): Option<Interface> {
    if interfaces == [] then None
    else
      var last := |interfaces| - 1;
      if Names(interfaces[last], identity, exportName) then Some(interfaces[last])
      else LastInterface(interfaces[..last], identity, exportName)
  }

  function FirstInterface(interfaces: seq<Interface>, identity: string, exportName: string): Option<Interface> {
    if interfaces == [] then None
    else if Names(interfaces[0], identity, exportName) then Some(interfaces[0])
    else FirstInterface(interfaces[1..], identity, exportName)
  }

  function Resolution(m: FacetModule, c: Capability): Resolved {
    var profile := FindProfile(m.profiles, c.profileIdentity, c.profileKey);
    var listed := if profile.Some? then profile.value.interfaces else [];
    var base := LastInterface(listed, c.baseIdentity, c.baseExport);
    var provided := FirstInterface(m.interfaces, c.baseIdentity, c.baseExport);
    Resolved(m.specifier, c, profile,
      if (c.usage == ProviderInternal || base.None?) && provided.Some? then provided else base,
      LastInterface(listed, c.targetIdentity, c.targetExport))
  }

  // resolveProviderInterfaceCapability, for named exports.
  method ResolveCapability(m: FacetModule, c: Capability) returns (r: Resolved)
    ensures r == Resolution(m, c)
  {
    var profile: Option<Profile> := None;
    var i := 0;
    while i < |m.profiles| && profile.None?
      invariant 0 <= i <= |m.profiles|
      invariant FindProfile(m.profiles, c.profileIdentity, c.profileKey) ==
        if profile.Some? then profile else FindProfile(m.profiles[i..], c.profileIdentity, c.profileKey)
      decreases |m.profiles| - i
    {
      if m.profiles[i].identity == c.profileIdentity && m.profiles[i].key == c.profileKey {
        profile := Some(m.profiles[i]);
      }
      i := i + 1;
    }
    var listed := if profile.Some? then profile.value.interfaces else [];
    var base: Option<Interface>, target: Option<Interface> := None, None;
    for k := 0 to |listed|
      invariant base == LastInterface(listed[..k], c.baseIdentity, c.baseExport)
      invariant target == LastInterface(listed[..k], c.targetIdentity, c.targetExport)
    {
      assert listed[..k + 1][..k] == listed[..k];
      if Names(listed[k], c.baseIdentity, c.baseExport) {
        base := Some(listed[k]);
      }
      if Names(listed[k], c.targetIdentity, c.targetExport) {
        target := Some(listed[k]);
      }
    }
    assert listed[..|listed|] == listed;
    if c.usage == ProviderInternal || base.None? {
      var provided: Option<Interface> := None;
      i := 0;
      while i < |m.interfaces| && provided.None?
        invariant 0 <= i <= |m.interfaces|
        invariant FirstInterface(m.interfaces, c.baseIdentity, c.baseExport) ==
          if provided.Some? then provided else FirstInterface(m.interfaces[i..], c.baseIdentity, c.baseExport)
        decreases |m.interfaces| - i
      {
        if Names(m.interfaces[i], c.baseIdentity, c.baseExport) {
          provided := Some(m.interfaces[i]);
        }
        i := i + 1;
      }
      if provided.Some? {
        base := provided;
      }
    }
    return Resolved(m.specifier, c, profile, base, target);
  }

  // What consumers require of a resolved capability.
  predicate ValidResolution(r: Resolved) {
    && r.specifier != ""
    && r.capability.baseIdentity != "" && r.capability.baseExport != ""
    && r.capability.profileIdentity != "" && r.capability.profileKey != ""
    && r.capability.targetIdentity != "" && r.capability.targetExport != ""
    && r.capability.viewExport != "" && !r.capability.usage.InvalidUsage?
    && r.profile.Some? && r.profile.value.identity == r.capability.profileIdentity
    && r.profile.value.key == r.capability.profileKey
    && r.base.Some? && Names(r.base.value, r.capability.baseIdentity, r.capability.baseExport)
    && r.target.Some? && Names(r.target.value, r.capability.targetIdentity, r.capability.targetExport)
  }

  lemma {:induction false} FindProfileFinds(profiles: seq<Profile>, identity: string, key: string, i: nat)
    requires i < |profiles| && profiles[i].identity == identity && profiles[i].key == key
    ensures FindProfile(profiles, identity, key).Some?
  {
    if i > 0 { FindProfileFinds(profiles[1..], identity, key, i - 1); }
  }

  lemma {:induction false} FindProfileMatches(profiles: seq<Profile>, identity: string, key: string)
    ensures var p := FindProfile(profiles, identity, key);
      p.Some? ==> p.value in profiles && p.value.identity == identity && p.value.key == key
  {
    if profiles != [] { FindProfileMatches(profiles[1..], identity, key); }
  }

  lemma {:induction false} InterfaceFound(interfaces: seq<Interface>, identity: string, exportName: string)
    ensures Listed(interfaces, identity, exportName) <==> LastInterface(interfaces, identity, exportName).Some?
    ensures Listed(interfaces, identity, exportName) <==> FirstInterface(interfaces, identity, exportName).Some?
    ensures var l := LastInterface(interfaces, identity, exportName); l.Some? ==> Names(l.value, identity, exportName)
    ensures var f := FirstInterface(interfaces, identity, exportName); f.Some? ==> Names(f.value, identity, exportName)
  {
    if interfaces != [] {
      var last := |interfaces| - 1;
      InterfaceFound(interfaces[..last], identity, exportName);
      InterfaceFound(interfaces[1..], identity, exportName);
      if Listed(interfaces, identity, exportName) {
        var k :| 0 <= k < |interfaces| && Names(interfaces[k], identity, exportName);
        assert k < last ==> Names(interfaces[..last][k], identity, exportName);
        assert k > 0 ==> Names(interfaces[1..][k - 1], identity, exportName);
      }
      if Listed(interfaces[..last], identity, exportName) {
        var k :| 0 <= k < last && Names(interfaces[..last][k], identity, exportName);
        assert Names(interfaces[k], identity, exportName);
      }
      if Listed(interfaces[1..], identity, exportName) {
        var k :| 0 <= k < last && Names(interfaces[1..][k], identity, exportName);
        assert Names(interfaces[k + 1], identity, exportName);
      }
    }
  }

  lemma {:induction false} WrittenComesFrom<K, V>(entries: seq<(K, V)>, index: map<K, V>, key: K)
    requires key in Written(entries, index)
    ensures (key, Written(entries, index)[key]) in entries || (key in index && index[key] == Written(entries, index)[key])
  {
    if entries != [] {
      WrittenComesFrom(entries[1..], index[entries[0].0 := entries[0].1], key);
      assert entries[0] == (entries[0].0, entries[0].1);
    }
  }

  lemma JoinedUnique(a: string, b: string, c: string, d: string)
    requires Joined(a, b) == Joined(c, d)
    requires NUL !in a && NUL !in c
    ensures a == c && b == d
  {
    assert Joined(a, b) == a + [NUL] + b && Joined(c, d) == c + [NUL] + d;
    SplitAtTerminator(a, c, NUL, b, d);
  }

  ghost predicate IdentitiesPlain(m: FacetModule) {
    && (forall p :: p in m.profiles ==> NUL !in p.identity && ValidDigest(p.key))
    && (forall i :: i in m.interfaces ==> NUL !in i.identity)
  }

  function ProfileKeys(profiles: seq<Profile>): (keys: seq<string>)
    ensures "" !in keys
    ensures |keys| == |profiles| && forall i :: 0 <= i < |keys| ==> keys[i] == Joined(profiles[i].identity, profiles[i].key)
  {
    seq(|profiles|, i requires 0 <= i < |profiles| => Joined(profiles[i].identity, profiles[i].key))
  }

  // Strictly ordered profiles are found under their two names.
  lemma {:induction false} ProfileDetermined(profiles: seq<Profile>, k: nat)
    requires k < |profiles| && Distinct(ProfileKeys(profiles))
    ensures FindProfile(profiles, profiles[k].identity, profiles[k].key) == Some(profiles[k])
  {
    if k > 0 {
      assert ProfileKeys(profiles)[0] != ProfileKeys(profiles)[k];
      assert forall j :: 0 <= j < |profiles[1..]| ==> ProfileKeys(profiles[1..])[j] == ProfileKeys(profiles)[j + 1];
      ProfileDetermined(profiles[1..], k - 1);
    }
  }

  // The profile under the joined names of a capability's profile.
  lemma KeyedProfile(m: FacetModule, c: Capability) returns (k: nat)
    requires AcceptedCapability(m, c)
    ensures var key := Joined(c.profileIdentity, c.profileKey);
      && k < |m.profiles| && Joined(m.profiles[k].identity, m.profiles[k].key) == key
      && Written(JoinedProfiles(m.profiles), map[])[key] == m.profiles[k]
  {
    var profiles := Written(JoinedProfiles(m.profiles), map[]);
    var key := Joined(c.profileIdentity, c.profileKey);
    WrittenComesFrom(JoinedProfiles(m.profiles), map[], key);
    k :| 0 <= k < |m.profiles| && JoinedProfiles(m.profiles)[k] == (key, profiles[key]);
  }

  // What stands under the joined names has those names: the profile, and the base
  // in the profile or among the provider interfaces.
  ghost predicate KeepsNames(m: FacetModule, c: Capability)
    requires AcceptedCapability(m, c)
  {
    var p := Written(JoinedProfiles(m.profiles), map[])[Joined(c.profileIdentity, c.profileKey)];
    && p.identity == c.profileIdentity && p.key == c.profileKey
    && (Listed(p.interfaces, c.baseIdentity, c.baseExport) || Listed(m.interfaces, c.baseIdentity, c.baseExport))
  }

  lemma ProfileFound(m: FacetModule, c: Capability)
    requires AcceptedCapability(m, c) && StrictlySorted(Less, ProfileKeys(m.profiles))
    ensures var p := Written(JoinedProfiles(m.profiles), map[])[Joined(c.profileIdentity, c.profileKey)];
      FindProfile(m.profiles, c.profileIdentity, c.profileKey) ==
      if p.identity == c.profileIdentity && p.key == c.profileKey then Some(p) else None
  {
    var k := KeyedProfile(m, c);
    var found := FindProfile(m.profiles, c.profileIdentity, c.profileKey);
    StrictIsDistinct(ProfileKeys(m.profiles));
    FindProfileMatches(m.profiles, c.profileIdentity, c.profileKey);
    if found.Some? {
      var j :| 0 <= j < |m.profiles| && m.profiles[j] == found.value;
      assert ProfileKeys(m.profiles)[j] == ProfileKeys(m.profiles)[k];
      assert j == k;
    }
    ProfileDetermined(m.profiles, k);
  }

  // An accepted capability resolves exactly if its joined names lead to what has them.
  lemma CapabilityResolvesIffNamesKept(m: FacetModule, c: Capability)
    requires AcceptedFacetModule(m) && c in m.capabilities && AcceptedCapability(m, c)
    ensures ValidResolution(Resolution(m, c)) <==> KeepsNames(m, c)
  {
    assert StrictlySorted(Less, ProfileKeys(m.profiles));
    ProfileFound(m, c);
    var p := Written(JoinedProfiles(m.profiles), map[])[Joined(c.profileIdentity, c.profileKey)];
    InterfaceFound(p.interfaces, c.targetIdentity, c.targetExport);
    InterfaceFound(p.interfaces, c.baseIdentity, c.baseExport);
    InterfaceFound(m.interfaces, c.baseIdentity, c.baseExport);
  }

  // Identities without NUL are enough.
  lemma AcceptedCapabilityResolves(m: FacetModule, c: Capability)
    requires AcceptedFacetModule(m) && c in m.capabilities
    requires IdentitiesPlain(m) && NUL !in c.profileIdentity && NUL !in c.baseIdentity
    ensures ValidResolution(Resolution(m, c))
  {
    assert AcceptedCapabilities(m) && AcceptedCapability(m, c);
    var k := KeyedProfile(m, c);
    assert m.profiles[k] in m.profiles;
    JoinedUnique(m.profiles[k].identity, m.profiles[k].key, c.profileIdentity, c.profileKey);
    if Joined(c.baseIdentity, c.baseExport) in Written(JoinedInterfaces(m.interfaces), map[]) {
      ProviderBaseListed(m, c);
    }
    CapabilityResolvesIffNamesKept(m, c);
  }

  lemma ProviderBaseListed(m: FacetModule, c: Capability)
    requires IdentitiesPlain(m) && NUL !in c.baseIdentity
    requires Joined(c.baseIdentity, c.baseExport) in Written(JoinedInterfaces(m.interfaces), map[])
    ensures Listed(m.interfaces, c.baseIdentity, c.baseExport)
  {
    var entries := JoinedInterfaces(m.interfaces);
    var key := Joined(c.baseIdentity, c.baseExport);
    WrittenComesFrom(entries, map[], key);
    var k :| 0 <= k < |m.interfaces| && entries[k] == (key, Written(entries, map[])[key]);
    assert m.interfaces[k] in m.interfaces;
    JoinedUnique(m.interfaces[k].identity, m.interfaces[k].exportName, c.baseIdentity, c.baseExport);
    assert Names(m.interfaces[k], c.baseIdentity, c.baseExport);
  }

  // ---- Facet modules ----------------------------------------------------------

  type FacetKey = (string, string, string)

  function FacetKeys(facet: Facet): seq<FacetKey> {
    seq(|facet.capabilities|, i requires 0 <= i < |facet.capabilities| =>
      (facet.identity, facet.kind, facet.capabilities[i]))
  }

  function FacetOrderKeys(facets: seq<Facet>): (keys: seq<string>)
    ensures "" !in keys
  {
    seq(|facets|, i requires 0 <= i < |facets| => Joined(facets[i].identity, Joined(facets[i].kind, facets[i].exportName)))
  }

  function RepresentationNames(representations: seq<Representation>): (names: seq<string>)
    ensures |names| == |representations| && forall i :: 0 <= i < |names| ==> names[i] == representations[i].exportName
  {
    seq(|representations|, i requires 0 <= i < |representations| => representations[i].exportName)
  }

  function InterfaceNames(interfaces: seq<Interface>): (names: seq<string>)
    ensures |names| == |interfaces| && forall i :: 0 <= i < |names| ==> names[i] == interfaces[i].identity
  {
    seq(|interfaces|, i requires 0 <= i < |interfaces| => interfaces[i].identity)
  }

  function MethodNames(methods: seq<RepresentationMethod>): (names: seq<string>)
    ensures |names| == |methods| && forall i :: 0 <= i < |names| ==> names[i] == methods[i].identity
  {
    seq(|methods|, i requires 0 <= i < |methods| => methods[i].identity)
  }

  // The one boundary effect of a profile, if its transported effects are valid.
  function BoundaryEffect(effects: seq<string>): Option<string> {
    if effects != [] && forall e :: e in effects ==> e == "sync" then Some("sync") else None
  }

  function BoundaryKeys(profiles: seq<Profile>): (keys: seq<string>)
    ensures |keys| == |profiles| && forall i :: 0 <= i < |keys| ==> keys[i] == Joined(profiles[i].identity, "sync")
  {
    seq(|profiles|, i requires 0 <= i < |profiles| => Joined(profiles[i].identity, "sync"))
  }

  ghost predicate AcceptedProfiles(profiles: seq<Profile>) {
    && (forall p :: p in profiles ==>
          p.identity != "" && ValidDigest(p.key) && p.exportName != "" && BoundaryEffect(p.effects).Some?)
    && StrictlySorted(Less, ProfileKeys(profiles))
  }

  ghost predicate AcceptedRepresentation(r: Representation) {
    r.exportName != "" && r.methods != [] && (forall m :: m in r.methods ==> m.identity != "") &&
    StrictlySorted(Less, MethodNames(r.methods))
  }

  ghost predicate AcceptedRepresentations(representations: seq<Representation>) {
    && (forall r :: r in representations ==> AcceptedRepresentation(r))
    && StrictlySorted(Less, RepresentationNames(representations))
  }

  ghost predicate AcceptedInterfaces(interfaces: seq<Interface>) {
    && (forall i :: i in interfaces ==> i.identity != "" && i.exportName != "")
    && StrictlySorted(Less, InterfaceNames(interfaces))
  }

  ghost predicate AcceptedCapabilities(m: FacetModule) {
    && (forall c :: c in m.capabilities ==> AcceptedCapability(m, c))
    && StrictlySorted(Less, CapabilityKeys(m.capabilities))
  }

  // Facets name existing representations, and every representation is named.
  ghost predicate AcceptedReferences(facets: seq<Facet>, names: seq<string>) {
    && (forall f :: f in facets && f.representationExport != "" ==> f.representationExport in names)
    && (forall n :: n in names ==> exists f :: f in facets && f.representationExport == n)
  }

  ghost predicate AcceptedFacetModule(m: FacetModule) {
    && m.specifier != ""
    && AcceptedRepresentations(m.representations)
    && AcceptedInterfaces(m.interfaces)
    && AcceptedProfiles(m.profiles) && AcceptedProfiles(m.statefuls)
    && ExclusivelyOwned(Claims(m))
    && AcceptedCapabilities(m)
    && StrictlySorted(Less, FacetOrderKeys(m.facets))
    && AcceptedReferences(m.facets, RepresentationNames(m.representations))
  }

  method ValidateProfiles(profiles: seq<Profile>) returns (ok: bool)
    ensures ok <==> AcceptedProfiles(profiles)
  {
    for i := 0 to |profiles|
      invariant forall j :: 0 <= j < i ==>
        profiles[j].identity != "" && ValidDigest(profiles[j].key) && profiles[j].exportName != "" &&
        BoundaryEffect(profiles[j].effects).Some?
    {
      var p := profiles[i];
      assert p in profiles;
      if p.identity == "" || !ValidDigest(p.key) || p.exportName == "" || BoundaryEffect(p.effects).None? {
        return false;
      }
    }
    ok := StrictlyOrdered(ProfileKeys(profiles));
  }

  method ValidateRepresentations(representations: seq<Representation>) returns (ok: bool)
    ensures ok <==> AcceptedRepresentations(representations)
  {
    for i := 0 to |representations|
      invariant forall j :: 0 <= j < i ==> AcceptedRepresentation(representations[j])
    {
      var r := representations[i];
      assert r in representations;
      if r.exportName == "" || r.methods == [] || exists m :: m in r.methods && m.identity == "" {
        return false;
      }
      var names := MethodNames(r.methods);
      forall k | 0 <= k < |names| ensures names[k] != "" { assert r.methods[k] in r.methods; }
      var ordered := StrictlyOrdered(names);
      if !ordered {
        return false;
      }
    }
    assert forall j :: 0 <= j < |representations| ==> representations[j] in representations;
    ok := StrictlyOrdered(RepresentationNames(representations));
  }

  method ValidateInterfaces(interfaces: seq<Interface>) returns (ok: bool)
    ensures ok <==> AcceptedInterfaces(interfaces)
  {
    for k := 0 to |interfaces|
      invariant forall j :: 0 <= j < k ==> interfaces[j].identity != "" && interfaces[j].exportName != ""
    {
      assert interfaces[k] in interfaces;
      if interfaces[k].identity == "" || interfaces[k].exportName == "" {
        return false;
      }
    }
    ok := StrictlyOrdered(InterfaceNames(interfaces));
  }

  method ValidateFacetModule(m: FacetModule) returns (ok: bool)
    ensures ok <==> AcceptedFacetModule(m)
  {
    if m.specifier == "" {
      return false;
    }
    ok := ValidateRepresentations(m.representations);
    if !ok { return; }
    ok := ValidateInterfaces(m.interfaces);
    if !ok { return; }
    ok := ValidateProfiles(m.profiles);
    if !ok { return; }
    ok := ValidateProfiles(m.statefuls);
    if !ok { return; }
    ok := ClaimExports(Claims(m));
    if !ok { return; }
    ok := ValidateCapabilities(m);
    if !ok { return; }
    ok := StrictlyOrdered(FacetOrderKeys(m.facets));
    if !ok { return; }
    NamesNotEmpty(m.representations);
    ok := ValidateReferences(m.facets, RepresentationNames(m.representations));
  }

  lemma NamesNotEmpty(representations: seq<Representation>)
    requires AcceptedRepresentations(representations)
    ensures "" !in RepresentationNames(representations)
  {
    forall k | 0 <= k < |representations| ensures RepresentationNames(representations)[k] != "" {
      assert AcceptedRepresentation(representations[k]);
    }
  }

  method ValidateReferences(facets: seq<Facet>, names: seq<string>) returns (ok: bool)
    requires "" !in names
    ensures ok <==> AcceptedReferences(facets, names)
  {
    var referenced: set<string> := {};
    for i := 0 to |facets|
      invariant forall j :: 0 <= j < i && facets[j].representationExport != "" ==>
        facets[j].representationExport in names
      invariant forall r :: r in referenced ==> exists j :: 0 <= j < i && facets[j].representationExport == r
      invariant forall j :: 0 <= j < i && facets[j].representationExport != "" ==>
        facets[j].representationExport in referenced
    {
      var name := facets[i].representationExport;
      assert facets[i] in facets;
      if name != "" {
        if name !in names {
          return false;
        }
        referenced := referenced + {name};
      }
    }
    ok := forall n :: n in names ==> n in referenced;
    forall n | n in names
      ensures n in referenced <==> exists f :: f in facets && f.representationExport == n
    {
      if n in referenced {
        var j :| 0 <= j < |facets| && facets[j].representationExport == n;
        assert facets[j] in facets;
      }
    }
  }

  // ---- Whole documents ----------------------------------------------------------

  function BindingKeys(m: Module): (keys: seq<string>)
    ensures |keys| == |m.bindings| && forall i :: 0 <= i < |keys| ==> keys[i] == m.bindings[i].identity
  {
    seq(|m.bindings|, i requires 0 <= i < |m.bindings| => m.bindings[i].identity)
  }

  function ImportPaths(modules: seq<Module>): (paths: seq<string>) {
    seq(|modules|, i requires 0 <= i < |modules| => modules[i].importPath)
  }

  function Specifiers(d: Document): seq<string> {
    seq(|d.modules|, i requires 0 <= i < |d.modules| => d.modules[i].specifier)
      + FacetSpecifiers(d.facetModules)
  }

  function FacetSpecifiers(modules: seq<FacetModule>): (names: seq<string>)
    ensures |names| == |modules| && forall i :: 0 <= i < |names| ==> names[i] == modules[i].specifier
  {
    seq(|modules|, i requires 0 <= i < |modules| => modules[i].specifier)
  }

  function ModuleFacetKeys(m: FacetModule): seq<FacetKey> {
    Flatten(m.facets, FacetKeys)
  }

  ghost predicate AcceptedModule(m: Module) {
    m.importPath != "" && StrictlySorted(Less, BindingKeys(m)) && "" !in BindingKeys(m)
  }

  ghost predicate AcceptedModules(modules: seq<Module>) {
    && modules != [] && (forall m :: m in modules ==> AcceptedModule(m))
    && StrictlySorted(Less, ImportPaths(modules))
    && Distinct(Flatten(modules, BindingKeys))
  }

  ghost predicate AcceptedFacetModules(modules: seq<FacetModule>) {
    && (forall m :: m in modules ==> AcceptedFacetModule(m))
    && StrictlySorted(Less, FacetSpecifiers(modules))
    && Distinct(Flatten(modules, (m: FacetModule) => InterfaceNames(m.interfaces)))
    && Distinct(Flatten(modules, (m: FacetModule) => BoundaryKeys(m.profiles)))
    && Distinct(Flatten(modules, (m: FacetModule) => BoundaryKeys(m.statefuls)))
    && Distinct(Flatten(modules, ModuleFacetKeys))
  }

  ghost predicate Accepted(d: Document) {
    AcceptedModules(d.modules) && Distinct(Specifiers(d)) && AcceptedFacetModules(d.facetModules)
  }

  method ValidateModules(modules: seq<Module>) returns (ok: bool)
    ensures ok <==> AcceptedModules(modules)
  {
    if modules == [] {
      return false;
    }
    for i := 0 to |modules|
      invariant forall j :: 0 <= j < i ==> AcceptedModule(modules[j])
    {
      assert modules[i] in modules;
      if modules[i].importPath == "" || "" in BindingKeys(modules[i]) {
        return false;
      }
      var ordered := StrictlyOrdered(BindingKeys(modules[i]));
      if !ordered { return false; }
    }
    ok := StrictlyOrdered(ImportPaths(modules));
    if !ok { return; }
    ok := ClaimAcross(modules, BindingKeys);
  }

  method ValidateFacetModules(modules: seq<FacetModule>) returns (ok: bool)
    ensures ok <==> AcceptedFacetModules(modules)
  {
    for i := 0 to |modules|
      invariant forall j :: 0 <= j < i ==> AcceptedFacetModule(modules[j])
    {
      assert modules[i] in modules;
      var accepted := ValidateFacetModule(modules[i]);
      if !accepted { return false; }
    }
    SpecifiersNotEmpty(modules);
    ok := StrictlyOrdered(FacetSpecifiers(modules));
    if !ok { return; }
    ok := ClaimAcross(modules, (m: FacetModule) => InterfaceNames(m.interfaces));
    if !ok { return; }
    ok := ClaimAcross(modules, (m: FacetModule) => BoundaryKeys(m.profiles));
    if !ok { return; }
    ok := ClaimAcross(modules, (m: FacetModule) => BoundaryKeys(m.statefuls));
    if !ok { return; }
    ok := ClaimAcross(modules, ModuleFacetKeys);
  }

  lemma SpecifiersNotEmpty(modules: seq<FacetModule>)
    requires forall j :: 0 <= j < |modules| ==> AcceptedFacetModule(modules[j])
    ensures "" !in FacetSpecifiers(modules)
  {
    forall j | 0 <= j < |modules| ensures FacetSpecifiers(modules)[j] != "" {
      assert AcceptedFacetModule(modules[j]);
    }
  }

  method ValidateDocument(d: Document) returns (ok: bool)
    ensures ok <==> Accepted(d)
  {
    ok := ValidateModules(d.modules);
    if !ok { return; }
    var seen;
    ok, seen := Claim({}, Specifiers(d));
    if !ok { return; }
    ok := ValidateFacetModules(d.facetModules);
  }

  // ---- The indexes of a parsed manifest -------------------------------------------

  datatype BoundFacet = BoundFacet(specifier: string, facet: Facet, representation: Option<Representation>)

  // The representation a facet names, searched in its module.
  function FindRepresentation(representations: seq<Representation>, name: string): Option<Representation> {
    if representations == [] then None
    else if representations[0].exportName == name then Some(representations[0])
    else FindRepresentation(representations[1..], name)
  }

  function NewFacet(m: FacetModule, facet: Facet): BoundFacet {
    BoundFacet(m.specifier, facet,
      if facet.representationExport == "" then None
      else FindRepresentation(m.representations, facet.representationExport))
  }

  function BindingEntries(m: Module): seq<(string, (string, Binding))> {
    MapSeq((b: Binding) => (b.identity, (m.specifier, b)), m.bindings)
  }

  function RepresentationEntries(m: FacetModule): seq<((string, string), Representation)> {
    MapSeq((r: Representation) => ((m.specifier, r.exportName), r), m.representations)
  }

  function InterfaceEntries(m: FacetModule): seq<(string, (string, Interface))> {
    MapSeq((i: Interface) => (i.identity, (m.specifier, i)), m.interfaces)
  }

  function ProfileEntries(m: FacetModule): seq<((string, string), (string, Profile))> {
    MapSeq((p: Profile) => ((p.identity, p.key), (m.specifier, p)), m.profiles)
  }

  function StatefulEntries(m: FacetModule): seq<((string, string), (string, Profile))> {
    MapSeq((p: Profile) => ((p.identity, p.key), (m.specifier, p)), m.statefuls)
  }

  function FacetEntries(m: FacetModule): seq<(FacetKey, BoundFacet)> {
    Flatten(m.facets, (f: Facet) => MapSeq((c: string) => ((f.identity, f.kind, c), NewFacet(m, f)), f.capabilities))
  }

  function CapabilityEntries(m: FacetModule): seq<(string, Resolved)> {
    MapSeq((c: Capability) => (c.baseIdentity, Resolution(m, c)), m.capabilities)
  }

  datatype Manifest = Manifest(
    bindings: map<string, (string, Binding)>,
    representations: map<(string, string), Representation>,
    interfaces: map<string, (string, Interface)>,
    profiles: map<(string, string), (string, Profile)>,
    statefuls: map<(string, string), (string, Profile)>,
    facets: map<FacetKey, BoundFacet>,
    capabilities: map<string, seq<Resolved>>)

  // Every index answers what a scan of all modules would answer.
  ghost predicate AnswersAsScan(d: Document, m: Manifest) {
    && (forall k :: Lookup(m.bindings, k) == Scan(Flatten(d.modules, BindingEntries), k))
    && (forall k :: Lookup(m.representations, k) == Scan(Flatten(d.facetModules, RepresentationEntries), k))
    && (forall k :: Lookup(m.interfaces, k) == Scan(Flatten(d.facetModules, InterfaceEntries), k))
    && (forall k :: Lookup(m.profiles, k) == Scan(Flatten(d.facetModules, ProfileEntries), k))
    && (forall k :: Lookup(m.statefuls, k) == Scan(Flatten(d.facetModules, StatefulEntries), k))
    && (forall k :: Lookup(m.facets, k) == Scan(Flatten(d.facetModules, FacetEntries), k))
    && (forall k :: Grouped(m.capabilities, k) == Select(Flatten(d.facetModules, CapabilityEntries), k))
  }

  // Parse succeeds exactly on accepted documents.
  method Parse(d: Document) returns (r: Option<Manifest>)
    ensures r.Some? <==> Accepted(d)
    ensures r.Some? ==> AnswersAsScan(d, r.value)
  {
    var ok := ValidateDocument(d);
    if !ok {
      return None;
    }
    var bindings := BuildIndex(d.modules, BindingEntries);
    var representations := BuildIndex(d.facetModules, RepresentationEntries);
    var interfaces := BuildIndex(d.facetModules, InterfaceEntries);
    var profiles := BuildIndex(d.facetModules, ProfileEntries);
    var statefuls := BuildIndex(d.facetModules, StatefulEntries);
    var facets := BuildIndex(d.facetModules, FacetEntries);
    var capabilities := Group(Flatten(d.facetModules, CapabilityEntries));
    BindingKeysDistinct(d);
    RepresentationKeysDistinct(d);
    InterfaceKeysDistinct(d);
    ProfileKeysDistinct(d);
    FacetKeysDistinct(d);
    IndexIsScan(Flatten(d.modules, BindingEntries));
    IndexIsScan(Flatten(d.facetModules, RepresentationEntries));
    IndexIsScan(Flatten(d.facetModules, InterfaceEntries));
    IndexIsScan(Flatten(d.facetModules, ProfileEntries));
    IndexIsScan(Flatten(d.facetModules, StatefulEntries));
    IndexIsScan(Flatten(d.facetModules, FacetEntries));
    return Some(Manifest(bindings, representations, interfaces, profiles, statefuls, facets, capabilities));
  }

  lemma IndexIsScan<K(!new), V>(entries: seq<(K, V)>)
    requires Distinct(Keys(entries))
    ensures forall k :: Lookup(Written(entries, map[]), k) == Scan(entries, k)
  {
    forall k ensures Lookup(Written(entries, map[]), k) == Scan(entries, k) {
      WrittenIsScan(entries, map[], k);
    }
  }

  lemma BindingKeysDistinct(d: Document)
    requires Accepted(d)
    ensures Distinct(Keys(Flatten(d.modules, BindingEntries)))
  {
    var tag := (e: (string, (string, Binding))) => e.0;
    FlattenMapped(d.modules, BindingEntries, tag, BindingKeys);
    DistinctByTag(Flatten(d.modules, BindingEntries), tag);
  }

  lemma InterfaceKeysDistinct(d: Document)
    requires Accepted(d)
    ensures Distinct(Keys(Flatten(d.facetModules, InterfaceEntries)))
  {
    var tag := (e: (string, (string, Interface))) => e.0;
    FlattenMapped(d.facetModules, InterfaceEntries, tag, (m: FacetModule) => InterfaceNames(m.interfaces));
    DistinctByTag(Flatten(d.facetModules, InterfaceEntries), tag);
  }

  // One profile per source identity, hence per identity and key.
  lemma ProfileKeysDistinct(d: Document)
    requires Accepted(d)
    ensures Distinct(Keys(Flatten(d.facetModules, ProfileEntries)))
    ensures Distinct(Keys(Flatten(d.facetModules, StatefulEntries)))
  {
    var tag := (e: ((string, string), (string, Profile))) => Joined(e.0.0, "sync");
    FlattenMapped(d.facetModules, ProfileEntries, tag, (m: FacetModule) => BoundaryKeys(m.profiles));
    DistinctByTag(Flatten(d.facetModules, ProfileEntries), tag);
    FlattenMapped(d.facetModules, StatefulEntries, tag, (m: FacetModule) => BoundaryKeys(m.statefuls));
    DistinctByTag(Flatten(d.facetModules, StatefulEntries), tag);
  }

  lemma FacetKeysDistinct(d: Document)
    requires Accepted(d)
    ensures Distinct(Keys(Flatten(d.facetModules, FacetEntries)))
  {
    var tag := (e: (FacetKey, BoundFacet)) => e.0;
    forall m | m in d.facetModules ensures ModuleFacetKeys(m) == MapSeq(tag, FacetEntries(m)) {
      FlattenMapped(m.facets,
        (f: Facet) => MapSeq((c: string) => ((f.identity, f.kind, c), NewFacet(m, f)), f.capabilities), tag, FacetKeys);
    }
    FlattenMapped(d.facetModules, FacetEntries, tag, ModuleFacetKeys);
    DistinctByTag(Flatten(d.facetModules, FacetEntries), tag);
  }

  lemma RepresentationKeysDistinct(d: Document)
    requires Accepted(d)
    ensures Distinct(Keys(Flatten(d.facetModules, RepresentationEntries)))
  {
    StrictIsDistinct(FacetSpecifiers(d.facetModules));
    assert forall i :: 0 <= i < |d.facetModules| ==> d.facetModules[i] in d.facetModules;
    forall m | m in d.facetModules ensures Distinct(RepresentationNames(m.representations)) {
      StrictIsDistinct(RepresentationNames(m.representations));
    }
    RepresentationsDistinct(d.facetModules);
  }

  lemma KeysConcat<K, V>(a: seq<(K, V)>, b: seq<(K, V)>)
    ensures Keys(a + b) == Keys(a) + Keys(b)
  {
  }

  lemma {:induction false} RepresentationsDistinct(modules: seq<FacetModule>)
    requires Distinct(FacetSpecifiers(modules))
    requires forall m :: m in modules ==> Distinct(RepresentationNames(m.representations))
    ensures Distinct(Keys(Flatten(modules, RepresentationEntries)))
    ensures forall k :: k in Keys(Flatten(modules, RepresentationEntries)) ==> k.0 in FacetSpecifiers(modules)
  {
    if modules != [] {
      var n := |modules| - 1;
      var init, m := modules[..n], modules[n];
      assert modules == init + [m] && m in modules;
      assert forall i :: 0 <= i < n ==> FacetSpecifiers(init)[i] == FacetSpecifiers(modules)[i];
      RepresentationsDistinct(init);
      FlattenAppend(init, m, RepresentationEntries);
      var a, b := Keys(Flatten(init, RepresentationEntries)), Keys(RepresentationEntries(m));
      KeysConcat(Flatten(init, RepresentationEntries), RepresentationEntries(m));
      forall i, j | 0 <= i < j < |b| ensures b[i] != b[j] {
        assert RepresentationNames(m.representations)[i] != RepresentationNames(m.representations)[j];
      }
      forall k | k in b ensures k !in Elements(a) && k.0 == m.specifier {
        assert FacetSpecifiers(modules)[n] == m.specifier;
        assert forall i :: 0 <= i < n ==> FacetSpecifiers(init)[i] != m.specifier;
      }
      DistinctConcat(a, b);
      assert m.specifier in FacetSpecifiers(modules);
    }
  }

  ghost predicate PlainDocument(d: Document) {
    forall m :: m in d.facetModules ==>
      IdentitiesPlain(m) &&
      forall c :: c in m.capabilities ==> NUL !in c.profileIdentity && NUL !in c.baseIdentity
  }

  // Every capability an index of an accepted document returns is resolved.
  lemma IndexedCapabilitiesAreValid(d: Document, m: Manifest, base: string, r: Resolved)
    requires Accepted(d) && PlainDocument(d) && AnswersAsScan(d, m)
    requires base in m.capabilities && r in m.capabilities[base]
    ensures ValidResolution(r) && r.capability.baseIdentity == base
  {
    assert r in Grouped(m.capabilities, base);
    var owner, c := OwnerOf(d.facetModules, base, r);
    OwnedCapabilityResolves(d, owner, c);
  }

  lemma OwnerOf(modules: seq<FacetModule>, base: string, r: Resolved) returns (owner: FacetModule, c: Capability)
    requires r in Select(Flatten(modules, CapabilityEntries), base)
    ensures owner in modules && c in owner.capabilities && r == Resolution(owner, c) && c.baseIdentity == base
  {
    SelectMember(Flatten(modules, CapabilityEntries), base, r);
    FlattenMember(modules, CapabilityEntries, (base, r));
    owner :| owner in modules && (base, r) in CapabilityEntries(owner);
    var k :| 0 <= k < |owner.capabilities| && CapabilityEntries(owner)[k] == (base, r);
    c := owner.capabilities[k];
  }

  lemma OwnedCapabilityResolves(d: Document, owner: FacetModule, c: Capability)
    requires Accepted(d) && PlainDocument(d) && owner in d.facetModules && c in owner.capabilities
    ensures ValidResolution(Resolution(owner, c)) && Resolution(owner, c).capability == c
  {
    assert AcceptedFacetModule(owner);
    AcceptedCapabilityResolves(owner, c);
  }

  // ---- An unresolved capability in an accepted document ----------------------------------

  // A profile whose identity holds a NUL, and a capability that puts the boundary
  // between identity and key elsewhere. Key and evidence are whatever they have to be.
  function Shifted(specifier: string, key: string, b: string, t: string, evidence: string): FacetModule {
    var base, target := Interface("b", "B", b), Interface("t", "T", t);
    FacetModule(specifier, [], [],
      [Capability(GeneratedBridge, "b", "B", "x", Joined("y", key), "t", "T", "V")],
      [Profile("x" + ([NUL] + "y"), key, "P", [base, target], ["sync"], evidence)], [], [])
  }

  lemma ShiftedClaims(specifier: string, key: string, b: string, t: string, evidence: string)
    ensures ExclusivelyOwned(Claims(Shifted(specifier, key, b, t, evidence)))
  {
    var m := Shifted(specifier, key, b, t, evidence);
    var p, c := m.profiles[0], m.capabilities[0];
    var f, g := (p: Profile) => ProfileClaims(p, true), (p: Profile) => ProfileClaims(p, false);
    var base, target := p.interfaces[0], p.interfaces[1];
    assert p.interfaces[1..] == [target] && [target][1..] == [];
    assert InterfaceClaims([target], false) == [("T", OfInterface(target))] + [];
    assert InterfaceClaims(p.interfaces, false) == [("B", OfInterface(base))] + ([("T", OfInterface(target))] + []);
    assert m.profiles[1..] == [] && m.capabilities[1..] == [];
    assert Flatten(m.profiles, f) == f(p) + [];
    assert CapabilityClaims(m.capabilities) == [("V", Alone)] + [];
    assert Flatten(m.statefuls, g) == [] && Flatten(m.facets, FacetClaims) == [];
    assert Claims(m) == [("B", OfInterface(base)), ("T", OfInterface(target)), ("P", OfCallable((p.identity, p.evidence))), ("V", Alone)];
  }

  lemma ShiftedCapability(specifier: string, key: string, b: string, t: string, evidence: string)
    ensures var m := Shifted(specifier, key, b, t, evidence); var c := m.capabilities[0];
      AcceptedCapability(m, c) && !KeepsNames(m, c)
  {
    var m := Shifted(specifier, key, b, t, evidence);
    var p, c := m.profiles[0], m.capabilities[0];
    assert Joined(p.identity, p.key) == Joined(c.profileIdentity, c.profileKey);
    assert JoinedProfiles(m.profiles) == [(Joined(p.identity, p.key), p)];
    assert JoinedProfiles(m.profiles)[1..] == [];
    assert JoinedInterfaces(m.interfaces) == [];
    assert Names(p.interfaces[0], "b", "B") && Names(p.interfaces[1], "t", "T");
    assert Listed(p.interfaces, "b", "B") && Listed(p.interfaces, "t", "T");
    assert |p.identity| == 3 && |c.profileIdentity| == 1;
  }

  lemma ShiftedIsAccepted(specifier: string, key: string, b: string, t: string, evidence: string)
    requires specifier != "" && ValidDigest(key)
    ensures AcceptedFacetModule(Shifted(specifier, key, b, t, evidence))
  {
    ShiftedClaims(specifier, key, b, t, evidence);
    ShiftedCapability(specifier, key, b, t, evidence);
  }

  // Interfaces and facets it has none, and one profile.
  lemma AloneIsAccepted(m: FacetModule)
    requires AcceptedFacetModule(m) && m.interfaces == [] && m.statefuls == [] && m.facets == [] && |m.profiles| == 1
    ensures AcceptedFacetModules([m])
  {
    assert [m][1..] == [];
    var interfaces := (m: FacetModule) => InterfaceNames(m.interfaces);
    var profiles := (m: FacetModule) => BoundaryKeys(m.profiles);
    var statefuls := (m: FacetModule) => BoundaryKeys(m.statefuls);
    assert Flatten([m], interfaces) == interfaces(m) + [];
    assert Flatten([m], profiles) == profiles(m) + [];
    assert Flatten([m], statefuls) == statefuls(m) + [];
    assert Flatten([m], ModuleFacetKeys) == ModuleFacetKeys(m) + [];
  }

  lemma EmptyModuleIsAccepted(n: Module)
    requires n.importPath != "" && n.bindings == []
    ensures AcceptedModules([n])
  {
    assert BindingKeys(n) == [] && [n][1..] == [];
    assert Flatten([n], BindingKeys) == [] + [];
  }

  // A NUL moves the boundary between the two names: a whole document is accepted
  // although a capability in it stays unresolved.
  lemma NulLeavesCapabilityUnresolved(importPath: string, specifier: string, facetSpecifier: string,
    key: string, b: string, t: string, evidence: string)
    requires importPath != "" && facetSpecifier != "" && specifier != facetSpecifier && ValidDigest(key)
    ensures var m := Shifted(facetSpecifier, key, b, t, evidence);
      && Accepted(Document([Module(importPath, specifier, [])], [m]))
      && m.capabilities != [] && !ValidResolution(Resolution(m, m.capabilities[0]))
  {
    var n := Module(importPath, specifier, []);
    assert Accepted(Document([n], [Shifted(facetSpecifier, key, b, t, evidence)])) by {
      ShiftedIsAccepted(facetSpecifier, key, b, t, evidence);
      EmptyModuleIsAccepted(n);
      AloneIsAccepted(Shifted(facetSpecifier, key, b, t, evidence));
      assert Specifiers(Document([n], [Shifted(facetSpecifier, key, b, t, evidence)])) == [specifier, facetSpecifier];
    }
    ShiftedUnresolved(facetSpecifier, key, b, t, evidence);
  }

  lemma ShiftedUnresolved(specifier: string, key: string, b: string, t: string, evidence: string)
    requires specifier != "" && ValidDigest(key)
    ensures var m := Shifted(specifier, key, b, t, evidence); !ValidResolution(Resolution(m, m.capabilities[0]))
  {
    var m := Shifted(specifier, key, b, t, evidence);
    ShiftedIsAccepted(specifier, key, b, t, evidence);
    ShiftedCapability(specifier, key, b, t, evidence);
    CapabilityResolvesIffNamesKept(m, m.capabilities[0]);
  }

  // A facet that names a representation is bound to it.
  lemma FacetResolves(m: FacetModule, f: Facet)
    requires AcceptedFacetModule(m) && f in m.facets && f.representationExport != ""
    ensures NewFacet(m, f).representation.Some?
    ensures NewFacet(m, f).representation.value.exportName == f.representationExport
    ensures NewFacet(m, f).representation.value in m.representations
  {
    var k :| 0 <= k < |m.representations| && RepresentationNames(m.representations)[k] == f.representationExport;
    RepresentationFound(m.representations, f.representationExport, k);
  }

  lemma {:induction false} RepresentationFound(representations: seq<Representation>, name: string, k: nat)
    requires k < |representations| && representations[k].exportName == name
    ensures var r := FindRepresentation(representations, name);
      r.Some? && r.value in representations && r.value.exportName == name
  {
    if representations[0].exportName != name {
      RepresentationFound(representations[1..], name, k - 1);
    }
  }

  // Claims of one export, one here and one there, are of one shareable target.
  ghost predicate Apart(a: seq<(string, Owner)>, b: seq<(string, Owner)>) {
    forall x, y :: x in a && y in b && x.0 == y.0 ==> SameTarget(x.1, y.1)
  }

  lemma ExclusiveSplits(a: seq<(string, Owner)>, b: seq<(string, Owner)>)
    requires ExclusivelyOwned(a + b)
    ensures ExclusivelyOwned(a) && Apart(a, b)
    ensures ExclusivelyOwned(b)
  {
    var s := a + b;
    forall i, j | 0 <= i < j < |a| && a[i].0 == a[j].0 ensures SameTarget(a[i].1, a[j].1) {
      assert s[i] == a[i] && s[j] == a[j];
    }
    forall i, j | 0 <= i < j < |b| && b[i].0 == b[j].0 ensures SameTarget(b[i].1, b[j].1) {
      assert s[|a| + i] == b[i] && s[|a| + j] == b[j];
    }
    forall x, y | x in a && y in b && x.0 == y.0 ensures SameTarget(x.1, y.1) {
      var i :| 0 <= i < |a| && a[i] == x;
      var j :| 0 <= j < |b| && b[j] == y;
      assert s[i] == x && s[|a| + j] == y;
    }
  }

  lemma {:induction false} RepresentationClaimed(representations: seq<Representation>, r: Representation)
    requires r in representations
    ensures (r.exportName, Alone) in RepresentationClaims(representations)
  {
    if r != representations[0] {
      RepresentationClaimed(representations[1..], r);
    }
  }

  lemma {:induction false} InterfaceClaimed(interfaces: seq<Interface>, i: Interface, bindings: bool)
    requires i in interfaces
    ensures (i.exportName, if bindings then OfBinding(i) else OfInterface(i)) in InterfaceClaims(interfaces, bindings)
  {
    if i != interfaces[0] {
      InterfaceClaimed(interfaces[1..], i, bindings);
    }
  }

  lemma {:induction false} CapabilityClaimed(capabilities: seq<Capability>, c: Capability)
    requires c in capabilities
    ensures (c.viewExport, Alone) in CapabilityClaims(capabilities)
  {
    if c != capabilities[0] {
      CapabilityClaimed(capabilities[1..], c);
    }
  }

  function AllProfileClaims(profiles: seq<Profile>, callable: bool): seq<(string, Owner)> {
    Flatten(profiles, (p: Profile) => ProfileClaims(p, callable))
  }

  lemma ProfileClaimed(profiles: seq<Profile>, p: Profile, callable: bool)
    requires p in profiles
    ensures forall x :: x in ProfileClaims(p, callable) ==> x in AllProfileClaims(profiles, callable)
    ensures var target := (p.identity, p.evidence);
      (p.exportName, if callable then OfCallable(target) else OfStateful(target)) in AllProfileClaims(profiles, callable)
  {
    var f := (p: Profile) => ProfileClaims(p, callable);
    forall x | x in ProfileClaims(p, callable) ensures x in AllProfileClaims(profiles, callable) {
      assert x in f(p);
      FlattenMember(profiles, f, x);
    }
    var own := (p.exportName, if callable then OfCallable((p.identity, p.evidence)) else OfStateful((p.identity, p.evidence)));
    var c := ProfileClaims(p, callable);
    assert c[|c| - 1] == own;
  }

  // The claims of a module, part by part.
  lemma PartsAreApart(m: FacetModule)
    requires AcceptedFacetModule(m)
    ensures var r, i := RepresentationClaims(m.representations), InterfaceClaims(m.interfaces, true);
      var p, s := AllProfileClaims(m.profiles, true), AllProfileClaims(m.statefuls, false);
      Apart(r, i) && Apart(r + i, p) && Apart(r + i + p, s) && Apart(r + i + p + s, CapabilityClaims(m.capabilities))
      && ExclusivelyOwned(p) && ExclusivelyOwned(s)
  {
    var r, i := RepresentationClaims(m.representations), InterfaceClaims(m.interfaces, true);
    var p, s := AllProfileClaims(m.profiles, true), AllProfileClaims(m.statefuls, false);
    var c, f := CapabilityClaims(m.capabilities), Flatten(m.facets, FacetClaims);
    ExclusiveSplits(r + i + p + s + c, f);
    ExclusiveSplits(r + i + p + s, c);
    ExclusiveSplits(r + i + p, s);
    ExclusiveSplits(r + i, p);
    ExclusiveSplits(r, i);
  }

  // In an accepted module the view of a capability is the export of nothing else.
  lemma ViewsAreExclusive(m: FacetModule, c: Capability)
    requires AcceptedFacetModule(m) && c in m.capabilities
    ensures forall r :: r in m.representations ==> r.exportName != c.viewExport
    ensures forall i :: i in m.interfaces ==> i.exportName != c.viewExport
    ensures forall p :: p in m.profiles || p in m.statefuls ==> p.exportName != c.viewExport
  {
    PartsAreApart(m);
    CapabilityClaimed(m.capabilities, c);
    forall r | r in m.representations ensures r.exportName != c.viewExport {
      RepresentationClaimed(m.representations, r);
    }
    forall i | i in m.interfaces ensures i.exportName != c.viewExport {
      InterfaceClaimed(m.interfaces, i, true);
    }
    forall p | p in m.profiles || p in m.statefuls ensures p.exportName != c.viewExport {
      ViewIsNoProfile(m, c, p);
    }
  }

  lemma ViewIsNoProfile(m: FacetModule, c: Capability, p: Profile)
    requires AcceptedFacetModule(m) && c in m.capabilities && (p in m.profiles || p in m.statefuls)
    ensures p.exportName != c.viewExport
  {
    PartsAreApart(m);
    CapabilityClaimed(m.capabilities, c);
    if p in m.profiles {
      ProfileClaimed(m.profiles, p, true);
    } else {
      ProfileClaimed(m.statefuls, p, false);
    }
  }

  lemma ClaimsAgree(claims: seq<(string, Owner)>, x: (string, Owner), y: (string, Owner))
    requires ExclusivelyOwned(claims) && x in claims && y in claims && x.0 == y.0 && x != y
    ensures SameTarget(x.1, y.1) || SameTarget(y.1, x.1)
  {
    var i :| 0 <= i < |claims| && claims[i] == x;
    var j :| 0 <= j < |claims| && claims[j] == y;
    assert i < j || j < i;
  }

  // The export of a profile belongs to no representation and no provider interface.
  lemma ProfilesAreExclusive(m: FacetModule, p: Profile)
    requires AcceptedFacetModule(m) && p in m.profiles
    ensures forall r :: r in m.representations ==> r.exportName != p.exportName
    ensures forall i :: i in m.interfaces ==> i.exportName != p.exportName
  {
    PartsAreApart(m);
    ProfileClaimed(m.profiles, p, true);
    forall r | r in m.representations ensures r.exportName != p.exportName {
      RepresentationClaimed(m.representations, r);
    }
    forall i | i in m.interfaces ensures i.exportName != p.exportName {
      InterfaceClaimed(m.interfaces, i, true);
    }
  }

  // A callable profile shares its export only with a callable profile of its target.
  lemma ProfilesShareTargets(m: FacetModule, p: Profile, q: Profile)
    requires AcceptedFacetModule(m) && p in m.profiles && p.exportName == q.exportName
    ensures q in m.profiles ==> (p.identity, p.evidence) == (q.identity, q.evidence)
    ensures q !in m.statefuls
  {
    PartsAreApart(m);
    ProfileClaimed(m.profiles, p, true);
    if q in m.profiles && (p.identity, p.evidence) != (q.identity, q.evidence) {
      ProfileClaimed(m.profiles, q, true);
      ClaimsAgree(AllProfileClaims(m.profiles, true),
        (p.exportName, OfCallable((p.identity, p.evidence))), (q.exportName, OfCallable((q.identity, q.evidence))));
    }
    if q in m.statefuls {
      ProfileClaimed(m.statefuls, q, false);
    }
  }

  // An interface that a profile repeats is the provider interface of that export.
  lemma RepeatedInterfaceIsProvided(m: FacetModule, p: Profile, j: Interface, i: Interface)
    requires AcceptedFacetModule(m) && p in m.profiles && j in p.interfaces && i in m.interfaces && i.exportName == j.exportName
    ensures i == j
  {
    PartsAreApart(m);
    ProfileClaimed(m.profiles, p, true);
    InterfaceClaimed(m.interfaces, i, true);
    InterfaceClaimed(p.interfaces, j, false);
    var provided, repeated := (i.exportName, OfBinding(i)), (j.exportName, OfInterface(j));
    assert repeated in ProfileClaims(p, true);
    assert SameTarget(provided.1, repeated.1);
  }

  // Binary search over the methods of an accepted representation.
  method FindMethod(r: Representation, identity: string) returns (found: Option<RepresentationMethod>)
    requires AcceptedRepresentation(r)
    ensures found.Some? <==> exists m :: m in r.methods && m.identity == identity
    ensures found.Some? ==> found.value in r.methods && found.value.identity == identity
  {
    var index, present := BinarySearch(MethodNames(r.methods), identity);
    if !present {
      forall m | m in r.methods ensures m.identity != identity {
        var k :| 0 <= k < |r.methods| && r.methods[k] == m;
        assert MethodNames(r.methods)[k] in MethodNames(r.methods);
      }
      return None;
    }
    return Some(r.methods[index]);
  }
}
