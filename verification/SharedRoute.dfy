/** Two overlay members granted the same host route: a zone that is not determined by its inputs. */
module SharedRoute {
  import opened Prelude
  import opened Net
  import opened Records
  import opened Effective
  import opened Sorting
  import opened DnsNames
  import opened Claims
  import opened ReverseRecords
  import opened Zone
  import opened Determinacy

  const SHARED := V4(10, 77, 0, 9)

  datatype Labels = Labels(network: string, hub: string, laptop: string, phone: string)

  /** The hub's configuration. */
  function Home(l: Labels): Config {
    Config(l.network, 1, true, Some(l.hub), true, 60, None, [], [])
  }

  function Granted(p: Peer, name: string): EffectiveMember {
    EffectiveMember(p, 1, 1, Some(1), Some(1), 10, 10, [name], [OverlayMember, RouteAuthority], [Route(SHARED, 32)])
  }

  /** A laptop and a phone that are both granted the shared address. */
  function Members(l: Labels): EffectiveMembership {
    EffectiveMembership(map[2 := Granted(2, l.laptop), 3 := Granted(3, l.phone)], {2, 3}, false)
  }

  /** All labels are valid, and no other peer has the laptop's or the phone's. */
  ghost predicate Labelled(l: Labels, env: Env) {
    && IsCanonicalLabel(l.network) && IsCanonicalLabel(l.hub) && IsCanonicalLabel(l.laptop) && IsCanonicalLabel(l.phone)
    && (forall p :: p in {1, 2, 3} ==> IsCanonicalLabel(env.fallback(p)))
    && l.laptop !in {l.hub, l.phone, env.fallback(1), env.fallback(3)}
    && l.phone !in {l.hub, env.fallback(1), env.fallback(2)}
  }

  lemma HomeOwners(l: Labels)
    ensures OverlayPeers(Home(l), Members(l)) == {2, 3} && Owners(Home(l), Members(l)) == {1, 2, 3}
  {
    assert Members(l).members[2].IsOverlay() && Members(l).members[3].IsOverlay();
    assert ConfiguredPeers(Home(l), Members(l)) == {};
  }

  // Addresses

  lemma MemberAddresses(l: Labels, env: Env, p: Peer)
    requires p in {2, 3}
    ensures AddressesFor(Home(l), Members(l), env, p) == {env.builtin4(p), env.builtin6(p), SHARED}
  {
    HomeOwners(l);
    Unconfigured(Home(l), Members(l), p);
    assert Members(l).members[p].routes == [Route(SHARED, 32)];
    assert HostAddresses([Route(SHARED, 32)]) == {SHARED};
  }

  lemma LocalAddressesOnly(l: Labels, env: Env)
    ensures AddressesFor(Home(l), Members(l), env, 1) == {env.builtin4(1), env.builtin6(1)}
  {
    HomeOwners(l);
    Unconfigured(Home(l), Members(l), 1);
    assert HostAddresses([]) == {};
  }

  lemma {:induction false} FewEntries(addresses: map<Peer, set<IpAddr>>, peers: set<Peer>)
    requires peers <= addresses.Keys && forall p :: p in addresses ==> |addresses[p]| <= 3
    ensures |Entries(addresses, peers)| <= 3 * |peers|
    decreases peers
  {
    SomePeer(peers);
    if peers == {} {
      assert Entries(addresses, peers) == {};
    } else {
      var p :| p in peers;
      FewEntries(addresses, peers - {p});
      EntriesGrow(addresses, peers - {p}, p);
      assert peers - {p} + {p} == peers;
    }
  }

  lemma FewAddresses(l: Labels, env: Env, p: Peer)
    requires p in {1, 2, 3}
    ensures |AddressesFor(Home(l), Members(l), env, p)| <= 3
  {
    if p == 1 {
      LocalAddressesOnly(l, env);
    } else {
      MemberAddresses(l, env, p);
    }
  }

  lemma FewFit(config: Config, m: EffectiveMembership, env: Env)
    requires |Owners(config, m)| <= 3
    requires forall p :: p in Owners(config, m) ==> |AddressesFor(config, m, env, p)| <= 3
    ensures AddressesFit(Addresses(config, m, env))
  {
    var addresses := Addresses(config, m, env);
    assert addresses.Keys == Owners(config, m);
    FewEntries(addresses, addresses.Keys);
  }

  lemma HomeAddressesFit(l: Labels, env: Env)
    ensures AddressesFit(Addresses(Home(l), Members(l), env))
  {
    HomeOwners(l);
    forall p | p in Owners(Home(l), Members(l))
      ensures |AddressesFor(Home(l), Members(l), env, p)| <= 3
    {
      FewAddresses(l, env, p);
    }
    FewFit(Home(l), Members(l), env);
  }

  // Names

  function HomeClaims(l: Labels, env: Env): set<NameClaim> {
    {
      NameClaim(1, l.hub, LocalConfiguration),
      NameClaim(2, l.laptop, SignedMembership),
      NameClaim(3, l.phone, SignedMembership),
      NameClaim(1, env.fallback(1), PeerIdFallback),
      NameClaim(2, env.fallback(2), PeerIdFallback),
      NameClaim(3, env.fallback(3), PeerIdFallback)}
  }

  lemma HomeNames(l: Labels, env: Env)
    ensures NameClaims(Home(l), Members(l), map[], env) == HomeClaims(l, env)
  {
    HomeOwners(l);
    assert LocalNames(Home(l), map[]) == {NameClaim(1, l.hub, LocalConfiguration)};
    assert ConfiguredNames(Home(l), Members(l), map[]) == {};
    SignedNames(l);
    assert OwnerNames(map[], env, {1, 2, 3}) ==
      {NameClaim(1, env.fallback(1), PeerIdFallback), NameClaim(2, env.fallback(2), PeerIdFallback),
       NameClaim(3, env.fallback(3), PeerIdFallback)};
  }

  lemma SignedNames(l: Labels)
    ensures MemberNames(Members(l), map[], {2, 3}) ==
      {NameClaim(2, l.laptop, SignedMembership), NameClaim(3, l.phone, SignedMembership)}
  {
    assert Members(l).members[2].hostnames == [l.laptop] && Members(l).members[3].hostnames == [l.phone];
  }

  lemma HomeLabels(l: Labels, env: Env)
    requires Labelled(l, env)
    ensures forall c :: c in HomeClaims(l, env) ==> CanonicalLabel(c.name) == Ok(c.name) && Lower(c.name) == c.name
  {
    forall c | c in HomeClaims(l, env)
      ensures CanonicalLabel(c.name) == Ok(c.name)
    {
      CanonicalLabelIdempotent(c.name);
    }
  }

  lemma HomeNamed(l: Labels, env: Env, p: Peer)
    requires Labelled(l, env) && p in {2, 3}
    ensures Named(HomeClaims(l, env), p)
  {
    HomeLabels(l, env);
    var c := NameClaim(p, if p == 2 then l.laptop else l.phone, SignedMembership);
    assert c in HomeClaims(l, env);
    assert c.name in LabelsOf(HomeClaims(l, env)) && OwnersOf(HomeClaims(l, env), c.name) == {p};
  }

  lemma {:induction false} LabelCount(claims: set<NameClaim>)
    ensures |LabelsOf(claims)| <= |claims|
    decreases claims
  {
    if claims != {} {
      var c :| c in claims;
      LabelCount(claims - {c});
      assert LabelsOf(claims) == LabelsOf(claims - {c}) + {Lower(c.name)};
    }
  }

  lemma HomeSingleNames(l: Labels, env: Env)
    ensures |SingleNames(HomeClaims(l, env))| <= 6
  {
    LabelCount(HomeClaims(l, env));
    SubsetSize(SingleNames(HomeClaims(l, env)), LabelsOf(HomeClaims(l, env)));
  }

  lemma HomeConfigIsValid(l: Labels, env: Env)
    requires Labelled(l, env)
    ensures ConfigCheck(Home(l)).Pass?
  {
    CanonicalLabelIdempotent(l.network);
    CanonicalLabelIdempotent(l.hub);
  }

  /** The zone can be built, and the members' shared host route is an address of two named peers. */
  lemma SharedRouteIsBuildable(l: Labels, env: Env)
    requires Labelled(l, env)
    ensures Buildable(Home(l), Members(l), map[], env) && SharedAddress(Home(l), Members(l), map[], env)
  {
    HomeNames(l, env);
    HomeLabels(l, env);
    HomeAddressesFit(l, env);
    HomeSingleNames(l, env);
    HomeConfigIsValid(l, env);
    HomeShares(l, env);
  }

  lemma HomeShares(l: Labels, env: Env)
    requires Labelled(l, env)
    ensures PeersShare(HomeClaims(l, env), Addresses(Home(l), Members(l), env))
  {
    HomeOwners(l);
    HomeNamed(l, env, 2);
    HomeNamed(l, env, 3);
    MemberAddresses(l, env, 2);
    MemberAddresses(l, env, 3);
    var addresses := Addresses(Home(l), Members(l), env);
    assert 2 in addresses && 3 in addresses && SHARED in addresses[2] && SHARED in addresses[3];
  }

  /** Depending on the visiting order, the shared route is answered with either member's name. */
  lemma SharedRouteHasTwoTargets(l: Labels, env: Env, y: DnsZone) returns (laptops: DnsZone, phones: DnsZone)
    requires Labelled(l, env) && IsZone(Home(l), Members(l), map[], env, y)
    ensures IsZone(Home(l), Members(l), map[], env, laptops) && IsZone(Home(l), Members(l), map[], env, phones)
    ensures var name := ReverseName(SHARED);
      && name in laptops.reverse && name in phones.reverse && laptops.reverse[name] != phones.reverse[name]
      && (exists r :: r in y.records && r.peer == 2 && r.fqdn == laptops.reverse[name])
      && (exists r :: r in y.records && r.peer == 3 && r.fqdn == phones.reverse[name])
  {
    HomeOwners(l);
    HomeNames(l, env);
    HomeNamed(l, env, 2);
    HomeNamed(l, env, 3);
    MemberAddresses(l, env, 2);
    MemberAddresses(l, env, 3);
    var laptop: RecordSet, phone: RecordSet;
    laptops, laptop := AnyOwnerMayAnswer(Home(l), Members(l), map[], env, y, 2, SHARED);
    phones, phone := AnyOwnerMayAnswer(Home(l), Members(l), map[], env, y, 3, SHARED);
    DifferentPeersDifferentNames(y.records, laptop, phone);
  }

  // Such labels exist

  function FallbackOf(p: Peer): string {
    if p == 1 then "peer-0" else if p == 2 then "peer-1" else "peer-2"
  }

  const LABELS := Labels("lab", "hub", "laptop", "phone")

  lemma LabelsExist(env: Env)
    requires env.fallback == FallbackOf
    ensures Labelled(LABELS, env)
  {
    assert FallbackOf(1)[0] == FallbackOf(2)[0] == FallbackOf(3)[0] == 'p';
    assert FallbackOf(1)[1] == FallbackOf(2)[1] == FallbackOf(3)[1] == 'e';
  }

  /** The inputs written out: the network "lab" with the hub, the laptop and the phone. */
  lemma SharedRouteExists(env: Env)
    requires env.fallback == FallbackOf
    ensures Buildable(Home(LABELS), Members(LABELS), map[], env) && SharedAddress(Home(LABELS), Members(LABELS), map[], env)
  {
    LabelsExist(env);
    SharedRouteIsBuildable(LABELS, env);
  }
}
