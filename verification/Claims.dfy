/** Who may be named in an overlay's DNS zone, under which names and with which addresses. */
module Claims {
  import opened Prelude
  import opened Net
  import opened Records
  import opened Effective
  import opened Sorting
  import opened DnsNames

  const MAX_DNS_TTL_SECONDS := 300
  const MAX_DNS_RECORD_SETS := 1024
  const MAX_DNS_ADDRESSES_PER_PEER := 256
  const MAX_DNS_ADDRESSES := 4096

  datatype Source = LocalConfiguration | PeerConfiguration | SignedMembership | SignedHostname | PeerIdFallback

  datatype NameClaim = NameClaim(peer: Peer, name: string, source: Source)

  datatype PeerConfig = PeerConfig(peer: Peer, name: Option<string>, vpnIp: Option<IpAddr>, routes: seq<Route>)

  datatype Config = Config(
    network: string,
    localPeer: Peer,
    enabled: bool,
    hostname: Option<string>,
    loopback: bool,
    ttlSeconds: nat,
    vpnIp: Option<IpAddr>,
    routes: seq<Route>,
    peers: seq<PeerConfig>)

  /** A peer's transport identity, and the names and addresses derived from the peer by hashing. */
  datatype Env = Env(
    transport: Peer -> string,
    fallback: Peer -> string,
    builtin4: Peer -> IpAddr,
    builtin6: Peer -> IpAddr)

  datatype ZoneError =
    | Disabled
    | MissingHostname
    | InvalidDnsName(error: NameError)
    | NonLoopbackListener
    | InvalidTtl
    | TooManyPeerAddresses(peer: Peer, actual: nat)
    | TooManyAddresses(actual: nat)
    | TooManyRecordSets(actual: nat)

  function ConfigCheck(config: Config): (o: Outcome<ZoneError>)
    ensures o.Pass? ==> CanonicalLabel(config.network).Ok?
  {
    if !config.enabled then Fail(Disabled)
    else if config.hostname.None? then Fail(MissingHostname)
    else if CanonicalLabel(config.hostname.value).Err? then Fail(InvalidDnsName(CanonicalLabel(config.hostname.value).error))
    else if CanonicalLabel(config.network).Err? then Fail(InvalidDnsName(CanonicalLabel(config.network).error))
    else if !config.loopback then Fail(NonLoopbackListener)
    else if config.ttlSeconds == 0 || config.ttlSeconds > MAX_DNS_TTL_SECONDS then Fail(InvalidTtl)
    else Pass
  }

  // Who may be named

  predicate LocalIsActive(config: Config, m: EffectiveMembership) {
    m.AuthorizesConfigured(config.localPeer)
  }

  predicate AllowsConfigured(config: Config, m: EffectiveMembership, p: Peer) {
    LocalIsActive(config, m) && m.AuthorizesConfigured(p)
  }

  function ConfiguredPeers(config: Config, m: EffectiveMembership): set<Peer> {
    set c | c in config.peers && AllowsConfigured(config, m, c.peer) :: c.peer
  }

  function OverlayPeers(config: Config, m: EffectiveMembership): (peers: set<Peer>)
    ensures peers <= m.members.Keys
  {
    if LocalIsActive(config, m) then set p | p in m.members && m.members[p].IsOverlay() else {}
  }

  /** The local peer, the authorized configured peers and the overlay members. */
  function Owners(config: Config, m: EffectiveMembership): set<Peer> {
    {config.localPeer} + ConfiguredPeers(config, m) + OverlayPeers(config, m)
  }

  // Names

  function LocalNames(config: Config, hostnames: map<Peer, string>): set<NameClaim> {
    if config.hostname.Some? && config.localPeer !in hostnames
    then {NameClaim(config.localPeer, config.hostname.value, LocalConfiguration)} else {}
  }

  function ConfiguredNames(config: Config, m: EffectiveMembership, hostnames: map<Peer, string>): set<NameClaim> {
    set c | c in config.peers && AllowsConfigured(config, m, c.peer) && c.name.Some? && c.peer !in hostnames ::
      NameClaim(c.peer, c.name.value, PeerConfiguration)
  }

  function MemberNames(m: EffectiveMembership, hostnames: map<Peer, string>, peers: set<Peer>): set<NameClaim>
    requires peers <= m.members.Keys
  {
    set p, n | p in peers && n in m.members[p].hostnames && p !in hostnames :: NameClaim(p, n, SignedMembership)
  }

  function OwnerNames(hostnames: map<Peer, string>, env: Env, owners: set<Peer>): set<NameClaim> {
    (set p | p in owners && p in hostnames :: NameClaim(p, hostnames[p], SignedHostname))
    + (set p | p in owners :: NameClaim(p, env.fallback(p), PeerIdFallback))
  }

  /** A hostname record replaces every other friendly name of its peer; each owner also has its fallback name. */
  function NameClaims(config: Config, m: EffectiveMembership, hostnames: map<Peer, string>, env: Env): set<NameClaim> {
    if m.checkpointAuthoritative && !LocalIsActive(config, m) then {} else
    LocalNames(config, hostnames)
    + ConfiguredNames(config, m, hostnames)
    + MemberNames(m, hostnames, OverlayPeers(config, m))
    + OwnerNames(hostnames, env, Owners(config, m))
  }

  lemma ClaimsHaveOwners(config: Config, m: EffectiveMembership, hostnames: map<Peer, string>, env: Env, c: NameClaim)
    requires c in NameClaims(config, m, hostnames, env)
    ensures c.peer in Owners(config, m)
  {}

  // How often each claim is collected

  function Unless(hostnames: map<Peer, string>, c: NameClaim): seq<NameClaim> {
    if c.peer in hostnames then [] else [c]
  }

  function LocalList(config: Config, hostnames: map<Peer, string>): seq<NameClaim> {
    if config.hostname.None? then []
    else Unless(hostnames, NameClaim(config.localPeer, config.hostname.value, LocalConfiguration))
  }

  function ConfiguredList(config: Config, m: EffectiveMembership, hostnames: map<Peer, string>, n: nat): seq<NameClaim>
    requires n <= |config.peers|
  {
    if n == 0 then []
    else
      var c := config.peers[n - 1];
      ConfiguredList(config, m, hostnames, n - 1)
      + if AllowsConfigured(config, m, c.peer) && c.name.Some?
        then Unless(hostnames, NameClaim(c.peer, c.name.value, PeerConfiguration)) else []
  }

  function MemberList(hostnames: map<Peer, string>, p: Peer, own: seq<string>): seq<NameClaim> {
    if own == [] then []
    else MemberList(hostnames, p, own[..|own| - 1]) + Unless(hostnames, NameClaim(p, own[|own| - 1], SignedMembership))
  }

  function OwnerList(hostnames: map<Peer, string>, env: Env, p: Peer): seq<NameClaim> {
    (if p in hostnames then [NameClaim(p, hostnames[p], SignedHostname)] else [])
    + [NameClaim(p, env.fallback(p), PeerIdFallback)]
  }

  function FromMembers(m: EffectiveMembership, hostnames: map<Peer, string>, peers: set<Peer>, c: NameClaim): nat
    requires peers <= m.members.Keys
  {
    if c.peer in peers then multiset(MemberList(hostnames, c.peer, m.members[c.peer].hostnames))[c] else 0
  }

  function FromOwners(hostnames: map<Peer, string>, env: Env, owners: set<Peer>, c: NameClaim): nat {
    if c.peer in owners then multiset(OwnerList(hostnames, env, c.peer))[c] else 0
  }

  /** How often a claim is collected: once for each place that makes it. */
  function Times(config: Config, m: EffectiveMembership, hostnames: map<Peer, string>, env: Env, c: NameClaim): nat {
    if m.checkpointAuthoritative && !LocalIsActive(config, m) then 0 else
    multiset(LocalList(config, hostnames))[c]
    + multiset(ConfiguredList(config, m, hostnames, |config.peers|))[c]
    + FromMembers(m, hostnames, OverlayPeers(config, m), c)
    + FromOwners(hostnames, env, Owners(config, m), c)
  }

  lemma ConfiguredNamesStep(config: Config, m: EffectiveMembership, hostnames: map<Peer, string>,
                            peers: seq<PeerConfig>, c: PeerConfig)
    ensures ConfiguredNames(config.(peers := peers + [c]), m, hostnames) ==
      ConfiguredNames(config.(peers := peers), m, hostnames) +
      if AllowsConfigured(config, m, c.peer) && c.name.Some?
      then Elements(Unless(hostnames, NameClaim(c.peer, c.name.value, PeerConfiguration))) else {}
  {}

  lemma {:induction false} ConfiguredListed(config: Config, m: EffectiveMembership, hostnames: map<Peer, string>, n: nat)
    requires n <= |config.peers|
    ensures Elements(ConfiguredList(config, m, hostnames, n))
         == ConfiguredNames(config.(peers := config.peers[..n]), m, hostnames)
  {
    if n > 0 {
      var c := config.peers[n - 1];
      ConfiguredListed(config, m, hostnames, n - 1);
      ConfiguredNamesStep(config, m, hostnames, config.peers[..n - 1], c);
      assert config.peers[..n] == config.peers[..n - 1] + [c];
      var own := if AllowsConfigured(config, m, c.peer) && c.name.Some?
        then Unless(hostnames, NameClaim(c.peer, c.name.value, PeerConfiguration)) else [];
      ElementsConcat(ConfiguredList(config, m, hostnames, n - 1), own);
    }
  }

  lemma {:induction false} MemberListed(hostnames: map<Peer, string>, p: Peer, own: seq<string>, c: NameClaim)
    ensures c in MemberList(hostnames, p, own) <==>
      p !in hostnames && c.peer == p && c.source == SignedMembership && c.name in own
  {
    if own != [] {
      var front, last := own[..|own| - 1], own[|own| - 1];
      MemberListed(hostnames, p, front, c);
      assert own == front + [last];
    }
  }

  lemma ConfiguredOften(config: Config, m: EffectiveMembership, hostnames: map<Peer, string>, c: NameClaim)
    ensures c in ConfiguredNames(config, m, hostnames)
       <==> multiset(ConfiguredList(config, m, hostnames, |config.peers|))[c] > 0
  {
    ConfiguredListed(config, m, hostnames, |config.peers|);
    assert config.peers[..|config.peers|] == config.peers && config.(peers := config.peers) == config;
    var configured := ConfiguredList(config, m, hostnames, |config.peers|);
    assert c in configured <==> c in Elements(configured);
  }

  lemma MemberOften(m: EffectiveMembership, hostnames: map<Peer, string>, peers: set<Peer>, c: NameClaim)
    requires peers <= m.members.Keys
    ensures c in MemberNames(m, hostnames, peers) <==> FromMembers(m, hostnames, peers, c) > 0
  {
    if c.peer in peers {
      MemberListed(hostnames, c.peer, m.members[c.peer].hostnames, c);
    }
  }

  lemma OwnerOften(hostnames: map<Peer, string>, env: Env, owners: set<Peer>, c: NameClaim)
    ensures c in OwnerNames(hostnames, env, owners) <==> FromOwners(hostnames, env, owners, c) > 0
  {
    if c.peer in owners {
      assert c in OwnerList(hostnames, env, c.peer) <==> c in multiset(OwnerList(hostnames, env, c.peer));
    }
  }

  /** Every claim is collected, and nothing else is. */
  lemma ClaimedOften(config: Config, m: EffectiveMembership, hostnames: map<Peer, string>, env: Env, c: NameClaim)
    ensures c in NameClaims(config, m, hostnames, env) <==> Times(config, m, hostnames, env, c) > 0
  {
    assert c in LocalNames(config, hostnames) <==> multiset(LocalList(config, hostnames))[c] > 0;
    ConfiguredOften(config, m, hostnames, c);
    MemberOften(m, hostnames, OverlayPeers(config, m), c);
    OwnerOften(hostnames, env, Owners(config, m), c);
  }

  lemma AnotherMember(m: EffectiveMembership, hostnames: map<Peer, string>, peers: set<Peer>, p: Peer, names: seq<NameClaim>,
                      c: NameClaim)
    requires peers <= m.members.Keys && p in m.members && p !in peers
    requires multiset(names)[c] == FromMembers(m, hostnames, peers, c)
    ensures multiset(names + MemberList(hostnames, p, m.members[p].hostnames))[c]
         == FromMembers(m, hostnames, peers + {p}, c)
  {
    MemberListed(hostnames, p, m.members[p].hostnames, c);
  }

  lemma AnotherOwner(hostnames: map<Peer, string>, env: Env, owners: set<Peer>, p: Peer, names: seq<NameClaim>, c: NameClaim)
    requires p !in owners && multiset(names)[c] == FromOwners(hostnames, env, owners, c)
    ensures multiset(names + OwnerList(hostnames, env, p))[c] == FromOwners(hostnames, env, owners + {p}, c)
  {
    if c.peer != p {
      assert c !in OwnerList(hostnames, env, p) && c !in multiset(OwnerList(hostnames, env, p));
    }
  }

  method ClaimConfigured(config: Config, m: EffectiveMembership, hostnames: map<Peer, string>)
    returns (names: seq<NameClaim>, owners: set<Peer>)
    ensures names == ConfiguredList(config, m, hostnames, |config.peers|)
    ensures owners == ConfiguredPeers(config, m)
  {
    names, owners := [], {};
    for i := 0 to |config.peers|
      invariant names == ConfiguredList(config, m, hostnames, i)
      invariant owners == ConfiguredPeers(config.(peers := config.peers[..i]), m)
    {
      var c := config.peers[i];
      assert config.peers[..i + 1] == config.peers[..i] + [c];
      ConfiguredPeersStep(config, m, config.peers[..i], c);
      if AllowsConfigured(config, m, c.peer) {
        owners := owners + {c.peer};
        if c.name.Some? {
          names := names + Unless(hostnames, NameClaim(c.peer, c.name.value, PeerConfiguration));
        }
      }
    }
    assert config.peers[..|config.peers|] == config.peers;
  }

  method ClaimMember(m: EffectiveMembership, hostnames: map<Peer, string>, p: Peer) returns (names: seq<NameClaim>)
    requires p in m.members
    ensures names == MemberList(hostnames, p, m.members[p].hostnames)
  {
    names := [];
    var own := m.members[p].hostnames;
    for i := 0 to |own|
      invariant names == MemberList(hostnames, p, own[..i])
    {
      assert own[..i + 1][..i] == own[..i];
      names := names + Unless(hostnames, NameClaim(p, own[i], SignedMembership));
    }
    assert own[..|own|] == own;
  }

  method ClaimMembers(m: EffectiveMembership, hostnames: map<Peer, string>, peers: set<Peer>)
    returns (names: seq<NameClaim>)
    requires peers <= m.members.Keys
    ensures forall c :: multiset(names)[c] == FromMembers(m, hostnames, peers, c)
  {
    names := [];
    var pending := peers;
    while pending != {}
      invariant pending <= peers
      invariant forall c :: multiset(names)[c] == FromMembers(m, hostnames, peers - pending, c)
      decreases pending
    {
      SomePeer(pending);
      var p :| p in pending;
      var own := ClaimMember(m, hostnames, p);
      forall c: NameClaim
        ensures multiset(names + own)[c] == FromMembers(m, hostnames, peers - pending + {p}, c)
      {
        AnotherMember(m, hostnames, peers - pending, p, names, c);
      }
      assert peers - (pending - {p}) == peers - pending + {p};
      names, pending := names + own, pending - {p};
    }
  }

  method ClaimOwners(hostnames: map<Peer, string>, env: Env, owners: set<Peer>) returns (names: seq<NameClaim>)
    ensures forall c :: multiset(names)[c] == FromOwners(hostnames, env, owners, c)
  {
    names := [];
    var pending := owners;
    while pending != {}
      invariant pending <= owners
      invariant forall c :: multiset(names)[c] == FromOwners(hostnames, env, owners - pending, c)
      decreases pending
    {
      SomePeer(pending);
      var p :| p in pending;
      var own := OwnerList(hostnames, env, p);
      forall c: NameClaim
        ensures multiset(names + own)[c] == FromOwners(hostnames, env, owners - pending + {p}, c)
      {
        AnotherOwner(hostnames, env, owners - pending, p, names, c);
      }
      assert owners - (pending - {p}) == owners - pending + {p};
      names, pending := names + own, pending - {p};
    }
  }

  method CollectNames(config: Config, m: EffectiveMembership, hostnames: map<Peer, string>, env: Env)
    returns (names: seq<NameClaim>)
    ensures forall c :: multiset(names)[c] == Times(config, m, hostnames, env, c)
  {
    if m.checkpointAuthoritative && !LocalIsActive(config, m) {
      return [];
    }
    names := LocalList(config, hostnames);
    var configured, owners := ClaimConfigured(config, m, hostnames);
    names := names + configured;
    var members := ClaimMembers(m, hostnames, OverlayPeers(config, m));
    names := names + members;
    owners := {config.localPeer} + owners + OverlayPeers(config, m);
    var owned := ClaimOwners(hostnames, env, owners);
    names := names + owned;
  }

  // The order of claims

  predicate NameLeq(a: NameClaim, b: NameClaim) {
    LexLeq(a.name, b.name)
  }

  function Rank(source: Source): nat {
    match source
    case LocalConfiguration => 0
    case PeerConfiguration => 1
    case SignedMembership => 2
    case SignedHostname => 3
    case PeerIdFallback => 4
  }

  /** By label, then by transport identity, then by source. */
  predicate NotAfter(env: Env, a: NameClaim, b: NameClaim) {
    if a.name != b.name then LexLeq(a.name, b.name)
    else if env.transport(a.peer) != env.transport(b.peer) then LexLeq(env.transport(a.peer), env.transport(b.peer))
    else Rank(a.source) <= Rank(b.source)
  }

  function ClaimOrder(env: Env): (NameClaim, NameClaim) -> bool {
    (a, b) => NotAfter(env, a, b)
  }

  lemma NotAfterTransitive(env: Env, a: NameClaim, b: NameClaim, c: NameClaim)
    requires NotAfter(env, a, b) && NotAfter(env, b, c)
    ensures NotAfter(env, a, c)
  {
    if a.name != b.name && b.name != c.name {
      LexTransitive(a.name, b.name, c.name);
      LexTotal(a.name, b.name);
    } else if a.name == b.name == c.name {
      var x, y, z := env.transport(a.peer), env.transport(b.peer), env.transport(c.peer);
      if x != y && y != z {
        LexTransitive(x, y, z);
        LexTotal(x, y);
      }
    }
  }

  lemma ClaimOrderIsTotal(env: Env)
    ensures Total(ClaimOrder(env)) && Transitive(ClaimOrder(env))
  {
    forall a: NameClaim, b: NameClaim
      ensures NotAfter(env, a, b) || NotAfter(env, b, a)
    {
      LexTotal(a.name, b.name);
      LexTotal(env.transport(a.peer), env.transport(b.peer));
    }
    forall a: NameClaim, b: NameClaim, c: NameClaim | NotAfter(env, a, b) && NotAfter(env, b, c)
      ensures NotAfter(env, a, c)
    {
      NotAfterTransitive(env, a, b, c);
    }
  }

  method EffectivePeerNames(config: Config, m: EffectiveMembership, hostnames: map<Peer, string>, env: Env)
    returns (names: seq<NameClaim>)
    ensures forall c :: multiset(names)[c] == Times(config, m, hostnames, env, c)
    ensures SortedBy(names, ClaimOrder(env))
  {
    var collected := CollectNames(config, m, hostnames, env);
    ClaimOrderIsTotal(env);
    names := Sort(collected, ClaimOrder(env));
  }

  /** The list of names is determined by its inputs if peers have different transport identities. */
  lemma NamesAreDetermined(config: Config, m: EffectiveMembership, hostnames: map<Peer, string>, env: Env,
                           names: seq<NameClaim>, others: seq<NameClaim>)
    requires forall c :: multiset(names)[c] == Times(config, m, hostnames, env, c)
    requires forall c :: multiset(others)[c] == Times(config, m, hostnames, env, c)
    requires SortedBy(names, ClaimOrder(env)) && SortedBy(others, ClaimOrder(env))
    requires forall p, q :: env.transport(p) == env.transport(q) ==> p == q
    ensures names == others
  {
    forall a, b | a in names && b in names && NotAfter(env, a, b) && NotAfter(env, b, a)
      ensures a == b
    {
      LexTotal(a.name, b.name);
      LexTotal(env.transport(a.peer), env.transport(b.peer));
    }
    SortedIsUnique(names, others, ClaimOrder(env));
  }

  /** The claims of a collected list, and its order by label. */
  lemma CollectedClaims(config: Config, m: EffectiveMembership, hostnames: map<Peer, string>, env: Env, names: seq<NameClaim>)
    requires forall c :: multiset(names)[c] == Times(config, m, hostnames, env, c)
    requires SortedBy(names, ClaimOrder(env))
    ensures Elements(names) == NameClaims(config, m, hostnames, env) && SortedBy(names, NameLeq)
  {
    forall c
      ensures c in names <==> c in NameClaims(config, m, hostnames, env)
    {
      assert c in names <==> c in multiset(names);
      ClaimedOften(config, m, hostnames, env, c);
    }
    forall i, j | 0 <= i < j < |names|
      ensures NameLeq(names[i], names[j])
    {
      assert ClaimOrder(env)(names[i], names[j]);
      LexTotal(names[i].name, names[j].name);
    }
  }

  // Claims by label

  function LabelsOf(claims: set<NameClaim>): set<string> {
    set c | c in claims :: Lower(c.name)
  }

  function OwnersOf(claims: set<NameClaim>, name: string): set<Peer> {
    set c | c in claims && Lower(c.name) == name :: c.peer
  }

  function SourcesOf(claims: set<NameClaim>, name: string, p: Peer): set<Source> {
    set c | c in claims && Lower(c.name) == name && c.peer == p :: c.source
  }

  type Table = map<string, map<Peer, set<Source>>>

  ghost predicate Tabulates(claims: set<NameClaim>, t: Table) {
    && t.Keys == LabelsOf(claims)
    && (forall n :: n in t ==> t[n].Keys == OwnersOf(claims, n))
    && (forall n, p :: n in t && p in t[n] ==> t[n][p] == SourcesOf(claims, n, p))
  }

  function Enter(t: Table, c: NameClaim): Table {
    var name := Lower(c.name);
    var owners := if name in t then t[name] else map[];
    var sources := if c.peer in owners then owners[c.peer] else {};
    t[name := owners[c.peer := sources + {c.source}]]
  }

  lemma EnterTabulates(claims: set<NameClaim>, t: Table, c: NameClaim)
    requires Tabulates(claims, t)
    ensures Tabulates(claims + {c}, Enter(t, c))
  {
    var after, all := Enter(t, c), claims + {c};
    assert LabelsOf(all) == LabelsOf(claims) + {Lower(c.name)};
    forall n | n in after
      ensures after[n].Keys == OwnersOf(all, n)
      ensures forall p :: p in after[n] ==> after[n][p] == SourcesOf(all, n, p)
    {
      EnterRow(claims, t, c, n);
    }
  }

  lemma OwnersGrow(claims: set<NameClaim>, c: NameClaim, n: string)
    ensures OwnersOf(claims + {c}, n) == OwnersOf(claims, n) + if n == Lower(c.name) then {c.peer} else {}
  {}

  lemma SourcesGrow(claims: set<NameClaim>, c: NameClaim, n: string, p: Peer)
    ensures SourcesOf(claims + {c}, n, p) ==
      SourcesOf(claims, n, p) + if n == Lower(c.name) && p == c.peer then {c.source} else {}
    ensures p !in OwnersOf(claims, n) ==> SourcesOf(claims, n, p) == {}
  {}

  lemma EnterRow(claims: set<NameClaim>, t: Table, c: NameClaim, n: string)
    requires Tabulates(claims, t) && n in Enter(t, c)
    ensures Enter(t, c)[n].Keys == OwnersOf(claims + {c}, n)
    ensures forall p :: p in Enter(t, c)[n] ==> Enter(t, c)[n][p] == SourcesOf(claims + {c}, n, p)
  {
    OwnersGrow(claims, c, n);
    if n !in t {
      assert OwnersOf(claims, n) == {};
    }
    forall p | p in Enter(t, c)[n]
      ensures Enter(t, c)[n][p] == SourcesOf(claims + {c}, n, p)
    {
      SourcesGrow(claims, c, n, p);
    }
  }

  ghost predicate AllValid(claims: set<NameClaim>) {
    forall c :: c in claims ==> CanonicalLabel(c.name).Ok?
  }

  /** The error of the first invalid name in byte-wise order. */
  ghost predicate FirstInvalid(claims: set<NameClaim>, error: NameError) {
    exists c :: c in claims && CanonicalLabel(c.name) == Err(error)
      && forall d :: d in claims && CanonicalLabel(d.name).Err? ==> LexLeq(c.name, d.name)
  }

  lemma NextElement(names: seq<NameClaim>, i: nat)
    requires i < |names|
    ensures Elements(names[..i + 1]) == Elements(names[..i]) + {names[i]}
  {
    assert names[..i + 1] == names[..i] + [names[i]];
  }

  lemma InvalidAt(names: seq<NameClaim>, i: nat)
    requires i < |names| && SortedBy(names, NameLeq)
    requires AllValid(Elements(names[..i])) && CanonicalLabel(names[i].name).Err?
    ensures FirstInvalid(Elements(names), CanonicalLabel(names[i].name).error)
  {
    var c := names[i];
    assert c in Elements(names);
    forall j | 0 <= j < i
      ensures CanonicalLabel(names[j].name).Ok?
    {
      assert names[..i][j] in Elements(names[..i]);
    }
    forall d | d in Elements(names) && CanonicalLabel(d.name).Err?
      ensures LexLeq(c.name, d.name)
    {
      var j :| 0 <= j < |names| && names[j] == d;
      if j == i {
        LexTotal(c.name, d.name);
      } else {
        assert NameLeq(names[i], names[j]);
      }
    }
  }

  method InsertNames(names: seq<NameClaim>) returns (result: Result<Table, NameError>)
    requires SortedBy(names, NameLeq)
    ensures match result
      case Ok(t) => AllValid(Elements(names)) && Tabulates(Elements(names), t)
      case Err(error) => FirstInvalid(Elements(names), error)
  {
    var t: Table := map[];
    for i := 0 to |names|
      invariant AllValid(Elements(names[..i])) && Tabulates(Elements(names[..i]), t)
    {
      var c := names[i];
      var canonical := CanonicalLabel(c.name);
      if canonical.Err? {
        InvalidAt(names, i);
        return Err(canonical.error);
      }
      EnterTabulates(Elements(names[..i]), t, c);
      NextElement(names, i);
      t := Enter(t, c);
    }
    assert names[..|names|] == names;
    return Ok(t);
  }

  // Addresses

  function HostAddresses(routes: seq<Route>): set<IpAddr> {
    set r | r in routes && r.IsHostRoute() :: r.address
  }

  function OptionalAddress(ip: Option<IpAddr>): set<IpAddr> {
    if ip.Some? then {ip.value} else {}
  }

  function Builtin(env: Env, p: Peer): set<IpAddr> {
    {env.builtin4(p), env.builtin6(p)}
  }

  function LocalAddresses(config: Config): set<IpAddr> {
    OptionalAddress(config.vpnIp) + HostAddresses(config.routes)
  }

  function ConfiguredAddresses(config: Config, m: EffectiveMembership, p: Peer): set<IpAddr> {
    set c, a | c in config.peers && c.peer == p && AllowsConfigured(config, m, p)
               && a in OptionalAddress(c.vpnIp) + HostAddresses(c.routes) :: a
  }

  function ConfiguredFor(config: Config, m: EffectiveMembership, env: Env, p: Peer): set<IpAddr> {
    Builtin(env, p) + (if p == config.localPeer then LocalAddresses(config) else {}) + ConfiguredAddresses(config, m, p)
  }

  /** A peer's built-in addresses, those configured for it, and the host routes of its signed grants. */
  function AddressesFor(config: Config, m: EffectiveMembership, env: Env, p: Peer): set<IpAddr> {
    ConfiguredFor(config, m, env, p) + (if p in OverlayPeers(config, m) then HostAddresses(m.members[p].routes) else {})
  }

  function Addresses(config: Config, m: EffectiveMembership, env: Env): map<Peer, set<IpAddr>> {
    map p | p in Owners(config, m) :: AddressesFor(config, m, env, p)
  }

  function ConfiguredTable(config: Config, m: EffectiveMembership, env: Env): map<Peer, set<IpAddr>> {
    map p | p in {config.localPeer} + ConfiguredPeers(config, m) :: ConfiguredFor(config, m, env, p)
  }

  function WithMembers(table: map<Peer, set<IpAddr>>, m: EffectiveMembership, env: Env, peers: set<Peer>)
    : map<Peer, set<IpAddr>>
    requires peers <= m.members.Keys
  {
    map p | p in table.Keys + peers ::
      (if p in table then table[p] else Builtin(env, p)) + if p in peers then HostAddresses(m.members[p].routes) else {}
  }

  method AddHostRoutes(addresses: set<IpAddr>, routes: seq<Route>) returns (after: set<IpAddr>)
    ensures after == addresses + HostAddresses(routes)
  {
    after := addresses;
    for i := 0 to |routes|
      invariant after == addresses + HostAddresses(routes[..i])
    {
      assert routes[..i + 1] == routes[..i] + [routes[i]];
      if routes[i].IsHostRoute() {
        after := after + {routes[i].address};
      }
    }
    assert routes[..|routes|] == routes;
  }

  lemma ConfiguredForStep(config: Config, m: EffectiveMembership, env: Env, peers: seq<PeerConfig>, c: PeerConfig, p: Peer)
    ensures var before, after := config.(peers := peers), config.(peers := peers + [c]);
      && (p != c.peer || !AllowsConfigured(config, m, p) ==> ConfiguredFor(after, m, env, p) == ConfiguredFor(before, m, env, p))
      && (p == c.peer && AllowsConfigured(config, m, p) ==>
            ConfiguredFor(after, m, env, p) == ConfiguredFor(before, m, env, p) + OptionalAddress(c.vpnIp) + HostAddresses(c.routes))
      && (p !in {config.localPeer} + ConfiguredPeers(before, m) ==> ConfiguredFor(before, m, env, p) == Builtin(env, p))
  {
    ConfiguredAddressesStep(config, m, peers, c, p);
    var before := config.(peers := peers);
    if p !in {config.localPeer} + ConfiguredPeers(before, m) {
      Unconfigured(before, m, p);
    }
  }

  lemma ConfiguredStep(config: Config, m: EffectiveMembership, env: Env, peers: seq<PeerConfig>, c: PeerConfig)
    ensures var before, after := config.(peers := peers), config.(peers := peers + [c]);
      var table := ConfiguredTable(before, m, env);
      ConfiguredTable(after, m, env) ==
      if !AllowsConfigured(config, m, c.peer) then table
      else table[c.peer := (if c.peer in table then table[c.peer] else Builtin(env, c.peer))
                           + OptionalAddress(c.vpnIp) + HostAddresses(c.routes)]
  {
    ConfiguredPeersStep(config, m, peers, c);
    forall p {
      ConfiguredForStep(config, m, env, peers, c, p);
    }
  }

  lemma ConfiguredPeersStep(config: Config, m: EffectiveMembership, peers: seq<PeerConfig>, c: PeerConfig)
    ensures ConfiguredPeers(config.(peers := peers + [c]), m) ==
      ConfiguredPeers(config.(peers := peers), m) + if AllowsConfigured(config, m, c.peer) then {c.peer} else {}
  {}

  lemma ConfiguredAddressesStep(config: Config, m: EffectiveMembership, peers: seq<PeerConfig>, c: PeerConfig, p: Peer)
    ensures ConfiguredAddresses(config.(peers := peers + [c]), m, p) ==
      ConfiguredAddresses(config.(peers := peers), m, p) +
      if p == c.peer && AllowsConfigured(config, m, p) then OptionalAddress(c.vpnIp) + HostAddresses(c.routes) else {}
  {}

  lemma Unconfigured(config: Config, m: EffectiveMembership, p: Peer)
    requires p !in ConfiguredPeers(config, m)
    ensures ConfiguredAddresses(config, m, p) == {}
  {}

  lemma NothingConfigured(config: Config, m: EffectiveMembership, env: Env)
    requires config.peers == []
    ensures ConfiguredTable(config, m, env) == map[config.localPeer := Builtin(env, config.localPeer) + LocalAddresses(config)]
  {
    assert ConfiguredPeers(config, m) == {} && ConfiguredAddresses(config, m, config.localPeer) == {};
    assert ConfiguredTable(config, m, env).Keys == {config.localPeer};
    var local := Builtin(env, config.localPeer) + LocalAddresses(config);
    assert local + {} == local;
  }

  lemma NoMembers(table: map<Peer, set<IpAddr>>, m: EffectiveMembership, env: Env)
    ensures WithMembers(table, m, env, {}) == table
  {
    assert WithMembers(table, m, env, {}).Keys == table.Keys;
    assert forall p :: p in table ==> table[p] + {} == table[p];
  }

  lemma NextMember(table: map<Peer, set<IpAddr>>, m: EffectiveMembership, env: Env, peers: set<Peer>, p: Peer)
    requires peers <= m.members.Keys && p in m.members && p !in peers
    ensures var known := WithMembers(table, m, env, peers);
      var own := (if p in known then known[p] else Builtin(env, p)) + HostAddresses(m.members[p].routes);
      WithMembers(table, m, env, peers + {p}) == known[p := own]
  {
    var known := WithMembers(table, m, env, peers);
    var after := WithMembers(table, m, env, peers + {p});
    assert after.Keys == known.Keys + {p};
    var before := if p in table then table[p] else Builtin(env, p);
    assert before + {} == before;
  }

  lemma TableWithMembers(config: Config, m: EffectiveMembership, env: Env)
    ensures WithMembers(ConfiguredTable(config, m, env), m, env, OverlayPeers(config, m)) == Addresses(config, m, env)
  {
    var table := ConfiguredTable(config, m, env);
    forall p | p in OverlayPeers(config, m) && p !in table
      ensures AddressesFor(config, m, env, p) == Builtin(env, p) + HostAddresses(m.members[p].routes)
    {
      Unconfigured(config, m, p);
    }
  }

  method GatherAddresses(config: Config, m: EffectiveMembership, env: Env) returns (addresses: map<Peer, set<IpAddr>>)
    ensures addresses == Addresses(config, m, env)
  {
    var local := AddHostRoutes(Builtin(env, config.localPeer) + OptionalAddress(config.vpnIp), config.routes);
    addresses := map[config.localPeer := local];
    assert local == Builtin(env, config.localPeer) + LocalAddresses(config);
    NothingConfigured(config.(peers := []), m, env);
    for i := 0 to |config.peers|
      invariant addresses == ConfiguredTable(config.(peers := config.peers[..i]), m, env)
    {
      var c := config.peers[i];
      assert config.peers[..i + 1] == config.peers[..i] + [c];
      ConfiguredStep(config, m, env, config.peers[..i], c);
      if AllowsConfigured(config, m, c.peer) {
        var known := if c.peer in addresses then addresses[c.peer] else Builtin(env, c.peer);
        var own := AddHostRoutes(known + OptionalAddress(c.vpnIp), c.routes);
        addresses := addresses[c.peer := own];
      }
    }
    assert config.peers[..|config.peers|] == config.peers;
    addresses := AddMembers(addresses, m, env, OverlayPeers(config, m));
    TableWithMembers(config, m, env);
  }

  method AddMembers(table: map<Peer, set<IpAddr>>, m: EffectiveMembership, env: Env, peers: set<Peer>)
    returns (addresses: map<Peer, set<IpAddr>>)
    requires peers <= m.members.Keys
    ensures addresses == WithMembers(table, m, env, peers)
  {
    addresses := table;
    NoMembers(table, m, env);
    var pending := peers;
    assert peers - pending == {};
    while pending != {}
      invariant pending <= peers
      invariant addresses == WithMembers(table, m, env, peers - pending)
      decreases pending
    {
      SomePeer(pending);
      var p :| p in pending;
      var known := if p in addresses then addresses[p] else Builtin(env, p);
      var own := AddHostRoutes(known, m.members[p].routes);
      NextMember(table, m, env, peers - pending, p);
      assert peers - (pending - {p}) == (peers - pending) + {p};
      addresses, pending := addresses[p := own], pending - {p};
    }
  }

  // Limits

  ghost function Entries(addresses: map<Peer, set<IpAddr>>, peers: set<Peer>): set<(Peer, IpAddr)>
    requires peers <= addresses.Keys
  {
    set p, a | p in peers && a in addresses[p] :: (p, a)
  }

  ghost function Row(p: Peer, addresses: set<IpAddr>): set<(Peer, IpAddr)> {
    set a | a in addresses :: (p, a)
  }

  lemma {:induction false} RowSize(p: Peer, addresses: set<IpAddr>)
    ensures |Row(p, addresses)| == |addresses|
    decreases addresses
  {
    if addresses != {} {
      var a :| a in addresses;
      RowSize(p, addresses - {a});
      assert Row(p, addresses) == Row(p, addresses - {a}) + {(p, a)};
    }
  }

  lemma EntriesGrow(addresses: map<Peer, set<IpAddr>>, peers: set<Peer>, p: Peer)
    requires peers <= addresses.Keys && p in addresses && p !in peers
    ensures |Entries(addresses, peers + {p})| == |Entries(addresses, peers)| + |addresses[p]|
  {
    assert Entries(addresses, peers + {p}) == Entries(addresses, peers) + Row(p, addresses[p]);
    assert Entries(addresses, peers) !! Row(p, addresses[p]);
    RowSize(p, addresses[p]);
  }

  ghost predicate PeersFit(addresses: map<Peer, set<IpAddr>>) {
    forall p :: p in addresses ==> |addresses[p]| <= MAX_DNS_ADDRESSES_PER_PEER
  }

  ghost predicate AddressesFit(addresses: map<Peer, set<IpAddr>>) {
    PeersFit(addresses) && |Entries(addresses, addresses.Keys)| <= MAX_DNS_ADDRESSES
  }

  method CountAddresses(addresses: map<Peer, set<IpAddr>>) returns (o: Outcome<ZoneError>)
    ensures o.Pass? <==> AddressesFit(addresses)
    ensures match o
      case Pass => true
      case Fail(TooManyPeerAddresses(p, actual)) => p in addresses && |addresses[p]| == actual > MAX_DNS_ADDRESSES_PER_PEER
      case Fail(TooManyAddresses(actual)) => PeersFit(addresses) && |Entries(addresses, addresses.Keys)| == actual
      case Fail(_) => false
  {
    var count := 0;
    var pending := addresses.Keys;
    while pending != {}
      invariant pending <= addresses.Keys
      invariant count == |Entries(addresses, addresses.Keys - pending)|
      invariant forall p :: p in addresses.Keys - pending ==> |addresses[p]| <= MAX_DNS_ADDRESSES_PER_PEER
      decreases pending
    {
      SomePeer(pending);
      var p :| p in pending;
      if |addresses[p]| > MAX_DNS_ADDRESSES_PER_PEER {
        return Fail(TooManyPeerAddresses(p, |addresses[p]|));
      }
      EntriesGrow(addresses, addresses.Keys - pending, p);
      assert addresses.Keys - (pending - {p}) == (addresses.Keys - pending) + {p};
      count, pending := count + |addresses[p]|, pending - {p};
    }
    assert addresses.Keys - pending == addresses.Keys;
    if count > MAX_DNS_ADDRESSES {
      return Fail(TooManyAddresses(count));
    }
    return Pass;
  }
}
