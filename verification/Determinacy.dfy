/** A zone is determined by its inputs, except for reverse lookups of an address that two named peers share. */
module Determinacy {
  import opened Net
  import opened Records
  import opened Effective
  import opened Deadline
  import opened DnsNames
  import opened Claims
  import opened ReverseRecords
  import opened Zone
  import Replay
  import Anchors

  lemma RecordIsShared(claims: set<NameClaim>, addresses: map<Peer, set<IpAddr>>, y: DnsZone, z: DnsZone, r: RecordSet)
    requires Indexes(claims, addresses, y) && Indexes(claims, addresses, z) && y.zone == z.zone && r in y.records
    ensures r in z.records
  {
    assert r.name in LabelsOf(claims) && |{r.peer}| == 1;
    var x :| x in z.records && x.name == r.name;
    RecordsByName(claims, addresses, z.zone, r, x);
  }

  lemma ConflictIsShared(claims: set<NameClaim>, addresses: map<Peer, set<IpAddr>>, y: DnsZone, z: DnsZone, c: Conflict)
    requires Indexes(claims, addresses, y) && Indexes(claims, addresses, z) && y.zone == z.zone && c in y.conflicts
    ensures c in z.conflicts
  {
    assert c.name in LabelsOf(claims);
    forall r | r in z.records
      ensures r.name != c.name
    {
      assert |{r.peer}| == 1;
    }
    var x :| x in z.conflicts && x.name == c.name;
    assert x == c;
  }

  lemma RecordsAreShared(claims: set<NameClaim>, addresses: map<Peer, set<IpAddr>>, y: DnsZone, z: DnsZone)
    requires Indexes(claims, addresses, y) && Indexes(claims, addresses, z) && y.zone == z.zone
    ensures y.records == z.records
  {
    forall r
      ensures r in y.records <==> r in z.records
    {
      if r in y.records {
        RecordIsShared(claims, addresses, y, z, r);
      } else if r in z.records {
        RecordIsShared(claims, addresses, z, y, r);
      }
    }
    KeyedSetIsUnique(y.records, z.records, FqdnOf);
  }

  lemma ConflictsAreShared(claims: set<NameClaim>, addresses: map<Peer, set<IpAddr>>, y: DnsZone, z: DnsZone)
    requires Indexes(claims, addresses, y) && Indexes(claims, addresses, z) && y.zone == z.zone
    ensures y.conflicts == z.conflicts
  {
    forall c
      ensures c in y.conflicts <==> c in z.conflicts
    {
      if c in y.conflicts {
        ConflictIsShared(claims, addresses, y, z, c);
      } else if c in z.conflicts {
        ConflictIsShared(claims, addresses, z, y, c);
      }
    }
    KeyedSetIsUnique(y.conflicts, z.conflicts, ConflictFqdnOf);
  }

  // Shared addresses

  /** Whether a peer is the only owner of some name. */
  ghost predicate Named(claims: set<NameClaim>, p: Peer) {
    exists n :: n in LabelsOf(claims) && OwnersOf(claims, n) == {p}
  }

  /** Whether two named peers have an address in common. */
  ghost predicate PeersShare(claims: set<NameClaim>, addresses: map<Peer, set<IpAddr>>) {
    exists p, q, a ::
      && p in addresses && q in addresses && a in addresses[p] && a in addresses[q]
      && p != q && Named(claims, p) && Named(claims, q)
  }

  ghost predicate SharedAddress(config: Config, m: EffectiveMembership, hostnames: map<Peer, string>, env: Env) {
    PeersShare(NameClaims(config, m, hostnames, env), Addresses(config, m, env))
  }

  lemma NamedHasRecord(claims: set<NameClaim>, addresses: map<Peer, set<IpAddr>>, z: DnsZone, p: Peer) returns (r: RecordSet)
    requires Indexes(claims, addresses, z) && Named(claims, p)
    ensures r in z.records && r.peer == p && p in addresses && r.addresses == addresses[p]
  {
    var n :| n in LabelsOf(claims) && OwnersOf(claims, n) == {p};
    forall c | c in z.conflicts
      ensures c.name != n
    {
      assert |{p}| == 1;
    }
    r :| r in z.records && r.name == n;
    assert r.peer in {p};
  }

  lemma RecordIsNamed(claims: set<NameClaim>, addresses: map<Peer, set<IpAddr>>, z: DnsZone, r: RecordSet)
    requires Indexes(claims, addresses, z) && r in z.records
    ensures Named(claims, r.peer) && r.peer in addresses && r.addresses == addresses[r.peer]
  {
    assert IsRecordOf(claims, addresses, z.zone, r);
  }

  lemma RecordsShare(claims: set<NameClaim>, addresses: map<Peer, set<IpAddr>>, z: DnsZone)
    requires Indexes(claims, addresses, z)
    ensures SharesAddress(z.records) <==> PeersShare(claims, addresses)
  {
    if SharesAddress(z.records) {
      var r, x, a :| r in z.records && x in z.records && r.peer != x.peer && a in r.addresses && a in x.addresses;
      RecordIsNamed(claims, addresses, z, r);
      RecordIsNamed(claims, addresses, z, x);
    }
    if PeersShare(claims, addresses) {
      var p, q, a :|
        && p in addresses && q in addresses && a in addresses[p] && a in addresses[q]
        && p != q && Named(claims, p) && Named(claims, q);
      var r := NamedHasRecord(claims, addresses, z, p);
      var x := NamedHasRecord(claims, addresses, z, q);
    }
  }

  /**
   Whatever order the build visits its tables in, it ends with the same records, the same conflicts and reverse
   entries for the same addresses, and with the same targets if no two named peers share an address.
   */
  lemma ZonesAgree(config: Config, m: EffectiveMembership, hostnames: map<Peer, string>, env: Env, y: DnsZone, z: DnsZone)
    requires IsZone(config, m, hostnames, env, y) && IsZone(config, m, hostnames, env, z)
    ensures y.zone == z.zone && y.records == z.records && y.conflicts == z.conflicts
    ensures y.reverse.Keys == z.reverse.Keys
    ensures !SharedAddress(config, m, hostnames, env) ==> y == z
  {
    var claims, addresses := NameClaims(config, m, hostnames, env), Addresses(config, m, env);
    RecordsAreShared(claims, addresses, y, z);
    ConflictsAreShared(claims, addresses, y, z);
    ReverseNamesAgree(y.records, y.reverse, z.reverse);
    RecordsShare(claims, addresses, y);
    if !SharedAddress(config, m, hostnames, env) {
      ReverseIsUnique(y.records, y.reverse, z.reverse);
    }
  }

  lemma OtherZone(config: Config, m: EffectiveMembership, hostnames: map<Peer, string>, env: Env, y: DnsZone) returns (z: DnsZone)
    requires IsZone(config, m, hostnames, env, y) && SharedAddress(config, m, hostnames, env)
    ensures IsZone(config, m, hostnames, env, z) && z != y
  {
    RecordsShare(NameClaims(config, m, hostnames, env), Addresses(config, m, env), y);
    RecordsCarryPeerAddresses(NameClaims(config, m, hostnames, env), Addresses(config, m, env), y);
    var other := SharedAddressIsAmbiguous(y.records, y.reverse);
    z := y.(reverse := other);
  }

  /** Every named owner of an address answers for it in the zone of some visiting order. */
  lemma AnyOwnerMayAnswer(config: Config, m: EffectiveMembership, hostnames: map<Peer, string>, env: Env, y: DnsZone,
                          p: Peer, a: IpAddr) returns (z: DnsZone, r: RecordSet)
    requires IsZone(config, m, hostnames, env, y)
    requires Named(NameClaims(config, m, hostnames, env), p)
    requires var addresses := Addresses(config, m, env); p in addresses && a in addresses[p]
    ensures IsZone(config, m, hostnames, env, z) && z.records == y.records && r in z.records && r.peer == p
    ensures ReverseName(a) in z.reverse && z.reverse[ReverseName(a)] == r.fqdn
  {
    var claims, addresses := NameClaims(config, m, hostnames, env), Addresses(config, m, env);
    var own := NamedHasRecord(claims, addresses, y, p);
    r := SomePreferred(y.records, own);
    PreferredIsRecord(y.records, r);
    RecordIsNamed(claims, addresses, y, r);
    var other := VisitLast(y.records, y.reverse, r, a);
    z := y.(reverse := other);
  }

  /** A zone is the only one its inputs can give exactly when no two named peers share an address. */
  lemma ZoneIsDetermined(config: Config, m: EffectiveMembership, hostnames: map<Peer, string>, env: Env, y: DnsZone)
    requires IsZone(config, m, hostnames, env, y)
    ensures (forall z :: IsZone(config, m, hostnames, env, z) ==> z == y) <==> !SharedAddress(config, m, hostnames, env)
  {
    if SharedAddress(config, m, hostnames, env) {
      var z := OtherZone(config, m, hostnames, env, y);
    } else {
      forall z | IsZone(config, m, hostnames, env, z)
        ensures z == y
      {
        ZonesAgree(config, m, hostnames, env, y, z);
      }
    }
  }

  // Zones over time

  lemma MembershipStays(records: seq<Record>, now: nat, t: nat, m: EffectiveMembership, later: EffectiveMembership)
    requires Tieless(records) && BeforeRefresh(records, now, t) && forall r :: !Due(records, now, t, r)
    requires IsEffective(records, now, m) && IsEffective(records, t, later)
    ensures m == later
  {
    var f :| Replay.IsEvaluation(records, Anchors.AnchorsOf(records), t, f) && later == Project(f);
    DeadlineIsSound(records, Anchors.AnchorsOf(records), now, t, f);
    assert IsEffective(records, now, later);
    EffectiveConverges(records, records, now, m, later);
  }

  /** What two zones of one membership have in common; all of it if no two named peers share an address. */
  ghost predicate Alike(config: Config, m: EffectiveMembership, hostnames: map<Peer, string>, env: Env, y: DnsZone, z: DnsZone) {
    && y.zone == z.zone && y.records == z.records && y.conflicts == z.conflicts && y.reverse.Keys == z.reverse.Keys
    && (!SharedAddress(config, m, hostnames, env) ==> y == z)
  }

  /**
   A zone stays current until its refresh deadline: as long as no stored record becomes due, a zone built at any
   time before the deadline has the same names, owners, addresses and conflicts, and the same deadline.
   */
  lemma ZoneStaysCurrent(config: Config, records: seq<Record>, hostnames: map<Peer, string>, env: Env, now: nat, t: nat,
                         m: EffectiveMembership, later: EffectiveMembership, y: DnsZone, z: DnsZone)
    requires Tieless(records) && BeforeRefresh(records, now, t) && forall r :: !Due(records, now, t, r)
    requires IsEffective(records, now, m) && IsZone(config, m, hostnames, env, y)
    requires IsEffective(records, t, later) && IsZone(config, later, hostnames, env, z)
    ensures Alike(config, m, hostnames, env, y, z)
    ensures NextRefresh(records, now) == NextRefresh(records, t)
  {
    MembershipStays(records, now, t, m, later);
    ZonesAgree(config, m, hostnames, env, y, z);
    RefreshStays(records, now, t);
  }

  /** At every time the refresh window of a membership contains, the zone is the one built at its start. */
  lemma ZoneStaysInWindow(config: Config, records: seq<Record>, hostnames: map<Peer, string>, env: Env, at: nat, t: nat,
                          m: EffectiveMembership, later: EffectiveMembership, y: DnsZone, z: DnsZone)
    requires Tieless(records) && InWindow(records, at, t)
    requires IsEffective(records, at, m) && IsZone(config, m, hostnames, env, y)
    requires IsEffective(records, t, later) && IsZone(config, later, hostnames, env, z)
    ensures m == later && Alike(config, m, hostnames, env, y, z)
  {
    WindowIsQuiet(records, at, t);
    MembershipStays(records, at, t, m, later);
    ZonesAgree(config, m, hostnames, env, y, z);
  }
}
