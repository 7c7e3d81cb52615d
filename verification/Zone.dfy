/** The DNS zone of an overlay: which names exist, who owns them, and what each lookup returns. */
module Zone {
  import opened Prelude
  import opened Net
  import opened Records
  import opened Effective
  import opened Sorting
  import opened DnsNames
  import opened Claims
  import opened ReverseRecords
  import Ledger

  // The zone

  datatype Conflict = Conflict(name: string, fqdn: string, peers: set<Peer>)

  datatype DnsZone = DnsZone(zone: string, records: seq<RecordSet>, conflicts: seq<Conflict>, reverse: map<string, string>)

  function ConflictFqdnOf(c: Conflict): string {
    c.fqdn
  }

  /** The record of a name with one owner. */
  predicate IsRecordOf(claims: set<NameClaim>, addresses: map<Peer, set<IpAddr>>, zone: string, r: RecordSet) {
    && r.name in LabelsOf(claims) && OwnersOf(claims, r.name) == {r.peer}
    && r.fqdn == Fqdn(r.name, zone)
    && r.peer in addresses && r.addresses == addresses[r.peer]
    && r.sources == SourcesOf(claims, r.name, r.peer)
    && r.fallback == (r.sources == {PeerIdFallback})
  }

  /** The conflict of a name with several owners. */
  predicate IsConflictOf(claims: set<NameClaim>, zone: string, c: Conflict) {
    && c.name in LabelsOf(claims) && c.peers == OwnersOf(claims, c.name) && |c.peers| >= 2
    && c.fqdn == Fqdn(c.name, zone)
  }

  ghost predicate Covers(names: set<string>, records: seq<RecordSet>, conflicts: seq<Conflict>) {
    forall n :: n in names ==> (exists r :: r in records && r.name == n) || (exists c :: c in conflicts && c.name == n)
  }

  /** Every claimed name is exactly one record with one owner, or exactly one conflict with all of its owners. */
  ghost predicate Indexes(claims: set<NameClaim>, addresses: map<Peer, set<IpAddr>>, z: DnsZone) {
    && (forall r :: r in z.records ==> IsRecordOf(claims, addresses, z.zone, r))
    && (forall c :: c in z.conflicts ==> IsConflictOf(claims, z.zone, c))
    && Covers(LabelsOf(claims), z.records, z.conflicts)
    && StrictlySorted(KeysOf(z.records, FqdnOf)) && StrictlySorted(KeysOf(z.conflicts, ConflictFqdnOf))
  }

  predicate RecordLeq(a: RecordSet, b: RecordSet) {
    LexLeq(a.fqdn, b.fqdn)
  }

  predicate ConflictLeq(a: Conflict, b: Conflict) {
    LexLeq(a.fqdn, b.fqdn)
  }

  lemma OrdersAreTotal()
    ensures Total(RecordLeq) && Transitive(RecordLeq) && Total(ConflictLeq) && Transitive(ConflictLeq)
  {
    forall a: RecordSet, b: RecordSet
      ensures RecordLeq(a, b) || RecordLeq(b, a)
    {
      LexTotal(a.fqdn, b.fqdn);
    }
    forall a: RecordSet, b: RecordSet, c: RecordSet | RecordLeq(a, b) && RecordLeq(b, c)
      ensures RecordLeq(a, c)
    {
      LexTransitive(a.fqdn, b.fqdn, c.fqdn);
    }
    forall a: Conflict, b: Conflict
      ensures ConflictLeq(a, b) || ConflictLeq(b, a)
    {
      LexTotal(a.fqdn, b.fqdn);
    }
    forall a: Conflict, b: Conflict, c: Conflict | ConflictLeq(a, b) && ConflictLeq(b, c)
      ensures ConflictLeq(a, c)
    {
      LexTransitive(a.fqdn, b.fqdn, c.fqdn);
    }
  }

  // Building the index

  /** Names already handled have their record or conflict; each record and conflict is of a handled name. */
  ghost predicate Indexed(claims: set<NameClaim>, addresses: map<Peer, set<IpAddr>>, zone: string, done: set<string>,
                          records: seq<RecordSet>, conflicts: seq<Conflict>)
  {
    && Distinct(records) && Distinct(conflicts)
    && (forall r :: r in records ==> IsRecordOf(claims, addresses, zone, r) && r.name in done)
    && (forall c :: c in conflicts ==> IsConflictOf(claims, zone, c) && c.name in done)
    && Covers(done, records, conflicts)
  }

  lemma AddRecord(claims: set<NameClaim>, addresses: map<Peer, set<IpAddr>>, zone: string, done: set<string>,
                  records: seq<RecordSet>, conflicts: seq<Conflict>, r: RecordSet)
    requires Indexed(claims, addresses, zone, done, records, conflicts)
    requires IsRecordOf(claims, addresses, zone, r) && r.name !in done
    ensures Indexed(claims, addresses, zone, done + {r.name}, records + [r], conflicts)
  {
    assert r in records + [r];
    assert forall x :: x in records ==> x in records + [r];
  }

  lemma AddConflict(claims: set<NameClaim>, addresses: map<Peer, set<IpAddr>>, zone: string, done: set<string>,
                    records: seq<RecordSet>, conflicts: seq<Conflict>, c: Conflict)
    requires Indexed(claims, addresses, zone, done, records, conflicts)
    requires IsConflictOf(claims, zone, c) && c.name !in done
    ensures Indexed(claims, addresses, zone, done + {c.name}, records, conflicts + [c])
  {
    assert c in conflicts + [c];
    assert forall x :: x in conflicts ==> x in conflicts + [c];
  }

  lemma SomeOwner(claims: set<NameClaim>, name: string)
    requires name in LabelsOf(claims)
    ensures exists p :: p in OwnersOf(claims, name)
  {
    var claim :| claim in claims && Lower(claim.name) == name;
    assert claim.peer in OwnersOf(claims, name);
  }

  lemma SingleOwner(owners: set<Peer>, p: Peer)
    requires p in owners && |owners| <= 1
    ensures owners == {p}
  {
    assert |owners - {p}| == 0;
  }

  method IndexNames(t: Table, ghost claims: set<NameClaim>, addresses: map<Peer, set<IpAddr>>, zone: string)
    returns (records: seq<RecordSet>, conflicts: seq<Conflict>)
    requires Tabulates(claims, t)
    requires forall c :: c in claims ==> c.peer in addresses
    ensures Indexed(claims, addresses, zone, LabelsOf(claims), records, conflicts)
  {
    records, conflicts := [], [];
    var pending := t.Keys;
    while pending != {}
      invariant pending <= t.Keys
      invariant Indexed(claims, addresses, zone, t.Keys - pending, records, conflicts)
      decreases pending
    {
      ghost var done := t.Keys - pending;
      var name :| name in pending;
      pending := pending - {name};
      assert t.Keys - pending == done + {name};
      var owners := t[name].Keys;
      if |owners| > 1 {
        var c := Conflict(name, Fqdn(name, zone), owners);
        AddConflict(claims, addresses, zone, done, records, conflicts, c);
        conflicts := conflicts + [c];
      } else {
        SomeOwner(claims, name);
        var p :| p in owners;
        SingleOwner(owners, p);
        var sources := t[name][p];
        var r := RecordSet(name, Fqdn(name, zone), p, addresses[p], sources, sources == {PeerIdFallback});
        AddRecord(claims, addresses, zone, done, records, conflicts, r);
        records := records + [r];
      }
    }
    assert t.Keys - pending == LabelsOf(claims);
  }

  /** The names with one owner. */
  ghost function SingleNames(claims: set<NameClaim>): set<string> {
    set n | n in LabelsOf(claims) && |OwnersOf(claims, n)| == 1
  }

  ghost function NamesIn(records: seq<RecordSet>): set<string> {
    set r | r in records :: r.name
  }

  ghost predicate DistinctNames(records: seq<RecordSet>) {
    forall i, j :: 0 <= i < j < |records| ==> records[i].name != records[j].name
  }

  lemma RecordsHaveDistinctNames(claims: set<NameClaim>, addresses: map<Peer, set<IpAddr>>, zone: string,
                                 records: seq<RecordSet>)
    requires Distinct(records) && forall r :: r in records ==> IsRecordOf(claims, addresses, zone, r)
    ensures DistinctNames(records)
  {
    forall i, j | 0 <= i < j < |records|
      ensures records[i].name != records[j].name
    {
      if records[i].name == records[j].name {
        RecordsByName(claims, addresses, zone, records[i], records[j]);
      }
    }
  }

  lemma {:induction false} NamesCounted(records: seq<RecordSet>)
    requires DistinctNames(records)
    ensures |NamesIn(records)| == |records|
  {
    if records != [] {
      var front, last := records[..|records| - 1], records[|records| - 1];
      assert records == front + [last];
      NamesCounted(front);
      assert NamesIn(records) == NamesIn(front) + {last.name};
    }
  }

  lemma RecordsCounted(claims: set<NameClaim>, addresses: map<Peer, set<IpAddr>>, zone: string,
                       records: seq<RecordSet>, conflicts: seq<Conflict>)
    requires Indexed(claims, addresses, zone, LabelsOf(claims), records, conflicts)
    ensures |records| == |SingleNames(claims)|
  {
    RecordsHaveDistinctNames(claims, addresses, zone, records);
    NamesCounted(records);
    forall n
      ensures n in NamesIn(records) <==> n in SingleNames(claims)
    {
      if r :| r in records && r.name == n {
        assert |{r.peer}| == 1;
      }
    }
    assert NamesIn(records) == SingleNames(claims);
  }

  lemma RecordsByName(claims: set<NameClaim>, addresses: map<Peer, set<IpAddr>>, zone: string, a: RecordSet, b: RecordSet)
    requires IsRecordOf(claims, addresses, zone, a) && IsRecordOf(claims, addresses, zone, b) && a.fqdn == b.fqdn
    ensures a == b
  {
    FqdnIsInjective(a.name, b.name, zone);
    assert a.peer in {b.peer};
  }

  lemma SortedIndex(claims: set<NameClaim>, addresses: map<Peer, set<IpAddr>>, zone: string,
                    records: seq<RecordSet>, conflicts: seq<Conflict>, rs: seq<RecordSet>, cs: seq<Conflict>,
                    reverse: map<string, string>)
    requires Indexed(claims, addresses, zone, LabelsOf(claims), records, conflicts)
    requires SortedPermutation(records, rs, RecordLeq) && SortedPermutation(conflicts, cs, ConflictLeq)
    ensures Indexes(claims, addresses, DnsZone(zone, rs, cs, reverse))
  {
    SameElements(records, rs);
    SameElements(conflicts, cs);
    DistinctPermutes(records, rs);
    DistinctPermutes(conflicts, cs);
    forall i, j | 0 <= i < j < |rs|
      ensures rs[i].fqdn != rs[j].fqdn
    {
      assert rs[i] in records && rs[j] in records;
      if rs[i].fqdn == rs[j].fqdn {
        RecordsByName(claims, addresses, zone, rs[i], rs[j]);
      }
    }
    forall i, j | 0 <= i < j < |cs|
      ensures cs[i].fqdn != cs[j].fqdn
    {
      assert cs[i] in conflicts && cs[j] in conflicts;
      FqdnIsInjective(cs[i].name, cs[j].name, zone);
    }
  }

  // The whole zone

  /** Everything the build checks: the configuration, the names, and the limits on addresses and records. */
  ghost predicate Buildable(config: Config, m: EffectiveMembership, hostnames: map<Peer, string>, env: Env) {
    var claims := NameClaims(config, m, hostnames, env);
    && ConfigCheck(config).Pass?
    && AllValid(claims)
    && AddressesFit(Addresses(config, m, env))
    && |SingleNames(claims)| <= MAX_DNS_RECORD_SETS
  }

  ghost predicate IsZone(config: Config, m: EffectiveMembership, hostnames: map<Peer, string>, env: Env, z: DnsZone) {
    && Buildable(config, m, hostnames, env)
    && Indexes(NameClaims(config, m, hostnames, env), Addresses(config, m, env), z)
    && z.zone == ZoneName(CanonicalLabel(config.network).value)
    && IsReverse(z.records, z.reverse)
  }

  /** The errors in the order in which the build finds them. */
  ghost predicate Refuses(config: Config, m: EffectiveMembership, hostnames: map<Peer, string>, env: Env, error: ZoneError) {
    var claims, addresses := NameClaims(config, m, hostnames, env), Addresses(config, m, env);
    if ConfigCheck(config).Fail? then error == ConfigCheck(config).error
    else if !AllValid(claims) then error.InvalidDnsName? && FirstInvalid(claims, error.error)
    else if !PeersFit(addresses) then
      && error.TooManyPeerAddresses? && error.peer in addresses
      && |addresses[error.peer]| == error.actual > MAX_DNS_ADDRESSES_PER_PEER
    else if !AddressesFit(addresses) then error == TooManyAddresses(|Entries(addresses, addresses.Keys)|)
    else error == TooManyRecordSets(|SingleNames(claims)|)
  }

  method BuildZone(config: Config, m: EffectiveMembership, hostnames: map<Peer, string>, env: Env)
    returns (result: Result<DnsZone, ZoneError>)
    ensures result.Ok? <==> Buildable(config, m, hostnames, env)
    ensures match result
      case Ok(z) => IsZone(config, m, hostnames, env, z)
      case Err(error) => Refuses(config, m, hostnames, env, error)
  {
    var check := ConfigCheck(config);
    if check.Fail? {
      return Err(check.error);
    }
    var zone := ZoneName(CanonicalLabel(config.network).value);
    var names := EffectivePeerNames(config, m, hostnames, env);
    CollectedClaims(config, m, hostnames, env, names);
    var table := InsertNames(names);
    if table.Err? {
      return Err(InvalidDnsName(table.error));
    }
    var addresses := GatherAddresses(config, m, env);
    var counts := CountAddresses(addresses);
    if counts.Fail? {
      return Err(counts.error);
    }
    ghost var claims := NameClaims(config, m, hostnames, env);
    ClaimsHaveAddresses(config, m, hostnames, env);
    result := BuildIndex(table.value, claims, addresses, zone);
  }

  lemma ClaimsHaveAddresses(config: Config, m: EffectiveMembership, hostnames: map<Peer, string>, env: Env)
    ensures forall c :: c in NameClaims(config, m, hostnames, env) ==> c.peer in Addresses(config, m, env)
  {
    forall c | c in NameClaims(config, m, hostnames, env)
      ensures c.peer in Addresses(config, m, env)
    {
      ClaimsHaveOwners(config, m, hostnames, env, c);
    }
  }

  method BuildIndex(t: Table, ghost claims: set<NameClaim>, addresses: map<Peer, set<IpAddr>>, zone: string)
    returns (result: Result<DnsZone, ZoneError>)
    requires Tabulates(claims, t)
    requires forall c :: c in claims ==> c.peer in addresses
    ensures match result
      case Ok(z) =>
        && |SingleNames(claims)| <= MAX_DNS_RECORD_SETS
        && Indexes(claims, addresses, z) && z.zone == zone && IsReverse(z.records, z.reverse)
      case Err(error) => |SingleNames(claims)| > MAX_DNS_RECORD_SETS && error == TooManyRecordSets(|SingleNames(claims)|)
  {
    var records, conflicts := IndexNames(t, claims, addresses, zone);
    RecordsCounted(claims, addresses, zone, records, conflicts);
    if |records| > MAX_DNS_RECORD_SETS {
      return Err(TooManyRecordSets(|records|));
    }
    OrdersAreTotal();
    var sortedRecords, sortedConflicts := Sort(records, RecordLeq), Sort(conflicts, ConflictLeq);
    var reverse := BuildReverse(sortedRecords);
    SortedIndex(claims, addresses, zone, records, conflicts, sortedRecords, sortedConflicts, reverse);
    return Ok(DnsZone(zone, sortedRecords, sortedConflicts, reverse));
  }

  method LookupRecord(z: DnsZone, name: string) returns (found: Option<RecordSet>)
    requires StrictlySorted(KeysOf(z.records, FqdnOf))
    ensures match found
      case Some(r) => r in z.records && r.fqdn == CanonicalFqdn(name)
      case None => forall r :: r in z.records ==> r.fqdn != CanonicalFqdn(name)
  {
    var keys := KeysOf(z.records, FqdnOf);
    var i := Search(keys, CanonicalFqdn(name));
    if i.Some? {
      return Some(z.records[i.value]);
    }
    forall r | r in z.records
      ensures r.fqdn != CanonicalFqdn(name)
    {
      var k :| 0 <= k < |z.records| && z.records[k] == r;
      assert keys[k] in keys;
    }
    return None;
  }

  method LookupConflict(z: DnsZone, name: string) returns (found: Option<Conflict>)
    requires StrictlySorted(KeysOf(z.conflicts, ConflictFqdnOf))
    ensures match found
      case Some(c) => c in z.conflicts && c.fqdn == CanonicalFqdn(name)
      case None => forall c :: c in z.conflicts ==> c.fqdn != CanonicalFqdn(name)
  {
    var keys := KeysOf(z.conflicts, ConflictFqdnOf);
    var i := Search(keys, CanonicalFqdn(name));
    if i.Some? {
      return Some(z.conflicts[i.value]);
    }
    forall c | c in z.conflicts
      ensures c.fqdn != CanonicalFqdn(name)
    {
      var k :| 0 <= k < |z.conflicts| && z.conflicts[k] == c;
      assert keys[k] in keys;
    }
    return None;
  }

  // What the zone promises

  ghost predicate AnswersFor(z: DnsZone, full: string, claim: NameClaim) {
    exists r :: r in z.records && r.fqdn == full && r.peer == claim.peer && claim.source in r.sources
  }

  ghost predicate ConflictsFor(z: DnsZone, full: string, claim: NameClaim) {
    exists c :: c in z.conflicts && c.fqdn == full && claim.peer in c.peers && |c.peers| >= 2
  }

  lemma RecordsExcludeConflicts(claims: set<NameClaim>, addresses: map<Peer, set<IpAddr>>, z: DnsZone, r: RecordSet,
                                c: Conflict)
    requires Indexes(claims, addresses, z) && r in z.records && c in z.conflicts
    ensures r.fqdn != c.fqdn
  {
    FqdnIsInjective(r.name, c.name, z.zone);
    assert |{r.peer}| == 1;
  }

  lemma IndexedOnce(claims: set<NameClaim>, addresses: map<Peer, set<IpAddr>>, z: DnsZone, claim: NameClaim)
    requires Indexes(claims, addresses, z) && claim in claims
    ensures var full := Fqdn(Lower(claim.name), z.zone); AnswersFor(z, full, claim) <==> !ConflictsFor(z, full, claim)
  {
    var name := Lower(claim.name);
    var full := Fqdn(name, z.zone);
    assert claim.peer in OwnersOf(claims, name) && claim.source in SourcesOf(claims, name, claim.peer);
    assert name in LabelsOf(claims);
    if r :| r in z.records && r.name == name {
      assert r.fqdn == full && r.peer == claim.peer;
      forall c | c in z.conflicts
        ensures c.fqdn != full
      {
        RecordsExcludeConflicts(claims, addresses, z, r, c);
      }
    } else {
      var c :| c in z.conflicts && c.name == name;
      assert c.fqdn == full;
      forall r | r in z.records
        ensures r.fqdn != full
      {
        RecordsExcludeConflicts(claims, addresses, z, r, c);
      }
    }
  }

  /** Every claimed name answers with its owner or is reported as a conflict of several, and never both. */
  lemma EveryNameIsIndexedOnce(config: Config, m: EffectiveMembership, hostnames: map<Peer, string>, env: Env,
                               z: DnsZone, claim: NameClaim)
    requires IsZone(config, m, hostnames, env, z) && claim in NameClaims(config, m, hostnames, env)
    ensures var full := Fqdn(Lower(claim.name), z.zone);
      CanonicalFqdn(full) == full && (AnswersFor(z, full, claim) <==> !ConflictsFor(z, full, claim))
  {
    FqdnIsCanonical(Lower(claim.name), CanonicalLabel(config.network).value);
    IndexedOnce(NameClaims(config, m, hostnames, env), Addresses(config, m, env), z, claim);
  }

  lemma RecordsCarryPeerAddresses(claims: set<NameClaim>, addresses: map<Peer, set<IpAddr>>, z: DnsZone)
    requires Indexes(claims, addresses, z)
    ensures OneAddressSetPerPeer(z.records)
  {}

  /**
   A reverse lookup finds exactly the addresses of the zone's records, and answers with a record that owns the
   address, the first friendly one of its peer if it has a friendly record.
   */
  lemma ReverseLookupOwnsAddress(config: Config, m: EffectiveMembership, hostnames: map<Peer, string>, env: Env,
                                 z: DnsZone, address: IpAddr)
    requires IsZone(config, m, hostnames, env, z)
    ensures ReverseName(address) in z.reverse <==> exists r :: r in z.records && address in r.addresses
    ensures ReverseName(address) in z.reverse ==>
      exists r ::
        && r in z.records && address in r.addresses && Preferred(z.records, r)
        && r.fqdn == z.reverse[ReverseName(address)]
  {
    RecordsCarryPeerAddresses(NameClaims(config, m, hostnames, env), Addresses(config, m, env), z);
    ReverseIsSound(z.records, z.reverse);
    ReverseIsComplete(z.records, z.reverse);
    if ReverseName(address) in z.reverse {
      OwnerOfEntry(z.records, address, z.reverse[ReverseName(address)]);
    }
  }

  lemma OwnerOfEntry(records: seq<RecordSet>, address: IpAddr, target: string)
    requires ReverseEntry(records, ReverseName(address), target)
    ensures exists r :: r in records && address in r.addresses && Preferred(records, r) && r.fqdn == target
  {
    var r, a :| r in records && a in r.addresses && Preferred(records, r)
      && ReverseName(address) == ReverseName(a) && target == r.fqdn;
    ReverseNameIsInjective(address, a);
  }

  lemma InactiveOwnsNothing(config: Config, e: Ledger.Evaluation, p: Peer)
    requires p in e.states && !e.states[p].active && p != config.localPeer
    ensures p !in Owners(config, Project(e))
  {
    var m := Project(e);
    assert p in m.governed && p !in m.members;
    assert !m.AuthorizesConfigured(p);
  }

  /**
   DNS follows membership: a peer with ledger history that is not active, unless it is the local one, owns no
   record and is in no conflict.
   */
  lemma InactiveMemberHasNoNames(config: Config, e: Ledger.Evaluation, hostnames: map<Peer, string>, env: Env,
                                 z: DnsZone, p: Peer)
    requires IsZone(config, Project(e), hostnames, env, z)
    requires p in e.states && !e.states[p].active && p != config.localPeer
    ensures forall r :: r in z.records ==> r.peer != p
    ensures forall c :: c in z.conflicts ==> p !in c.peers
  {
    InactiveOwnsNothing(config, e, p);
    IndexedPeersOwn(config, Project(e), hostnames, env, z);
  }

  lemma IndexedPeersOwn(config: Config, m: EffectiveMembership, hostnames: map<Peer, string>, env: Env, z: DnsZone)
    requires IsZone(config, m, hostnames, env, z)
    ensures forall r :: r in z.records ==> r.peer in Owners(config, m)
    ensures forall c :: c in z.conflicts ==> c.peers <= Owners(config, m)
  {
    var claims := NameClaims(config, m, hostnames, env);
    forall name, p | p in OwnersOf(claims, name)
      ensures p in Owners(config, m)
    {
      var c :| c in claims && c.peer == p;
      ClaimsHaveOwners(config, m, hostnames, env, c);
    }
    forall r | r in z.records
      ensures r.peer in Owners(config, m)
    {
      assert r.peer in OwnersOf(claims, r.name);
    }
  }
}
