/**
 Signed membership records: their fields, the two orders the ledger sorts and compares them by,
 and the checks a record passes before it is stored.

 Peer identities and signatures are integers: the program only compares them, and every finite set
 of strings embeds in the integers with its order. Public keys are left out because a verified
 record binds each key to its peer identity.
 */
module Records {
  import opened Prelude
  import opened Net

  type Peer = int

  type Signature = int

  lemma SomePeer(peers: set<Peer>)
    ensures peers == {} || exists p :: p in peers
  {
    if !exists p :: p in peers {
      assert peers == {};
    }
  }

  type U64 = x: int | 0 <= x <= U64_MAX

  const U64_MAX: int := 0xFFFF_FFFF_FFFF_FFFF
  const MEMBERSHIP_RECORD_VERSION := 1
  const MAX_MEMBERSHIP_RECORD_INTEGER := 0x7FFF_FFFF_FFFF_FFFF
  const MAX_MEMBERSHIP_RECORDS := 256
  const MAX_MEMBERSHIP_CLOCK_SKEW_SECONDS := 60

  datatype Role = OverlayMember | RouteAuthority

  datatype Record = Record(
    version: nat,
    network: string,
    member: Peer,
    issuer: Peer,
    epoch: nat,
    sequence: nat,
    revoked: bool,
    hostname: Option<string>,
    roles: seq<Role>,
    routes: seq<Route>,
    issuedAt: nat,
    expiresAt: Option<nat>,
    signature: Signature)
  {
    predicate ExpiredAt(now: nat) {
      expiresAt.Some? && now >= expiresAt.value
    }

    predicate SelfIssued() {
      issuer == member
    }

    /** A grant that makes its subject an active member. */
    predicate IsAdmission() {
      !revoked && OverlayMember in roles
    }
  }

  datatype RecordError =
    | UnsupportedVersion
    | EmptyNetworkName
    | InvalidMembershipEpoch
    | IntegerOutOfRange
    | RevocationCarriesAuthority
    | RevocationExpires
    | MissingRoles
    | InvalidHostname(name: NameError)
    | ExpiredBeforeIssued
    | InvalidSignature
    | NetworkMismatch
    | IssuedInFuture
    | RecordExpired
    | TooManyRecords(max: nat, actual: nat)
    | ConflictingRecordVersion(issuer: Peer, member: Peer, epoch: nat, sequence: nat)
    | UntrustedIssuer(issuer: Peer)

  // Orders

  function Compare(a: int, b: int): int {
    if a < b then -1 else if a == b then 0 else 1
  }

  function Bit(b: bool): int {
    if b then 1 else 0
  }

  function Then(first: int, second: int): int {
    if first != 0 then first else second
  }

  function CompareVersions(a: Record, b: Record): int {
    Then(Compare(a.epoch, b.epoch), Compare(a.sequence, b.sequence))
  }

  /** The seven-key order in which the ledger replays events. */
  function EventOrder(a: Record, b: Record): int {
    Then(Compare(a.issuedAt, b.issuedAt),
    Then(Compare(Bit(a.revoked), Bit(b.revoked)),
    Then(Compare(Bit(!a.SelfIssued()), Bit(!b.SelfIssued())),
    Then(CompareVersions(a, b),
    Then(Compare(a.issuer, b.issuer),
    Then(Compare(a.member, b.member),
         Compare(a.signature, b.signature)))))))
  }

  /** The precedence of two events about one member: (epoch, sequence, revoked, issuer, signature). */
  function Precedence(a: Record, b: Record): int {
    Then(CompareVersions(a, b),
    Then(Compare(Bit(a.revoked), Bit(b.revoked)),
    Then(Compare(a.issuer, b.issuer),
         Compare(a.signature, b.signature))))
  }

  predicate Outranks(a: Record, b: Record) {
    Precedence(a, b) > 0
  }

  predicate NewerVersion(a: Record, b: Record) {
    CompareVersions(a, b) > 0
  }

  predicate SameSlot(a: Record, b: Record) {
    a.issuer == b.issuer && a.member == b.member && a.epoch == b.epoch && a.sequence == b.sequence
  }

  /** No two different records claim one version of one (issuer, member) pair. */
  ghost predicate VersionUnique(records: seq<Record>) {
    forall i, j :: 0 <= i < |records| && 0 <= j < |records| && SameSlot(records[i], records[j])
      ==> records[i] == records[j]
  }

  lemma OutranksIsStrictOrder(a: Record, b: Record, c: Record)
    ensures !Outranks(a, a)
    ensures Outranks(a, b) && Outranks(b, c) ==> Outranks(a, c)
    ensures Outranks(a, b) && !Outranks(c, b) ==> Outranks(a, c)
    ensures !Outranks(b, a) && !Outranks(c, b) ==> !Outranks(c, a)
  {}

  predicate Tied(a: Record, b: Record) {
    EventOrder(a, b) <= 0 && EventOrder(b, a) <= 0
  }

  /** The replay order decides between any two different records of the list. */
  ghost predicate Tieless(records: seq<Record>) {
    forall i, j :: 0 <= i < |records| && 0 <= j < |records| && Tied(records[i], records[j])
      ==> records[i] == records[j]
  }

  /** Only records of one slot tie in the replay order, and only if they carry the same signature. */
  lemma EventOrderTies(a: Record, b: Record)
    ensures Tied(a, b) <==>
      SameSlot(a, b) && a.issuedAt == b.issuedAt && a.revoked == b.revoked && a.signature == b.signature
  {}

  lemma UniqueIsTieless(records: seq<Record>)
    requires VersionUnique(records)
    ensures Tieless(records)
  {
    forall i, j | 0 <= i < |records| && 0 <= j < |records| && Tied(records[i], records[j])
      ensures records[i] == records[j]
    {
      EventOrderTies(records[i], records[j]);
    }
  }

  // Checks

  function ValidatePayload(r: Record): (o: Outcome<RecordError>)
    ensures o.Pass? <==>
      && r.version == MEMBERSHIP_RECORD_VERSION && r.network != ""
      && 0 < r.epoch <= MAX_MEMBERSHIP_RECORD_INTEGER && r.sequence <= MAX_MEMBERSHIP_RECORD_INTEGER
      && r.issuedAt <= MAX_MEMBERSHIP_RECORD_INTEGER
      && (r.expiresAt.Some? ==> r.issuedAt < r.expiresAt.value <= MAX_MEMBERSHIP_RECORD_INTEGER)
      && (r.hostname.Some? ==> CanonicalLabel(r.hostname.value).Ok?)
      && (if r.revoked then r.hostname.None? && r.roles == [] && r.routes == [] && r.expiresAt.None? else r.roles != [])
  {
    if r.version != MEMBERSHIP_RECORD_VERSION then Fail(UnsupportedVersion)
    else if r.network == "" then Fail(EmptyNetworkName)
    else if r.epoch == 0 then Fail(InvalidMembershipEpoch)
    else if r.epoch > MAX_MEMBERSHIP_RECORD_INTEGER || r.sequence > MAX_MEMBERSHIP_RECORD_INTEGER
            || r.issuedAt > MAX_MEMBERSHIP_RECORD_INTEGER then Fail(IntegerOutOfRange)
    else if r.revoked && (r.hostname.Some? || r.roles != [] || r.routes != []) then
      Fail(RevocationCarriesAuthority)
    else if r.revoked && r.expiresAt.Some? then Fail(RevocationExpires)
    else if !r.revoked && r.roles == [] then Fail(MissingRoles)
    else if r.hostname.Some? && CanonicalLabel(r.hostname.value).Err? then
      Fail(InvalidHostname(CanonicalLabel(r.hostname.value).error))
    else if r.expiresAt.Some? && r.expiresAt.value > MAX_MEMBERSHIP_RECORD_INTEGER then
      Fail(IntegerOutOfRange)
    else if r.expiresAt.Some? && r.expiresAt.value <= r.issuedAt then Fail(ExpiredBeforeIssued)
    else Pass
  }

  /** `signed` stands for the encoded-length, key-binding and signature checks of the libraries. */
  function Verify(r: Record, signed: Record -> bool): Outcome<RecordError> {
    if ValidatePayload(r).Fail? then ValidatePayload(r)
    else if !signed(r) then Fail(InvalidSignature)
    else Pass
  }

  function CheckRecord(r: Record, network: string, signed: Record -> bool): Outcome<RecordError> {
    if r.network != network then Fail(NetworkMismatch) else Verify(r, signed)
  }

  /** The first failing record of a list decides the error. */
  function CheckRecords(records: seq<Record>, network: string, signed: Record -> bool)
    : (o: Outcome<RecordError>)
    ensures o.Pass? <==> forall i :: 0 <= i < |records| ==> CheckRecord(records[i], network, signed).Pass?
  {
    if records == [] then Pass
    else if CheckRecord(records[0], network, signed).Fail? then CheckRecord(records[0], network, signed)
    else CheckRecords(records[1..], network, signed)
  }

  /** `now` plus the clock skew, saturating at the largest 64-bit value. */
  function Horizon(now: U64): U64 {
    if now + MAX_MEMBERSHIP_CLOCK_SKEW_SECONDS > U64_MAX then U64_MAX
    else now + MAX_MEMBERSHIP_CLOCK_SKEW_SECONDS
  }

  /** Every grant outlives its own issue second. */
  ghost predicate OutlivesIssue(r: Record) {
    !r.ExpiredAt(r.issuedAt)
  }

  /** One signature of one issuer is not the signature of two records. */
  ghost predicate SignaturesBind(signed: Record -> bool) {
    forall a, b :: signed(a) && signed(b) && a.issuer == b.issuer && a.signature == b.signature ==> a == b
  }

  /** Records that pass their checks never tie, whatever versions they claim. */
  lemma SignedRecordsAreTieless(records: seq<Record>, network: string, signed: Record -> bool)
    requires SignaturesBind(signed) && CheckRecords(records, network, signed).Pass?
    ensures Tieless(records)
  {
    forall i, j | 0 <= i < |records| && 0 <= j < |records| && Tied(records[i], records[j])
      ensures records[i] == records[j]
    {
      EventOrderTies(records[i], records[j]);
      assert CheckRecord(records[i], network, signed).Pass? && CheckRecord(records[j], network, signed).Pass?;
    }
  }
}
