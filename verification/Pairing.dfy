/** Applying a pairing response to a configuration. */
module Pairing {
  import opened Prelude
  import opened Net
  import opened Records
  import opened Anchors
  import opened TrustPath

  const MAX_PAIRING_MEMBERSHIP_RECORDS := 16

  datatype AcceptanceMode = FileBearer | CodeApproval

  datatype Offer = Offer(network: string, inviter: Peer, mode: AcceptanceMode)

  datatype Response = Response(
    network: string,
    inviter: Peer,
    joiner: Peer,
    assignedVpnIp: Option<IpAddr>,
    membershipKey: Option<string>,
    memberRecords: seq<Record>,
    checkpoint: bool)

  datatype Config = Config(
    localPeer: Peer,
    membershipKey: Option<string>,
    vpnIp: Option<IpAddr>,
    memberRecords: seq<Record>)

  datatype PairingError =
    | LocalIdentityMismatch
    | LocalPeerNotParticipant
    | InvalidEnvelope
    | InvalidPairingSignature
    | InvalidRecord(error: RecordError)
    | CheckpointEnrollmentRequired
    | TooManyMembershipRecords(count: nat)
    | MissingInviterTrustRoot
    | UnexpectedInviterTrustRoot(actual: Peer)
    | MembershipIssuerMismatch(actual: Peer)
    | MissingMembershipGrant
    | AssignedVpnIpNotAuthorized
    | LegacyMembershipMigrationRequired
    | ConflictingMembershipKey
    | ConflictingAssignedVpnIp
    | ConflictingMembershipRecord(issuer: Peer, member: Peer)
    | InvalidRuntimeConfig

  /**
   The checks of other components, as functions of their arguments: record signatures, the message fields
   and sizes of offer and response, the response signature, runtime validation, and address rules.
   */
  datatype Env = Env(
    signed: Record -> bool,
    envelope: (Offer, Response, Peer, nat) -> bool,
    signature: Response -> bool,
    runtimeValid: Config -> bool,
    builtin: Peer -> set<IpAddr>,
    covers: (Route, IpAddr) -> bool)

  // Checks over the response's records

  function TimesCheck(records: seq<Record>, now: U64): Outcome<PairingError> {
    if records == [] then Pass
    else if records[0].issuedAt > Horizon(now) then Fail(InvalidRecord(IssuedInFuture))
    else if records[0].ExpiredAt(now) then Fail(InvalidRecord(RecordExpired))
    else TimesCheck(records[1..], now)
  }

  predicate Matches(r: Record, issuer: Option<Peer>, member: Peer) {
    r.member == member && (issuer.Some? ==> r.issuer == issuer.value)
  }

  /** The newest record with the given subject, and issuer if one is given; the last of equally new ones. */
  function LatestOf(records: seq<Record>, issuer: Option<Peer>, member: Peer): (r: Option<Record>)
    ensures r.Some? ==> r.value in records && Matches(r.value, issuer, member)
    ensures forall x :: x in records && Matches(x, issuer, member) ==> r.Some? && !NewerVersion(x, r.value)
  {
    if records == [] then None
    else
      var last, earlier := records[|records| - 1], LatestOf(records[..|records| - 1], issuer, member);
      assert records == records[..|records| - 1] + [last];
      if Matches(last, issuer, member) && (earlier.Some? ==> !NewerVersion(earlier.value, last))
      then Some(last) else earlier
  }

  function FirstOtherRoot(records: seq<Record>, root: Peer): (r: Option<Peer>)
    ensures r.None? <==> forall x :: x in records && x.SelfIssued() ==> x.member == root
  {
    if records == [] then None
    else if records[0].SelfIssued() && records[0].member != root then Some(records[0].member)
    else FirstOtherRoot(records[1..], root)
  }

  predicate HasSelfIssued(records: seq<Record>) {
    exists r :: r in records && r.SelfIssued()
  }

  function AssignedIpCheck(response: Response, grant: Record, env: Env): Outcome<PairingError> {
    match response.assignedVpnIp
    case None => Pass
    case Some(ip) =>
      if ip in env.builtin(response.joiner)
         || (RouteAuthority in grant.roles && exists route :: route in grant.routes && env.covers(route, ip))
      then Pass else Fail(AssignedVpnIpNotAuthorized)
  }

  function JoinerCheck(response: Response, env: Env): Outcome<PairingError> {
    var records := response.memberRecords;
    match LatestOf(records, Some(response.inviter), response.joiner)
    case Some(grant) =>
      if grant.IsAdmission() then AssignedIpCheck(response, grant, env) else NoGrant(response)
    case None => NoGrant(response)
  }

  function NoGrant(response: Response): Outcome<PairingError> {
    match LatestOf(response.memberRecords, None, response.joiner)
    case Some(r) => if r.revoked then Fail(MissingMembershipGrant) else Fail(MembershipIssuerMismatch(r.issuer))
    case None => Fail(MissingMembershipGrant)
  }

  function FirstOf(path: seq<Record>): Option<Record> {
    if path == [] then None else Some(path[0])
  }

  /** The first record of the inviter's trust path. */
  ghost function ResponseRoot(response: Response, now: nat): (root: Option<Record>)
    ensures root.None? <==> TrustPathOf(response.memberRecords, response.inviter, now).None?
    ensures root.Some? ==> Some(root.value) == FirstOf(TrustPathOf(response.memberRecords, response.inviter, now).value)
  {
    match TrustPathOf(response.memberRecords, response.inviter, now)
    case None => None
    case Some(path) =>
      TrustPathDelegates(response.memberRecords, response.inviter, now, path);
      Some(path[0])
  }

  ghost function CodeCheck(offer: Offer, response: Response, now: U64, env: Env): Outcome<PairingError> {
    var records := response.memberRecords;
    if offer.mode != CodeApproval then Pass
    else if |records| > MAX_PAIRING_MEMBERSHIP_RECORDS then Fail(TooManyMembershipRecords(|records|))
    else if !HasSelfIssued(records) then Fail(MissingInviterTrustRoot)
    else if HistoryCheck(records, NetworkOf(records), env.signed).Fail? then
      Fail(InvalidRecord(HistoryCheck(records, NetworkOf(records), env.signed).error))
    else match ResponseRoot(response, now)
      case None => Fail(MissingInviterTrustRoot)
      case Some(root) =>
        match FirstOtherRoot(records, root.member)
        case Some(other) => Fail(UnexpectedInviterTrustRoot(other))
        case None => JoinerCheck(response, env)
  }

  predicate HasJoinerRecord(response: Response) {
    exists r :: r in response.memberRecords && r.member == response.joiner && r.IsAdmission()
  }

  ghost function PayloadCheck(offer: Offer, response: Response, local: Peer, now: U64, env: Env): Outcome<PairingError> {
    var history := HistoryCheck(response.memberRecords, response.network, env.signed);
    if !env.envelope(offer, response, local, now) then Fail(InvalidEnvelope)
    else if response.checkpoint then Pass
    else if history.Fail? then Fail(InvalidRecord(history.error))
    else if TimesCheck(response.memberRecords, now).Fail? then TimesCheck(response.memberRecords, now)
    else if CodeCheck(offer, response, now, env).Fail? then CodeCheck(offer, response, now, env)
    else if response.membershipKey.None? && !HasJoinerRecord(response) then Fail(MissingMembershipGrant)
    else Pass
  }

  // Checks against the configuration

  /** The members of the self-issued admissions. */
  function TrustRoots(records: seq<Record>): set<Peer> {
    set r | r in records && r.SelfIssued() && r.IsAdmission() :: r.member
  }

  ghost function RootCheck(base: Config, offer: Offer, response: Response, now: U64, env: Env): Outcome<PairingError> {
    var known := base.memberRecords;
    if offer.mode != CodeApproval then Pass
    else if !HasSelfIssued(known) then
      if exists r :: r in known && r.issuer != response.inviter then Fail(LegacyMembershipMigrationRequired) else Pass
    else if TrustRoots(known) == {} then Fail(MissingInviterTrustRoot)
    else if HistoryCheck(response.memberRecords, NetworkOf(response.memberRecords), env.signed).Fail? then
      Fail(InvalidRecord(HistoryCheck(response.memberRecords, NetworkOf(response.memberRecords), env.signed).error))
    else match ResponseRoot(response, now)
      case None => Fail(MissingInviterTrustRoot)
      case Some(root) =>
        if root.member in TrustRoots(known) then Pass else Fail(UnexpectedInviterTrustRoot(root.member))
  }

  // Updates

  function Adopt<T(==)>(current: Option<T>, incoming: Option<T>, conflict: PairingError): Result<Option<T>, PairingError> {
    if current.Some? && incoming.Some? && current.value != incoming.value then Err(conflict)
    else if current.None? then Ok(incoming)
    else Ok(current)
  }

  function UpsertRecord(records: seq<Record>, r: Record): Result<seq<Record>, PairingError> {
    if r in records then Ok(records)
    else if exists x :: x in records && SameSlot(x, r) then Err(ConflictingMembershipRecord(r.issuer, r.member))
    else Ok(records + [r])
  }

  function UpsertRecords(records: seq<Record>, incoming: seq<Record>): Result<seq<Record>, PairingError>
    decreases |incoming|
  {
    if incoming == [] then Ok(records)
    else match UpsertRecord(records, incoming[0])
      case Err(error) => Err(error)
      case Ok(next) => UpsertRecords(next, incoming[1..])
  }

  function Adopted(base: Config, response: Response, local: Peer): Result<Config, PairingError> {
    match Adopt(base.membershipKey, response.membershipKey, ConflictingMembershipKey)
    case Err(error) => Err(error)
    case Ok(key) =>
      match (if local == response.joiner then Adopt(base.vpnIp, response.assignedVpnIp, ConflictingAssignedVpnIp) else Ok(base.vpnIp))
      case Err(error) => Err(error)
      case Ok(ip) =>
        match UpsertRecords(base.memberRecords, response.memberRecords)
        case Err(error) => Err(error)
        case Ok(records) => Ok(base.(membershipKey := key, vpnIp := ip, memberRecords := records))
  }

  /** The configuration after applying a response, or the first error. */
  ghost function Applied(base: Config, offer: Offer, response: Response, local: Peer, now: U64, env: Env)
    : Result<Config, PairingError>
  {
    if base.localPeer != local then Err(LocalIdentityMismatch)
    else if local != response.joiner && local != response.inviter then Err(LocalPeerNotParticipant)
    else if PayloadCheck(offer, response, local, now, env).Fail? then Err(PayloadCheck(offer, response, local, now, env).error)
    else if !env.signature(response) then Err(InvalidPairingSignature)
    else if response.checkpoint then Err(CheckpointEnrollmentRequired)
    else if |response.memberRecords| > MAX_PAIRING_MEMBERSHIP_RECORDS then Err(TooManyMembershipRecords(|response.memberRecords|))
    else if RootCheck(base, offer, response, now, env).Fail? then Err(RootCheck(base, offer, response, now, env).error)
    else match Adopted(base, response, local)
      case Err(error) => Err(error)
      case Ok(next) => if env.runtimeValid(next) then Ok(next) else Err(InvalidRuntimeConfig)
  }

  // The operations

  method CheckCode(offer: Offer, response: Response, now: U64, env: Env) returns (o: Outcome<PairingError>)
    ensures o == CodeCheck(offer, response, now, env)
  {
    var records := response.memberRecords;
    if offer.mode != CodeApproval {
      return Pass;
    }
    if |records| > MAX_PAIRING_MEMBERSHIP_RECORDS {
      return Fail(TooManyMembershipRecords(|records|));
    }
    if !HasSelfIssued(records) {
      return Fail(MissingInviterTrustRoot);
    }
    var walk := OverlayTrustPath(records, response.inviter, now, env.signed);
    if walk.Err? {
      return Fail(InvalidRecord(walk.error));
    }
    if walk.value.None? {
      return Fail(MissingInviterTrustRoot);
    }
    var path := walk.value.value;
    TrustPathDelegates(records, response.inviter, now, path);
    var other := FirstOtherRoot(records, path[0].member);
    if other.Some? {
      return Fail(UnexpectedInviterTrustRoot(other.value));
    }
    return JoinerCheck(response, env);
  }

  method CheckRoot(base: Config, offer: Offer, response: Response, now: U64, env: Env) returns (o: Outcome<PairingError>)
    ensures o == RootCheck(base, offer, response, now, env)
  {
    var known := base.memberRecords;
    if offer.mode != CodeApproval {
      return Pass;
    }
    if !HasSelfIssued(known) {
      if exists r :: r in known && r.issuer != response.inviter {
        return Fail(LegacyMembershipMigrationRequired);
      }
      return Pass;
    }
    var roots := TrustRoots(known);
    if roots == {} {
      return Fail(MissingInviterTrustRoot);
    }
    var walk := OverlayTrustPath(response.memberRecords, response.inviter, now, env.signed);
    if walk.Err? {
      return Fail(InvalidRecord(walk.error));
    }
    if walk.value.None? {
      return Fail(MissingInviterTrustRoot);
    }
    var path := walk.value.value;
    TrustPathDelegates(response.memberRecords, response.inviter, now, path);
    if path[0].member in roots {
      return Pass;
    }
    return Fail(UnexpectedInviterTrustRoot(path[0].member));
  }

  method AddRecords(records: seq<Record>, incoming: seq<Record>) returns (result: Result<seq<Record>, PairingError>)
    ensures result == UpsertRecords(records, incoming)
  {
    var next := records;
    for i := 0 to |incoming|
      invariant UpsertRecords(records, incoming) == UpsertRecords(next, incoming[i..])
    {
      assert incoming[i..][0] == incoming[i] && incoming[i..][1..] == incoming[i + 1..];
      if incoming[i] !in next {
        if exists x :: x in next && SameSlot(x, incoming[i]) {
          return Err(ConflictingMembershipRecord(incoming[i].issuer, incoming[i].member));
        }
        next := next + [incoming[i]];
      }
    }
    return Ok(next);
  }

  method CheckPayload(offer: Offer, response: Response, local: Peer, now: U64, env: Env) returns (o: Outcome<PairingError>)
    ensures o == PayloadCheck(offer, response, local, now, env)
  {
    if !env.envelope(offer, response, local, now) {
      return Fail(InvalidEnvelope);
    }
    if response.checkpoint {
      return Pass;
    }
    var history := HistoryCheck(response.memberRecords, response.network, env.signed);
    if history.Fail? {
      return Fail(InvalidRecord(history.error));
    }
    var times := TimesCheck(response.memberRecords, now);
    if times.Fail? {
      return times;
    }
    var code := CheckCode(offer, response, now, env);
    if code.Fail? {
      return code;
    }
    if response.membershipKey.None? && !HasJoinerRecord(response) {
      return Fail(MissingMembershipGrant);
    }
    return Pass;
  }

  method ApplyResponse(base: Config, offer: Offer, response: Response, local: Peer, now: U64, env: Env)
    returns (result: Result<Config, PairingError>)
    ensures result == Applied(base, offer, response, local, now, env)
  {
    if base.localPeer != local {
      return Err(LocalIdentityMismatch);
    }
    if local != response.joiner && local != response.inviter {
      return Err(LocalPeerNotParticipant);
    }
    var payload := CheckPayload(offer, response, local, now, env);
    if payload.Fail? {
      return Err(payload.error);
    }
    if !env.signature(response) {
      return Err(InvalidPairingSignature);
    }
    if response.checkpoint {
      return Err(CheckpointEnrollmentRequired);
    }
    if |response.memberRecords| > MAX_PAIRING_MEMBERSHIP_RECORDS {
      return Err(TooManyMembershipRecords(|response.memberRecords|));
    }
    var root := CheckRoot(base, offer, response, now, env);
    if root.Fail? {
      return Err(root.error);
    }
    var next := base;
    var key := Adopt(next.membershipKey, response.membershipKey, ConflictingMembershipKey);
    if key.Err? {
      return Err(key.error);
    }
    next := next.(membershipKey := key.value);
    if local == response.joiner {
      var ip := Adopt(next.vpnIp, response.assignedVpnIp, ConflictingAssignedVpnIp);
      if ip.Err? {
        return Err(ip.error);
      }
      next := next.(vpnIp := ip.value);
    }
    var records := AddRecords(next.memberRecords, response.memberRecords);
    if records.Err? {
      return Err(records.error);
    }
    next := next.(memberRecords := records.value);
    if !env.runtimeValid(next) {
      return Err(InvalidRuntimeConfig);
    }
    return Ok(next);
  }

  // What a successful application guarantees

  lemma PathToInviter(response: Response, now: nat) returns (path: seq<Record>)
    requires ResponseRoot(response, now).Some?
    ensures TrustPathOf(response.memberRecords, response.inviter, now) == Some(path)
    ensures Delegates(path, AnchorsOf(response.memberRecords)) && path[0] == ResponseRoot(response, now).value
    ensures path[|path| - 1].member == response.inviter && forall r :: r in path ==> r in response.memberRecords
  {
    path := TrustPathOf(response.memberRecords, response.inviter, now).value;
    TrustPathDelegates(response.memberRecords, response.inviter, now, path);
  }

  lemma OneSelfIssuer(records: seq<Record>, root: Record)
    requires root in records && root.issuer in AnchorsOf(records) && HasSelfIssued(records)
    requires FirstOtherRoot(records, root.member).None?
    ensures root.SelfIssued() && SelfIssuers(records) == {root.member}
  {
    var own :| own in records && own.SelfIssued();
    assert own.issuer in SelfIssuers(records);
    assert root.issuer in SelfIssuers(records);
  }

  lemma CodeParts(offer: Offer, response: Response, now: U64, env: Env)
    requires offer.mode == CodeApproval && CodeCheck(offer, response, now, env).Pass?
    ensures |response.memberRecords| <= MAX_PAIRING_MEMBERSHIP_RECORDS && HasSelfIssued(response.memberRecords)
    ensures ResponseRoot(response, now).Some? && JoinerCheck(response, env).Pass?
    ensures FirstOtherRoot(response.memberRecords, ResponseRoot(response, now).value.member).None?
  {}

  lemma RootIsOnly(response: Response, now: U64)
    requires HasSelfIssued(response.memberRecords) && ResponseRoot(response, now).Some?
    requires FirstOtherRoot(response.memberRecords, ResponseRoot(response, now).value.member).None?
    ensures var root := ResponseRoot(response, now).value;
      && root in response.memberRecords && root.SelfIssued() && root.IsAdmission()
      && SelfIssuers(response.memberRecords) == {root.member}
  {
    var path := PathToInviter(response, now);
    OneSelfIssuer(response.memberRecords, path[0]);
  }

  /** A validated code-approval response has one self-issuing peer, and its trust path starts with that peer's own grant. */
  lemma ValidatedResponseHasOneRoot(offer: Offer, response: Response, now: U64, env: Env)
    requires offer.mode == CodeApproval && CodeCheck(offer, response, now, env).Pass?
    ensures ResponseRoot(response, now).Some?
    ensures var root := ResponseRoot(response, now).value;
      && root in response.memberRecords && root.SelfIssued() && root.IsAdmission()
      && SelfIssuers(response.memberRecords) == {root.member}
  {
    CodeParts(offer, response, now, env);
    RootIsOnly(response, now);
  }

  lemma {:induction false} TimesHold(records: seq<Record>, now: U64)
    ensures TimesCheck(records, now).Pass? <==>
      forall r :: r in records ==> r.issuedAt <= Horizon(now) && !r.ExpiredAt(now)
  {
    if records != [] {
      assert records == [records[0]] + records[1..];
      TimesHold(records[1..], now);
    }
  }

  /** The inviter's newest record about the joiner admits it, and backs the address assigned to it. */
  ghost predicate JoinerGranted(response: Response, env: Env) {
    exists grant ::
      && grant in response.memberRecords && grant.issuer == response.inviter && grant.member == response.joiner
      && grant.IsAdmission()
      && (forall x :: x in response.memberRecords && x.issuer == response.inviter && x.member == response.joiner ==>
            !NewerVersion(x, grant))
      && (response.assignedVpnIp.Some? ==>
            || response.assignedVpnIp.value in env.builtin(response.joiner)
            || (RouteAuthority in grant.roles
                && exists route :: route in grant.routes && env.covers(route, response.assignedVpnIp.value)))
  }

  lemma JoinerHasGrant(response: Response, env: Env)
    requires JoinerCheck(response, env).Pass?
    ensures JoinerGranted(response, env)
  {
    var grant := LatestOf(response.memberRecords, Some(response.inviter), response.joiner).value;
    forall x | x in response.memberRecords && x.issuer == response.inviter && x.member == response.joiner
      ensures !NewerVersion(x, grant)
    {
      assert Matches(x, Some(response.inviter), response.joiner);
    }
  }

  /** The only self-issuing peer delegates to the inviter by records of the response. */
  ghost predicate RootsInviter(response: Response, path: seq<Record>, root: Peer) {
    && SelfIssuers(response.memberRecords) == {root} && Delegates(path, {root})
    && path[0].member == root && path[|path| - 1].member == response.inviter
    && (forall r :: r in path ==> r in response.memberRecords)
  }

  /**
   What a passing payload means. Every record is verified for the response's network, not ahead of the clock by
   more than the skew and not expired; without a shared key the joiner is admitted; and by code approval there is
   one root, the inviter's delegation from it, and the inviter's newest record about the joiner admits it.
   */
  lemma PassingPayload(offer: Offer, response: Response, local: Peer, now: U64, env: Env)
    requires PayloadCheck(offer, response, local, now, env).Pass? && !response.checkpoint
    ensures forall r :: r in response.memberRecords ==>
      CheckRecord(r, response.network, env.signed).Pass? && r.issuedAt <= Horizon(now) && !r.ExpiredAt(now)
    ensures response.membershipKey.None? ==>
      exists r :: r in response.memberRecords && r.member == response.joiner && r.IsAdmission()
    ensures offer.mode == CodeApproval ==>
      && |response.memberRecords| <= MAX_PAIRING_MEMBERSHIP_RECORDS
      && (exists path, root :: RootsInviter(response, path, root))
      && JoinerGranted(response, env)
  {
    RecordsVerified(response, now, env);
    if offer.mode == CodeApproval {
      CodeParts(offer, response, now, env);
      CodeApproved(response, now, env);
    }
  }

  lemma RecordsVerified(response: Response, now: U64, env: Env)
    requires HistoryCheck(response.memberRecords, response.network, env.signed).Pass?
    requires TimesCheck(response.memberRecords, now).Pass?
    ensures forall r :: r in response.memberRecords ==>
      CheckRecord(r, response.network, env.signed).Pass? && r.issuedAt <= Horizon(now) && !r.ExpiredAt(now)
  {
    TimesHold(response.memberRecords, now);
    forall r | r in response.memberRecords
      ensures CheckRecord(r, response.network, env.signed).Pass?
    {
      var i :| 0 <= i < |response.memberRecords| && response.memberRecords[i] == r;
    }
  }

  lemma CodeApproved(response: Response, now: U64, env: Env)
    requires HasSelfIssued(response.memberRecords) && ResponseRoot(response, now).Some?
    requires FirstOtherRoot(response.memberRecords, ResponseRoot(response, now).value.member).None?
    requires JoinerCheck(response, env).Pass?
    ensures JoinerGranted(response, env) && exists path, root :: RootsInviter(response, path, root)
  {
    RootIsOnly(response, now);
    JoinerHasGrant(response, env);
    OneRootDelegates(response, now);
  }

  lemma OneRootDelegates(response: Response, now: nat)
    requires ResponseRoot(response, now).Some?
    requires SelfIssuers(response.memberRecords) == {ResponseRoot(response, now).value.member}
    ensures exists path, root :: RootsInviter(response, path, root)
  {
    var path := PathToInviter(response, now);
    assert RootsInviter(response, path, path[0].member);
  }

  lemma UpsertOne(records: seq<Record>, r: Record)
    requires UpsertRecord(records, r).Ok?
    ensures var next := UpsertRecord(records, r).value;
      && records <= next && r in next && (forall x :: x in next ==> x in records || x == r)
      && (VersionUnique(records) ==> VersionUnique(next))
  {
    if r !in records {
      assert forall i :: 0 <= i < |records| ==> records[i] in records && !SameSlot(records[i], r);
      assert (records + [r])[|records|] == r;
    }
  }

  /** The records only grow, by records of the response, and conflicting versions never enter. */
  lemma {:induction false} UpsertExtends(records: seq<Record>, incoming: seq<Record>)
    requires UpsertRecords(records, incoming).Ok?
    ensures var next := UpsertRecords(records, incoming).value;
      && records <= next
      && (forall r :: r in incoming ==> r in next)
      && (forall r :: r in next ==> r in records || r in incoming)
      && (VersionUnique(records) ==> VersionUnique(next))
    decreases |incoming|
  {
    if incoming != [] {
      var next := UpsertRecord(records, incoming[0]).value;
      UpsertOne(records, incoming[0]);
      UpsertExtends(next, incoming[1..]);
      var final := UpsertRecords(next, incoming[1..]).value;
      assert forall r :: r in next ==> r in final by {
        assert forall i :: 0 <= i < |next| ==> next[i] == final[i];
      }
      assert forall r :: r in incoming <==> r == incoming[0] || r in incoming[1..];
    }
  }

  lemma {:induction false} UpsertKnown(records: seq<Record>, incoming: seq<Record>)
    requires forall r :: r in incoming ==> r in records
    ensures UpsertRecords(records, incoming) == Ok(records)
    decreases |incoming|
  {
    if incoming != [] {
      assert incoming[0] in incoming;
      UpsertKnown(records, incoming[1..]);
    }
  }

  lemma RootCheckPassesAgain(next: Config, offer: Offer, response: Response, now: U64, env: Env)
    requires CodeCheck(offer, response, now, env).Pass?
    requires forall r :: r in response.memberRecords ==> r in next.memberRecords
    ensures RootCheck(next, offer, response, now, env).Pass?
  {
    if offer.mode == CodeApproval {
      ValidatedResponseHasOneRoot(offer, response, now, env);
      var root := ResponseRoot(response, now).value;
      assert root in next.memberRecords && root.member in TrustRoots(next.memberRecords);
    }
  }

  /**
   Idempotence: applying the same response to the resulting configuration succeeds and changes nothing, at once
   and at every other time at which the response itself is still valid.
   */
  lemma PairingIsIdempotent(base: Config, offer: Offer, response: Response, local: Peer, now: U64, env: Env, next: Config,
                            later: U64)
    requires Applied(base, offer, response, local, now, env) == Ok(next)
    ensures PayloadCheck(offer, response, local, now, env).Pass?
    ensures PayloadCheck(offer, response, local, later, env).Pass? ==>
      Applied(next, offer, response, local, later, env) == Ok(next)
  {
    UpsertExtends(base.memberRecords, response.memberRecords);
    UpsertKnown(next.memberRecords, response.memberRecords);
    if PayloadCheck(offer, response, local, later, env).Pass? {
      RootCheckPassesAgain(next, offer, response, later, env);
    }
  }

  /** A success keeps the known records and adds exactly the response's. */
  lemma PairingExtendsRecords(base: Config, offer: Offer, response: Response, local: Peer, now: U64, env: Env, next: Config)
    requires Applied(base, offer, response, local, now, env) == Ok(next)
    ensures base.memberRecords <= next.memberRecords
    ensures forall r :: r in next.memberRecords <==> r in base.memberRecords || r in response.memberRecords
    ensures VersionUnique(base.memberRecords) ==> VersionUnique(next.memberRecords)
    ensures offer.mode == CodeApproval && HasSelfIssued(base.memberRecords) ==>
      ResponseRoot(response, now).Some? && ResponseRoot(response, now).value.member in TrustRoots(base.memberRecords)
  {
    UpsertExtends(base.memberRecords, response.memberRecords);
  }
}
