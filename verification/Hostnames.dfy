/**
 Replicated hostname claims: each peer signs numbered claims for its own name, and a stored list keeps
 the highest-numbered claim of each peer, sorted by peer.
 */
module Hostnames {
  import opened Prelude
  import opened Net
  import opened Records
  import opened Sorting

  const HOSTNAME_RECORD_VERSION := 1
  const MAX_HOSTNAME_RECORDS := 256

  datatype Claim = Claim(
    version: nat,
    network: string,
    peer: Peer,
    sequence: nat,
    hostname: string,
    issuedAt: nat,
    signature: Signature)

  datatype ClaimError =
    | UnsupportedClaimVersion
    | EmptyClaimNetwork
    | ClaimIntegerOutOfRange
    | InvalidClaimName(name: NameError)
    | NonCanonicalName
    | InvalidClaimSignature
    | ClaimNetworkMismatch
    | ConflictingClaim(peer: Peer, sequence: nat)
    | TooManyClaims(max: nat, actual: nat)

  type Claims = map<Peer, Claim>

  function CheckClaim(c: Claim, network: string, signed: Claim -> bool): Outcome<ClaimError> {
    if c.network != network then Fail(ClaimNetworkMismatch)
    else if c.version != HOSTNAME_RECORD_VERSION then Fail(UnsupportedClaimVersion)
    else if c.network == "" then Fail(EmptyClaimNetwork)
    else if c.sequence > MAX_MEMBERSHIP_RECORD_INTEGER || c.issuedAt > MAX_MEMBERSHIP_RECORD_INTEGER then
      Fail(ClaimIntegerOutOfRange)
    else if CanonicalLabel(c.hostname).Err? then Fail(InvalidClaimName(CanonicalLabel(c.hostname).error))
    else if CanonicalLabel(c.hostname).value != c.hostname then Fail(NonCanonicalName)
    else if !signed(c) then Fail(InvalidClaimSignature)
    else Pass
  }

  function CheckClaims(cs: seq<Claim>, network: string, signed: Claim -> bool): (o: Outcome<ClaimError>)
    ensures o.Pass? <==> forall i :: 0 <= i < |cs| ==> CheckClaim(cs[i], network, signed).Pass?
  {
    if cs == [] then Pass
    else if CheckClaim(cs[0], network, signed).Fail? then CheckClaim(cs[0], network, signed)
    else CheckClaims(cs[1..], network, signed)
  }

  /** Last writer wins; two different claims with one number are an equivocation. */
  function Offer(claims: Claims, c: Claim): Result<Claims, ClaimError> {
    if TakesEffect(claims, c) then Ok(claims[c.peer := c])
    else if c.sequence == claims[c.peer].sequence && c != claims[c.peer] then
      Err(ConflictingClaim(c.peer, c.sequence))
    else Ok(claims)
  }

  function Canonical(cs: seq<Claim>): Result<Claims, ClaimError> {
    if cs == [] then Ok(map[]) else
    var earlier := Canonical(cs[..|cs| - 1]);
    if earlier.Err? then earlier else Offer(earlier.value, cs[|cs| - 1])
  }

  function CheckHistory(cs: seq<Claim>, network: string, signed: Claim -> bool): Outcome<ClaimError> {
    if |cs| > MAX_HOSTNAME_RECORDS then Fail(TooManyClaims(MAX_HOSTNAME_RECORDS, |cs|))
    else if CheckClaims(cs, network, signed).Fail? then CheckClaims(cs, network, signed)
    else match Canonical(cs)
      case Ok(_) => Pass
      case Err(error) => Fail(error)
  }

  function OfferWithin(claims: Claims, c: Claim, capacity: nat): Result<Claims, ClaimError> {
    if c.peer !in claims && |claims| >= capacity then Err(TooManyClaims(capacity, |claims| + 1))
    else Offer(claims, c)
  }

  function Absorb(claims: Claims, incoming: seq<Claim>, capacity: nat): Result<Claims, ClaimError>
    decreases |incoming|
  {
    if incoming == [] then Ok(claims)
    else match OfferWithin(claims, incoming[0], capacity)
      case Err(error) => Err(error)
      case Ok(next) => Absorb(next, incoming[1..], capacity)
  }

  predicate TakesEffect(claims: Claims, c: Claim) {
    c.peer !in claims || c.sequence > claims[c.peer].sequence
  }

  /** How many of the incoming claims take effect when they are offered in turn. */
  function AcceptedCount(claims: Claims, incoming: seq<Claim>): nat
    decreases |incoming|
  {
    if incoming == [] || Offer(claims, incoming[0]).Err? then 0
    else
      (if TakesEffect(claims, incoming[0]) then 1 else 0)
      + AcceptedCount(Offer(claims, incoming[0]).value, incoming[1..])
  }

  // Lists of claims

  predicate PeerLeq(a: Claim, b: Claim) {
    a.peer <= b.peer
  }

  /** The list holds each claim of the map once, in any order. */
  ghost predicate Represents(cs: seq<Claim>, claims: Claims) {
    && Distinct(cs)
    && |cs| == |claims|
    && (forall c :: c in cs ==> c.peer in claims && claims[c.peer] == c)
    && (forall p :: p in claims ==> claims[p] in cs && claims[p].peer == p)
  }

  ghost predicate IsListing(cs: seq<Claim>, claims: Claims) {
    Represents(cs, claims) && SortedBy(cs, PeerLeq)
  }

  lemma SortedRepresents(cs: seq<Claim>, sorted: seq<Claim>, claims: Claims)
    requires Represents(cs, claims) && SortedPermutation(cs, sorted, PeerLeq)
    ensures IsListing(sorted, claims)
  {
    SameElements(cs, sorted);
    DistinctPermutes(cs, sorted);
  }

  /** A set of claims has one listing. */
  lemma ListingIsUnique(cs: seq<Claim>, ds: seq<Claim>, claims: Claims)
    requires IsListing(cs, claims) && IsListing(ds, claims)
    ensures cs == ds
  {
    forall c
      ensures c in cs <==> c in ds
    {
      assert c in cs ==> claims[c.peer] in ds;
      assert c in ds ==> claims[c.peer] in cs;
    }
    SameSetPermutes(cs, ds);
    SortedIsUnique(cs, ds, PeerLeq);
  }

  lemma Inhabited(claims: Claims)
    ensures claims == map[] || exists p :: p in claims
  {
    if !exists p :: p in claims {
      assert claims.Keys == {};
    }
  }

  lemma TakeOut(claims: Claims, p: Peer)
    requires p in claims
    ensures (claims - {p})[p := claims[p]] == claims && |claims - {p}| < |claims|
  {
    var others := claims - {p};
    assert claims.Keys == others.Keys + {p} && |others| == |others.Keys| && |claims| == |claims.Keys|;
  }

  method ListValues(claims: Claims) returns (cs: seq<Claim>)
    requires forall p :: p in claims ==> claims[p].peer == p
    ensures Represents(cs, claims)
    decreases |claims|
  {
    Inhabited(claims);
    if claims == map[] {
      return [];
    }
    var p :| p in claims;
    TakeOut(claims, p);
    var rest := ListValues(claims - {p});
    RepresentsGrows(rest, claims - {p}, claims[p]);
    return rest + [claims[p]];
  }

  lemma RepresentsGrows(cs: seq<Claim>, claims: Claims, c: Claim)
    requires Represents(cs, claims) && c.peer !in claims
    ensures Represents(cs + [c], claims[c.peer := c])
  {
    assert c !in cs;
    assert claims[c.peer := c].Keys == claims.Keys + {c.peer};
    assert |claims[c.peer := c]| == |claims[c.peer := c].Keys| == |claims.Keys| + 1;
  }

  lemma UpdatedLists(cs: seq<Claim>, claims: Claims, i: nat, c: Claim, p: Peer)
    requires Represents(cs, claims) && i < |cs| && cs[i].peer == c.peer && p in claims
    ensures claims[c.peer := c][p] in cs[i := c]
  {
    var ds := cs[i := c];
    if p == c.peer {
      assert ds[i] == c;
    } else {
      var k :| 0 <= k < |cs| && cs[k] == claims[p];
      assert ds[k] == claims[p];
    }
  }

  lemma RepresentsUpdates(cs: seq<Claim>, claims: Claims, i: nat, c: Claim)
    requires Represents(cs, claims) && i < |cs| && cs[i].peer == c.peer && cs[i] != c
    ensures Represents(cs[i := c], claims[c.peer := c])
  {
    var ds, updated := cs[i := c], claims[c.peer := c];
    assert cs[i] in cs && updated.Keys == claims.Keys;
    assert |updated| == |updated.Keys| == |claims.Keys|;
    forall p | p in updated
      ensures updated[p] in ds
    {
      UpdatedLists(cs, claims, i, c, p);
    }
    forall k | 0 <= k < |cs| && k != i
      ensures cs[k].peer != c.peer
    {
      assert cs[k] in cs;
    }
  }

  method CanonicalRecords(cs: seq<Claim>) returns (result: Result<seq<Claim>, ClaimError>)
    ensures match Canonical(cs)
      case Err(error) => result == Err(error)
      case Ok(claims) => result.Ok? && IsListing(result.value, claims)
  {
    var latest: Claims := map[];
    for i := 0 to |cs|
      invariant Canonical(cs[..i]) == Ok(latest)
      invariant forall p :: p in latest ==> latest[p].peer == p
    {
      var c := cs[i];
      assert cs[..i + 1][..i] == cs[..i];
      if c.peer !in latest || c.sequence > latest[c.peer].sequence {
        latest := latest[c.peer := c];
      } else if c.sequence == latest[c.peer].sequence && c != latest[c.peer] {
        CanonicalKeepsError(cs, i + 1);
        return Err(ConflictingClaim(c.peer, c.sequence));
      }
    }
    assert cs[..|cs|] == cs;
    var values := ListValues(latest);
    var sorted := Sort(values, PeerLeq);
    SortedRepresents(values, sorted, latest);
    return Ok(sorted);
  }

  lemma {:induction false} CanonicalKeepsError(cs: seq<Claim>, n: nat)
    requires n <= |cs| && Canonical(cs[..n]).Err?
    ensures Canonical(cs) == Canonical(cs[..n])
  {
    if n == |cs| {
      assert cs[..n] == cs;
    } else {
      var shorter := cs[..|cs| - 1];
      assert shorter[..n] == cs[..n];
      CanonicalKeepsError(shorter, n);
    }
  }

  // The merge

  datatype ClaimStats = ClaimStats(accepted: nat, ignored: nat)

  /** The claims after a merge, or its first error. */
  function Merged(cs: seq<Claim>, incoming: seq<Claim>, network: string, signed: Claim -> bool, capacity: nat)
    : Result<Claims, ClaimError>
  {
    if CheckHistory(cs, network, signed).Fail? then Err(CheckHistory(cs, network, signed).error)
    else if CheckHistory(incoming, network, signed).Fail? then Err(CheckHistory(incoming, network, signed).error)
    else Absorb(Canonical(cs).value, incoming, capacity)
  }

  /** What a merge answers and leaves behind. */
  ghost predicate IsMerge(cs: seq<Claim>, incoming: seq<Claim>, network: string, signed: Claim -> bool, capacity: nat,
                          result: Result<ClaimStats, ClaimError>, after: seq<Claim>)
  {
    match Merged(cs, incoming, network, signed, capacity)
    case Err(error) => result == Err(error) && after == cs
    case Ok(claims) =>
      && IsListing(after, claims)
      && result.Ok?
      && result.value.accepted == AcceptedCount(Canonical(cs).value, incoming)
      && result.value.accepted + result.value.ignored == |incoming|
  }

  method FindPeer(cs: seq<Claim>, p: Peer) returns (i: nat)
    ensures i <= |cs|
    ensures i < |cs| ==> cs[i].peer == p
    ensures i == |cs| ==> forall c :: c in cs ==> c.peer != p
  {
    i := 0;
    while i < |cs| && cs[i].peer != p
      invariant i <= |cs|
      invariant forall k :: 0 <= k < i ==> cs[k].peer != p
    {
      i := i + 1;
    }
  }

  /** One incoming claim, against a list that stands for `claims`. */
  method MergeOne(merged: seq<Claim>, ghost claims: Claims, c: Claim, capacity: nat)
    returns (result: Result<seq<Claim>, ClaimError>, accepted: bool)
    requires Represents(merged, claims)
    ensures match OfferWithin(claims, c, capacity)
      case Err(error) => result == Err(error)
      case Ok(next) => result.Ok? && Represents(result.value, next) && accepted == TakesEffect(claims, c)
  {
    var i := FindPeer(merged, c.peer);
    if i == |merged| {
      assert c.peer !in claims;
      if |merged| >= capacity {
        return Err(TooManyClaims(capacity, |merged| + 1)), false;
      }
      RepresentsGrows(merged, claims, c);
      return Ok(merged + [c]), true;
    }
    assert merged[i] in merged && claims[c.peer] == merged[i];
    if c.sequence > merged[i].sequence {
      RepresentsUpdates(merged, claims, i, c);
      return Ok(merged[i := c]), true;
    }
    if c.sequence == merged[i].sequence && c != merged[i] {
      return Err(ConflictingClaim(c.peer, c.sequence)), false;
    }
    return Ok(merged), false;
  }

  method MergeHostnames(cs: seq<Claim>, incoming: seq<Claim>, network: string, signed: Claim -> bool, capacity: nat)
    returns (result: Result<ClaimStats, ClaimError>, after: seq<Claim>)
    ensures IsMerge(cs, incoming, network, signed, capacity, result, after)
  {
    after := cs;
    var stored := CheckHistory(cs, network, signed);
    if stored.Fail? {
      return Err(stored.error), after;
    }
    var received := CheckHistory(incoming, network, signed);
    if received.Fail? {
      return Err(received.error), after;
    }
    var canonical := CanonicalRecords(cs);
    var merged := canonical.value;
    ghost var claims := Canonical(cs).value;
    var stats := ClaimStats(0, 0);
    for k := 0 to |incoming|
      invariant Represents(merged, claims)
      invariant Absorb(Canonical(cs).value, incoming, capacity) == Absorb(claims, incoming[k..], capacity)
      invariant AcceptedCount(Canonical(cs).value, incoming) == stats.accepted + AcceptedCount(claims, incoming[k..])
      invariant stats.accepted + stats.ignored == k
    {
      assert incoming[k..][0] == incoming[k] && incoming[k..][1..] == incoming[k + 1..];
      var next, accepted := MergeOne(merged, claims, incoming[k], capacity);
      if next.Err? {
        return Err(next.error), after;
      }
      merged := next.value;
      claims := OfferWithin(claims, incoming[k], capacity).value;
      if accepted {
        stats := stats.(accepted := stats.accepted + 1);
      } else {
        stats := stats.(ignored := stats.ignored + 1);
      }
    }
    after := Sort(merged, PeerLeq);
    SortedRepresents(merged, after, claims);
    return Ok(stats), after;
  }

  // The merge is a join

  /** `claims` holds, for each peer of `all`, the one claim of `all` with the highest number. */
  ghost predicate Winners(all: set<Claim>, claims: Claims) {
    && (forall p :: p in claims ==> claims[p] in all && claims[p].peer == p)
    && (forall c :: c in all ==>
          && c.peer in claims
          && c.sequence <= claims[c.peer].sequence
          && (c.sequence == claims[c.peer].sequence ==> c == claims[c.peer]))
  }

  lemma WinnersAreUnique(all: set<Claim>, claims: Claims, others: Claims)
    requires Winners(all, claims) && Winners(all, others)
    ensures claims == others
  {
    assert forall p :: p in claims ==> claims[p] in all && p in others && others[p] in all;
    assert forall p :: p in others ==> others[p] in all && p in claims;
    assert claims.Keys == others.Keys;
    forall p | p in claims
      ensures claims[p] == others[p]
    {
      assert claims[p] in all && others[p] in all;
    }
  }

  lemma OfferWins(all: set<Claim>, claims: Claims, c: Claim)
    requires Winners(all, claims) && Offer(claims, c).Ok?
    ensures Winners(all + {c}, Offer(claims, c).value)
  {}

  lemma {:induction false} CanonicalWins(cs: seq<Claim>)
    requires Canonical(cs).Ok?
    ensures Winners(Elements(cs), Canonical(cs).value)
  {
    if cs != [] {
      var front, last := cs[..|cs| - 1], cs[|cs| - 1];
      CanonicalWins(front);
      OfferWins(Elements(front), Canonical(front).value, last);
      assert cs == front + [last];
      assert Elements(cs) == Elements(front) + {last};
    }
  }

  lemma {:induction false} AbsorbWins(all: set<Claim>, claims: Claims, incoming: seq<Claim>, capacity: nat)
    requires Winners(all, claims) && Absorb(claims, incoming, capacity).Ok?
    ensures Winners(all + Elements(incoming), Absorb(claims, incoming, capacity).value)
    decreases |incoming|
  {
    if incoming == [] {
      assert all + Elements(incoming) == all;
    } else {
      OfferWins(all, claims, incoming[0]);
      AbsorbWins(all + {incoming[0]}, Offer(claims, incoming[0]).value, incoming[1..], capacity);
      FirstElement(all, incoming);
    }
  }

  lemma FirstElement(all: set<Claim>, incoming: seq<Claim>)
    requires incoming != []
    ensures all + {incoming[0]} + Elements(incoming[1..]) == all + Elements(incoming)
  {
    assert incoming == [incoming[0]] + incoming[1..];
  }

  /** A listing says of the claims it lists what the claims it was made from say. */
  lemma ListingWins(all: set<Claim>, cs: seq<Claim>, claims: Claims)
    requires IsListing(cs, claims) && Winners(all, claims)
    ensures forall other :: Winners(Elements(cs), other) ==> other == claims
  {
    assert Winners(Elements(cs), claims);
    forall other | Winners(Elements(cs), other)
      ensures other == claims
    {
      WinnersAreUnique(Elements(cs), claims, other);
    }
  }

  datatype Delivery = Delivery(incoming: seq<Claim>, capacity: nat)

  /** A delivery, what the merge of it answered and the list it left. */
  datatype Merging = Merging(delivery: Delivery, result: Result<ClaimStats, ClaimError>, after: seq<Claim>)

  ghost predicate Follows(cs: seq<Claim>, m: Merging, network: string, signed: Claim -> bool) {
    IsMerge(cs, m.delivery.incoming, network, signed, m.delivery.capacity, m.result, m.after)
  }

  /** Deliveries merged one after the other. */
  ghost predicate MergeRun(cs: seq<Claim>, run: seq<Merging>, network: string, signed: Claim -> bool)
    decreases |run|
  {
    run != [] ==> Follows(cs, run[0], network, signed) && MergeRun(run[0].after, run[1..], network, signed)
  }

  function FinalList(cs: seq<Claim>, run: seq<Merging>): seq<Claim>
    decreases |run|
  {
    if run == [] then cs else FinalList(run[0].after, run[1..])
  }

  /** The given claims and those of the deliveries that were merged successfully. */
  ghost function FedBy(all: set<Claim>, run: seq<Merging>): set<Claim>
    decreases |run|
  {
    if run == [] then all else FedBy(all + Fed(run[0].delivery, run[0].result), run[1..])
  }

  /** The list holds exactly the winners of `all`, sorted by peer. */
  ghost predicate Lists(all: set<Claim>, cs: seq<Claim>) {
    exists claims :: Winners(all, claims) && IsListing(cs, claims)
  }

  lemma MergeLists(all: set<Claim>, cs: seq<Claim>, d: Delivery, network: string, signed: Claim -> bool,
                   stats: ClaimStats, after: seq<Claim>)
    requires Lists(all, cs) && IsMerge(cs, d.incoming, network, signed, d.capacity, Ok(stats), after)
    ensures Lists(all + Elements(d.incoming), after)
  {
    var claims :| Winners(all, claims) && IsListing(cs, claims);
    CanonicalWins(cs);
    ListingWins(all, cs, claims);
    AbsorbWins(all, claims, d.incoming, d.capacity);
  }

  ghost function Fed(d: Delivery, result: Result<ClaimStats, ClaimError>): set<Claim> {
    if result.Ok? then Elements(d.incoming) else {}
  }

  lemma DeliveryLists(all: set<Claim>, cs: seq<Claim>, d: Delivery, network: string, signed: Claim -> bool,
                      result: Result<ClaimStats, ClaimError>, after: seq<Claim>)
    requires Lists(all, cs) && IsMerge(cs, d.incoming, network, signed, d.capacity, result, after)
    ensures Lists(all + Fed(d, result), after)
  {
    if result.Ok? {
      MergeLists(all, cs, d, network, signed, result.value, after);
    } else {
      assert all + Fed(d, result) == all;
    }
  }

  lemma {:induction false} RunLists(all: set<Claim>, cs: seq<Claim>, run: seq<Merging>, network: string, signed: Claim -> bool)
    requires Lists(all, cs) && MergeRun(cs, run, network, signed)
    ensures Lists(FedBy(all, run), FinalList(cs, run))
    decreases |run|
  {
    if run != [] {
      var m := run[0];
      DeliveryLists(all, cs, m.delivery, network, signed, m.result, m.after);
      RunLists(all + Fed(m.delivery, m.result), m.after, run[1..], network, signed);
    }
  }

  lemma EmptyLists()
    ensures Lists({}, [])
  {
    assert Winners({}, map[]) && IsListing([], map[]);
  }

  lemma SameWinnersSameList(all: set<Claim>, x: seq<Claim>, y: seq<Claim>)
    requires Lists(all, x) && Lists(all, y)
    ensures x == y
  {
    var c :| Winners(all, c) && IsListing(x, c);
    var d :| Winners(all, d) && IsListing(y, d);
    WinnersAreUnique(all, c, d);
    ListingIsUnique(x, y, c);
  }

  /**
   Hostname merge is a join: two replicas that started empty and successfully merged the same claims,
   in whatever batches and order, hold the same list, and it consists of each peer's unique
   highest-numbered claim, sorted by peer.
   */
  lemma HostnamesConverge(a: seq<Merging>, b: seq<Merging>, network: string, signed: Claim -> bool)
    requires MergeRun([], a, network, signed) && MergeRun([], b, network, signed) && FedBy({}, a) == FedBy({}, b)
    ensures FinalList([], a) == FinalList([], b) && Lists(FedBy({}, a), FinalList([], a))
  {
    EmptyLists();
    RunLists({}, [], a, network, signed);
    RunLists({}, [], b, network, signed);
    SameWinnersSameList(FedBy({}, a), FinalList([], a), FinalList([], b));
  }

  lemma {:induction false} CanonicalPasses(cs: seq<Claim>, claims: Claims)
    requires forall c :: c in cs ==> c.peer in claims && claims[c.peer] == c
    ensures Canonical(cs).Ok?
  {
    if cs != [] {
      var front := cs[..|cs| - 1];
      CanonicalPasses(front, claims);
      CanonicalWins(front);
    }
  }

  lemma {:induction false} AbsorbKnown(all: set<Claim>, claims: Claims, incoming: seq<Claim>, capacity: nat)
    requires Winners(all, claims) && Elements(incoming) <= all
    ensures Absorb(claims, incoming, capacity) == Ok(claims) && AcceptedCount(claims, incoming) == 0
    decreases |incoming|
  {
    if incoming != [] {
      assert incoming[0] in Elements(incoming);
      assert Elements(incoming[1..]) <= Elements(incoming);
      AbsorbKnown(all, claims, incoming[1..], capacity);
    }
  }

  /** Everything a merge leaves behind came from the stored list or from the delivery, and passes the checks. */
  lemma MergedPassesChecks(cs: seq<Claim>, d: Delivery, network: string, signed: Claim -> bool,
                           stats: ClaimStats, after: seq<Claim>)
    requires IsMerge(cs, d.incoming, network, signed, d.capacity, Ok(stats), after)
    ensures CheckClaims(after, network, signed).Pass? && Canonical(after).Ok?
    ensures Winners(Elements(cs) + Elements(d.incoming), Merged(cs, d.incoming, network, signed, d.capacity).value)
  {
    var claims := Merged(cs, d.incoming, network, signed, d.capacity).value;
    CanonicalWins(cs);
    AbsorbWins(Elements(cs), Canonical(cs).value, d.incoming, d.capacity);
    CanonicalPasses(after, claims);
    forall i | 0 <= i < |after|
      ensures CheckClaim(after[i], network, signed).Pass?
    {
      assert after[i] in after;
      assert after[i] in cs || after[i] in d.incoming;
    }
  }

  lemma {:induction false} CanonicalIsNoLonger(cs: seq<Claim>)
    requires Canonical(cs).Ok?
    ensures |Canonical(cs).value| <= |cs|
  {
    if cs != [] {
      var front := cs[..|cs| - 1];
      CanonicalIsNoLonger(front);
      OfferGrowsByOne(Canonical(front).value, cs[|cs| - 1]);
    }
  }

  lemma OfferGrowsByOne(claims: Claims, c: Claim)
    requires Offer(claims, c).Ok?
    ensures |Offer(claims, c).value| <= |claims| + if c.peer in claims then 0 else 1
  {
    OfferedKeys(claims, c);
    assert |claims.Keys + {c.peer}| <= |claims.Keys| + 1;
    assert c.peer in claims ==> claims.Keys + {c.peer} == claims.Keys;
    KeysCount(claims);
    KeysCount(Offer(claims, c).value);
  }

  lemma KeysCount(claims: Claims)
    ensures |claims| == |claims.Keys|
  {}

  lemma OfferedKeys(claims: Claims, c: Claim)
    requires Offer(claims, c).Ok?
    ensures Offer(claims, c).value.Keys == claims.Keys + {c.peer}
  {}

  lemma {:induction false} AbsorbStaysWithin(claims: Claims, incoming: seq<Claim>, capacity: nat, limit: nat)
    requires Absorb(claims, incoming, capacity).Ok? && |claims| <= limit && capacity <= limit
    ensures |Absorb(claims, incoming, capacity).value| <= limit
    decreases |incoming|
  {
    if incoming != [] {
      OfferGrowsByOne(claims, incoming[0]);
      AbsorbStaysWithin(Offer(claims, incoming[0]).value, incoming[1..], capacity, limit);
    }
  }

  /**
   Idempotence, with its exact limit: merging the same claims again changes nothing and accepts nothing; it
   succeeds exactly when the stored list is within the persisted maximum, which the capacity argument
   of the first merge may exceed. With a capacity within that maximum, as the node uses, it always succeeds.
   */
  lemma HostnameMergeIsIdempotent(cs: seq<Claim>, d: Delivery, network: string, signed: Claim -> bool,
                                  stats: ClaimStats, after: seq<Claim>,
                                  result: Result<ClaimStats, ClaimError>, afterwards: seq<Claim>)
    requires IsMerge(cs, d.incoming, network, signed, d.capacity, Ok(stats), after)
    requires IsMerge(after, d.incoming, network, signed, d.capacity, result, afterwards)
    ensures afterwards == after
    ensures result.Ok? <==> |after| <= MAX_HOSTNAME_RECORDS
    ensures d.capacity <= MAX_HOSTNAME_RECORDS ==> result.Ok?
    ensures result.Ok? ==> result.value == ClaimStats(0, |d.incoming|)
  {
    var all := Elements(cs) + Elements(d.incoming);
    var claims := Merged(cs, d.incoming, network, signed, d.capacity).value;
    MergedPassesChecks(cs, d, network, signed, stats, after);
    if d.capacity <= MAX_HOSTNAME_RECORDS {
      CanonicalIsNoLonger(cs);
      AbsorbStaysWithin(Canonical(cs).value, d.incoming, d.capacity, MAX_HOSTNAME_RECORDS);
    }
    if |after| <= MAX_HOSTNAME_RECORDS {
      CanonicalWins(after);
      ListingWins(all, after, claims);
      AbsorbKnown(all, claims, d.incoming, d.capacity);
      ListingIsUnique(after, afterwards, claims);
    }
  }
}
