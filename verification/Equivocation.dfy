/**
 Whether hostname claims are accepted depends on the order in which they arrive: an equivocation is noticed only
 when it meets the highest claim of its peer. These are the exact conditions, and the limit of repeated merges.
 */
module Equivocation {
  import opened Prelude
  import opened Net
  import opened Records
  import opened Sorting
  import opened Hostnames

  predicate SameNumber(a: Claim, b: Claim) {
    a.peer == b.peer && a.sequence == b.sequence
  }

  ghost predicate ClaimsUnique(cs: seq<Claim>) {
    forall a, b :: a in cs && b in cs && SameNumber(a, b) ==> a == b
  }

  /** Two different claims share the highest number of their peer. */
  ghost predicate TopEquivocation(cs: seq<Claim>) {
    exists a, b :: a in cs && b in cs && a != b && SameNumber(a, b) && IsTop(cs, a)
  }

  ghost predicate IsTop(cs: seq<Claim>, a: Claim) {
    forall c :: c in cs && c.peer == a.peer ==> c.sequence <= a.sequence
  }

  lemma {:induction false} UniqueClaimsPass(cs: seq<Claim>)
    requires ClaimsUnique(cs)
    ensures Canonical(cs).Ok?
  {
    if cs != [] {
      var front, last := cs[..|cs| - 1], cs[|cs| - 1];
      assert cs == front + [last];
      UniqueClaimsPass(front);
      CanonicalWins(front);
      var claims := Canonical(front).value;
      if last.peer in claims {
        assert claims[last.peer] in Elements(front) && claims[last.peer] in cs && last in cs;
      }
    }
  }

  lemma EquivocationFirst(cs: seq<Claim>, i: nat, j: nat) returns (shuffled: seq<Claim>)
    requires i < j < |cs| && SameNumber(cs[i], cs[j]) && cs[i] != cs[j]
    ensures multiset(shuffled) == multiset(cs) && Canonical(shuffled).Err?
  {
    var a, b := cs[i], cs[j];
    assert cs == cs[..i] + [a] + cs[i + 1..j] + [b] + cs[j + 1..];
    shuffled := [a, b] + (cs[..i] + cs[i + 1..j] + cs[j + 1..]);
    assert shuffled[..2] == [a, b] && [a, b][..1] == [a] && [a][..0] == [];
    assert Canonical([a]) == Ok(map[a.peer := a]);
    assert Canonical([a, b]).Err?;
    CanonicalKeepsError(shuffled, 2);
  }

  predicate Descending(a: Claim, b: Claim) {
    a.sequence >= b.sequence
  }

  lemma DescendingTop(front: seq<Claim>, last: Claim)
    requires SortedBy(front + [last], Descending)
    ensures forall a :: a in front && IsTop(front, a) ==> IsTop(front + [last], a)
    ensures TopEquivocation(front) ==> TopEquivocation(front + [last])
  {
    var cs := front + [last];
    forall c | c in front
      ensures c in cs && c.sequence >= last.sequence
    {
      var i :| 0 <= i < |front| && front[i] == c;
      assert Descending(cs[i], cs[|front|]);
    }
    if a, b :| a in front && b in front && a != b && SameNumber(a, b) && IsTop(front, a) {
      assert IsTop(cs, a);
    }
  }

  lemma WinnerIsTop(cs: seq<Claim>, claims: Claims, p: Peer)
    requires Winners(Elements(cs), claims) && p in claims
    ensures claims[p] in cs && IsTop(cs, claims[p]) && claims[p].peer == p
  {
    assert forall c :: c in cs ==> c in Elements(cs);
    assert claims[p] in Elements(cs);
  }

  /** Highest numbers first, an order in which lower equivocations go unnoticed. */
  lemma {:induction false} DescendingPasses(cs: seq<Claim>)
    requires SortedBy(cs, Descending) && !TopEquivocation(cs)
    ensures Canonical(cs).Ok?
  {
    if cs != [] {
      var front, last := cs[..|cs| - 1], cs[|cs| - 1];
      assert cs == front + [last];
      DescendingTop(front, last);
      DescendingPasses(front);
      CanonicalWins(front);
      LowestIsAccepted(front, last, Canonical(front).value);
    }
  }

  lemma LowestIsAccepted(front: seq<Claim>, last: Claim, claims: Claims)
    requires SortedBy(front + [last], Descending) && !TopEquivocation(front + [last]) && Winners(Elements(front), claims)
    ensures Offer(claims, last).Ok?
  {
    DescendingTop(front, last);
    if last.peer in claims {
      WinnerIsTop(front, claims, last.peer);
      assert IsTop(front + [last], claims[last.peer]) && last in front + [last];
    }
  }

  /** A list of claims is accepted in every order exactly when no peer numbered two different claims alike. */
  lemma ClaimsPassInEveryOrder(cs: seq<Claim>)
    ensures (forall shuffled :: multiset(shuffled) == multiset(cs) ==> Canonical(shuffled).Ok?) <==> ClaimsUnique(cs)
  {
    if ClaimsUnique(cs) {
      forall shuffled | multiset(shuffled) == multiset(cs)
        ensures Canonical(shuffled).Ok?
      {
        SameElements(shuffled, cs);
        UniqueClaimsPass(shuffled);
      }
    } else {
      var a, b :| a in cs && b in cs && SameNumber(a, b) && a != b;
      var i :| 0 <= i < |cs| && cs[i] == a;
      var j :| 0 <= j < |cs| && cs[j] == b;
      var shuffled := EquivocationFirst(cs, if i < j then i else j, if i < j then j else i);
    }
  }

  /** It is refused in every order exactly when two different claims share the highest number of their peer. */
  lemma ClaimsFailInEveryOrder(cs: seq<Claim>)
    ensures (forall shuffled :: multiset(shuffled) == multiset(cs) ==> Canonical(shuffled).Err?) <==> TopEquivocation(cs)
  {
    if TopEquivocation(cs) {
      forall shuffled | multiset(shuffled) == multiset(cs)
        ensures Canonical(shuffled).Err?
      {
        SameElements(shuffled, cs);
        TopFails(shuffled);
      }
    } else {
      var sorted := Sort(cs, Descending);
      SameElements(sorted, cs);
      assert !TopEquivocation(sorted);
      DescendingPasses(sorted);
    }
  }

  lemma TopFails(cs: seq<Claim>)
    requires TopEquivocation(cs)
    ensures Canonical(cs).Err?
  {
    var a, b :| a in cs && b in cs && a != b && SameNumber(a, b) && IsTop(cs, a);
    assert a in Elements(cs) && b in Elements(cs);
    if Canonical(cs).Ok? {
      CanonicalWins(cs);
    }
  }

  // Claims that arrive one at a time

  ghost predicate Merges(cs: seq<Claim>, c: Claim, network: string, signed: Claim -> bool, capacity: nat,
                         stats: ClaimStats, after: seq<Claim>)
  {
    IsMerge(cs, [c], network, signed, capacity, Ok(stats), after)
  }

  /** Whether every claim is merged when they arrive in this order. */
  ghost predicate AllArrive(cs: seq<Claim>, xs: seq<Claim>, network: string, signed: Claim -> bool, capacity: nat)
    decreases |xs|
  {
    xs != [] ==>
      exists stats, after ::
        && Merges(cs, xs[0], network, signed, capacity, stats, after)
        && AllArrive(after, xs[1..], network, signed, capacity)
  }

  ghost function Peers(xs: seq<Claim>): set<Peer> {
    set c | c in xs :: c.peer
  }

  ghost predicate Room(claims: Claims, xs: seq<Claim>, capacity: nat) {
    |claims.Keys + Peers(xs)| <= capacity && |claims.Keys + Peers(xs)| <= MAX_HOSTNAME_RECORDS
  }

  lemma {:induction false} SomeListing(claims: Claims) returns (cs: seq<Claim>)
    requires forall p :: p in claims ==> claims[p].peer == p
    ensures Represents(cs, claims)
    decreases |claims|
  {
    Inhabited(claims);
    cs := [];
    if claims != map[] {
      var p :| p in claims;
      TakeOut(claims, p);
      var rest := SomeListing(claims - {p});
      RepresentsGrows(rest, claims - {p}, claims[p]);
      cs := rest + [claims[p]];
    }
  }

  lemma SingleClaim(claims: Claims, c: Claim, network: string, signed: Claim -> bool, capacity: nat)
    requires CheckClaim(c, network, signed).Pass?
    ensures CheckHistory([c], network, signed).Pass?
    ensures Absorb(claims, [c], capacity) == OfferWithin(claims, c, capacity)
  {
    assert [c][..0] == [] && Canonical([c]) == Ok(map[c.peer := c]);
    assert CheckClaims([c], network, signed).Pass?;
    assert [c][1..] == [];
  }

  lemma ListingIsHistory(cs: seq<Claim>, claims: Claims, network: string, signed: Claim -> bool)
    requires IsListing(cs, claims) && CheckClaims(cs, network, signed).Pass? && |claims| <= MAX_HOSTNAME_RECORDS
    ensures CheckHistory(cs, network, signed).Pass? && Canonical(cs) == Ok(claims)
  {
    CanonicalPasses(cs, claims);
    CanonicalWins(cs);
    assert forall p :: p in claims ==> claims[p] in cs;
    assert Winners(Elements(cs), claims);
    WinnersAreUnique(Elements(cs), claims, Canonical(cs).value);
  }

  /** Merging one claim into a listing of valid claims, with room for it, is offering it. */
  lemma MergeOffers(cs: seq<Claim>, claims: Claims, c: Claim, network: string, signed: Claim -> bool, capacity: nat)
    requires IsListing(cs, claims) && CheckClaims(cs, network, signed).Pass? && CheckClaim(c, network, signed).Pass?
    requires |claims.Keys + {c.peer}| <= capacity && |claims.Keys| <= MAX_HOSTNAME_RECORDS
    ensures Merged(cs, [c], network, signed, capacity) == Offer(claims, c)
  {
    ListingIsHistory(cs, claims, network, signed);
    SingleClaim(claims, c, network, signed, capacity);
    if c.peer !in claims {
      assert |claims.Keys + {c.peer}| == |claims.Keys| + 1;
    }
    assert |claims| == |claims.Keys|;
  }

  /** What the claims after an offer still satisfy. */
  lemma OfferKeeps(cs: seq<Claim>, claims: Claims, c: Claim, next: seq<Claim>, network: string, signed: Claim -> bool)
    requires IsListing(cs, claims) && CheckClaims(cs, network, signed).Pass? && CheckClaim(c, network, signed).Pass?
    requires Offer(claims, c).Ok? && IsListing(next, Offer(claims, c).value)
    ensures CheckClaims(next, network, signed).Pass?
    ensures Offer(claims, c).value.Keys == claims.Keys + {c.peer}
  {
    forall i | 0 <= i < |next|
      ensures CheckClaim(next[i], network, signed).Pass?
    {
      assert next[i] in next;
      assert next[i] == c || next[i] in cs;
    }
  }

  function Offers(claims: Claims, xs: seq<Claim>): Result<Claims, ClaimError>
    decreases |xs|
  {
    if xs == [] then Ok(claims)
    else match Offer(claims, xs[0])
      case Err(error) => Err(error)
      case Ok(next) => Offers(next, xs[1..])
  }

  lemma {:induction false} OffersAreCanonical(xs: seq<Claim>, k: nat)
    requires k <= |xs| && Canonical(xs[..k]).Ok?
    ensures Offers(Canonical(xs[..k]).value, xs[k..]).Ok? <==> Canonical(xs).Ok?
    decreases |xs| - k
  {
    if k == |xs| {
      assert xs[..k] == xs;
    } else {
      assert xs[k..][0] == xs[k] && xs[k..][1..] == xs[k + 1..] && xs[..k + 1][..k] == xs[..k];
      if Canonical(xs[..k + 1]).Ok? {
        OffersAreCanonical(xs, k + 1);
      } else {
        CanonicalKeepsError(xs, k + 1);
      }
    }
  }

  lemma RoomForFirst(claims: Claims, xs: seq<Claim>, capacity: nat)
    requires xs != [] && Room(claims, xs, capacity)
    ensures var c := xs[0];
      && |claims.Keys + {c.peer}| <= capacity && |claims.Keys| <= MAX_HOSTNAME_RECORDS
      && claims.Keys + {c.peer} + Peers(xs[1..]) == claims.Keys + Peers(xs)
  {
    assert xs == [xs[0]] + xs[1..];
    SubsetSize(claims.Keys + {xs[0].peer}, claims.Keys + Peers(xs));
    SubsetSize(claims.Keys, claims.Keys + Peers(xs));
  }

  lemma AtMostOne(claims: Claims, c: Claim)
    ensures AcceptedCount(claims, [c]) <= 1
  {
    assert [c][1..] == [];
  }

  lemma NextListing(cs: seq<Claim>, claims: Claims, c: Claim, network: string, signed: Claim -> bool, capacity: nat)
    returns (stats: ClaimStats, after: seq<Claim>)
    requires IsListing(cs, claims) && Offer(claims, c).Ok?
    requires Merged(cs, [c], network, signed, capacity) == Offer(claims, c)
    ensures IsListing(after, Offer(claims, c).value)
    ensures Merges(cs, c, network, signed, capacity, stats, after)
  {
    var next := Offer(claims, c).value;
    forall p | p in next
      ensures next[p].peer == p
    {
      assert p in claims ==> claims[p] in cs;
    }
    var listed := SomeListing(next);
    after := Sort(listed, PeerLeq);
    SortedRepresents(listed, after, next);
    AtMostOne(Canonical(cs).value, c);
    var taken := AcceptedCount(Canonical(cs).value, [c]);
    stats := ClaimStats(taken, 1 - taken);
  }

  lemma MergesLists(cs: seq<Claim>, c: Claim, network: string, signed: Claim -> bool, capacity: nat,
                    stats: ClaimStats, after: seq<Claim>, next: Claims)
    requires Merged(cs, [c], network, signed, capacity) == Ok(next)
    requires Merges(cs, c, network, signed, capacity, stats, after)
    ensures IsListing(after, next)
  {}

  /** The first merge can only leave the one listing, so all depends on the rest. */
  lemma ArriveStep(cs: seq<Claim>, next: Claims, xs: seq<Claim>, network: string, signed: Claim -> bool, capacity: nat,
                   stats: ClaimStats, after: seq<Claim>)
    requires xs != [] && Merged(cs, [xs[0]], network, signed, capacity) == Ok(next)
    requires Merges(cs, xs[0], network, signed, capacity, stats, after)
    ensures AllArrive(cs, xs, network, signed, capacity) <==> AllArrive(after, xs[1..], network, signed, capacity)
  {
    if AllArrive(cs, xs, network, signed, capacity) {
      var s, other :| Merges(cs, xs[0], network, signed, capacity, s, other)
        && AllArrive(other, xs[1..], network, signed, capacity);
      MergesLists(cs, xs[0], network, signed, capacity, s, other, next);
      MergesLists(cs, xs[0], network, signed, capacity, stats, after, next);
      ListingIsUnique(after, other, next);
    }
  }

  lemma {:induction false} ArrivalOffers(cs: seq<Claim>, claims: Claims, xs: seq<Claim>, network: string,
                                         signed: Claim -> bool, capacity: nat)
    requires IsListing(cs, claims) && CheckClaims(cs, network, signed).Pass?
    requires CheckClaims(xs, network, signed).Pass? && Room(claims, xs, capacity)
    ensures AllArrive(cs, xs, network, signed, capacity) <==> Offers(claims, xs).Ok?
    decreases |xs|
  {
    if xs != [] {
      var c, rest := xs[0], xs[1..];
      RoomForFirst(claims, xs, capacity);
      MergeOffers(cs, claims, c, network, signed, capacity);
      if Offer(claims, c).Ok? {
        var stats, after := NextListing(cs, claims, c, network, signed, capacity);
        var next := Offer(claims, c).value;
        OfferKeeps(cs, claims, c, after, network, signed);
        assert forall i :: 0 <= i < |rest| ==> rest[i] == xs[i + 1];
        ArrivalOffers(after, next, rest, network, signed, capacity);
        ArriveStep(cs, next, xs, network, signed, capacity, stats, after);
      }
    }
  }

  /**
   Valid claims that arrive one at a time at an empty replica with room for their peers are all merged exactly
   when the list of them passes, so the two conditions above say when their order of arrival does not matter.
   */
  lemma ArrivalIsCanonical(xs: seq<Claim>, network: string, signed: Claim -> bool, capacity: nat)
    requires CheckClaims(xs, network, signed).Pass? && |Peers(xs)| <= capacity && |Peers(xs)| <= MAX_HOSTNAME_RECORDS
    ensures AllArrive([], xs, network, signed, capacity) <==> Canonical(xs).Ok?
  {
    var none: Claims := map[];
    assert IsListing([], none) && CheckClaims([], network, signed).Pass?;
    assert none.Keys + Peers(xs) == Peers(xs);
    ArrivalOffers([], none, xs, network, signed, capacity);
    assert xs[..0] == [] && xs[0..] == xs;
    OffersAreCanonical(xs, 0);
  }

  /** Two rival claims of one number, and a claim of the same peer with a higher number. */
  ghost predicate Overtakes(a: Claim, b: Claim, c: Claim) {
    SameNumber(a, b) && a != b && c.peer == a.peer && c.sequence > a.sequence
  }

  lemma RivalsFirst(a: Claim, b: Claim, c: Claim)
    requires Overtakes(a, b, c)
    ensures Canonical([a, b, c]).Err?
  {
    assert [a, b, c][..2] == [a, b] && [a, b][..1] == [a] && [a][..0] == [];
    assert Canonical([a]) == Ok(map[a.peer := a]);
    assert Canonical([a, b]).Err?;
  }

  lemma HigherFirst(a: Claim, b: Claim, c: Claim)
    requires Overtakes(a, b, c)
    ensures Canonical([c, a, b]).Ok?
  {
    assert [c, a, b][..2] == [c, a] && [c, a][..1] == [c] && [c][..0] == [];
    assert Canonical([c]) == Ok(map[c.peer := c]);
    assert Canonical([c, a]) == Canonical([c]);
  }

  lemma OnePeer(a: Claim, b: Claim, c: Claim)
    requires a.peer == b.peer == c.peer
    ensures Peers([a, b, c]) == {a.peer}
  {
    assert a in [a, b, c];
  }

  /** Rivals are not all merged if they arrive first, and are if the higher number arrives before them. */
  lemma RivalsNeedTheHigherNumber(a: Claim, b: Claim, c: Claim, network: string, signed: Claim -> bool, capacity: nat)
    requires Overtakes(a, b, c) && CheckClaims([a, b, c], network, signed).Pass? && capacity >= 1
    ensures !AllArrive([], [a, b, c], network, signed, capacity) && AllArrive([], [c, a, b], network, signed, capacity)
  {
    RivalsFirst(a, b, c);
    HigherFirst(a, b, c);
    OnePeer(a, b, c);
    OnePeer(c, a, b);
    var xs, ys := [a, b, c], [c, a, b];
    assert ys[0] == xs[2] && ys[1] == xs[0] && ys[2] == xs[1];
    ArrivalIsCanonical(xs, network, signed, capacity);
    ArrivalIsCanonical(ys, network, signed, capacity);
  }

  const FIRST := Claim(1, "lab", 1, 1, "ant", 10, 0)
  const RIVAL := FIRST.(hostname := "bee", signature := 1)
  const SECOND := FIRST.(sequence := 2, signature := 2)

  lemma RivalsAreValid()
    ensures Overtakes(FIRST, RIVAL, SECOND) && CheckClaims([FIRST, RIVAL, SECOND], "lab", Unsigned).Pass?
  {
    assert IsCanonicalLabel("ant") && IsCanonicalLabel("bee");
    FirstIsValid(FIRST);
    FirstIsValid(RIVAL);
    FirstIsValid(SECOND);
  }

  lemma FirstIsValid(c: Claim)
    requires c == FIRST.(sequence := c.sequence, hostname := c.hostname, signature := c.signature)
    requires 1 <= c.sequence <= 2 && IsCanonicalLabel(c.hostname)
    ensures CheckClaim(c, "lab", Unsigned).Pass?
  {
    CanonicalLabelIdempotent(c.hostname);
  }

  /** Two claims with number one are refused if they arrive first and merged if number two arrives before them. */
  lemma ArrivalOrderMatters(capacity: nat)
    requires capacity >= 1
    ensures multiset([FIRST, RIVAL, SECOND]) == multiset([SECOND, FIRST, RIVAL])
    ensures !AllArrive([], [FIRST, RIVAL, SECOND], "lab", Unsigned, capacity)
    ensures AllArrive([], [SECOND, FIRST, RIVAL], "lab", Unsigned, capacity)
  {
    RivalsAreValid();
    RivalsNeedTheHigherNumber(FIRST, RIVAL, SECOND, "lab", Unsigned, capacity);
  }

  // A list that cannot be merged again

  function Numbered(n: nat): Claim {
    Claim(HOSTNAME_RECORD_VERSION, "lab", n, 1, "ant", 10, n)
  }

  function NumberedList(n: nat): (cs: seq<Claim>)
    ensures |cs| == n && forall i :: 0 <= i < n ==> cs[i] == Numbered(i)
  {
    seq(n, i requires 0 <= i < n => Numbered(i))
  }

  function NumberedClaims(n: nat): Claims {
    map p | 0 <= p < n :: Numbered(p)
  }

  predicate Unsigned(c: Claim) {
    true
  }

  lemma {:induction false} NumberedRepresents(n: nat)
    ensures Represents(NumberedList(n), NumberedClaims(n))
  {
    if n > 0 {
      NumberedRepresents(n - 1);
      RepresentsGrows(NumberedList(n - 1), NumberedClaims(n - 1), Numbered(n - 1));
      NumberedNext(n - 1);
    }
  }

  lemma NumberedNext(n: nat)
    ensures NumberedList(n + 1) == NumberedList(n) + [Numbered(n)]
    ensures NumberedClaims(n + 1) == NumberedClaims(n)[n := Numbered(n)]
    ensures n !in NumberedClaims(n)
  {}

  lemma NumberedIsListing(n: nat)
    ensures IsListing(NumberedList(n), NumberedClaims(n))
  {
    NumberedRepresents(n);
  }

  lemma NumberedIsValid(n: nat)
    ensures CheckClaims(NumberedList(n), "lab", Unsigned).Pass?
    ensures CheckClaim(Numbered(n), "lab", Unsigned).Pass?
  {
    CanonicalLabelIdempotent("ant");
  }

  lemma NewClaimMerges(cs: seq<Claim>, claims: Claims, c: Claim, network: string, signed: Claim -> bool, capacity: nat)
    requires IsListing(cs, claims) && CheckClaims(cs, network, signed).Pass? && CheckClaim(c, network, signed).Pass?
    requires c.peer !in claims && |claims| < capacity && |claims| <= MAX_HOSTNAME_RECORDS
    requires IsListing(cs + [c], claims[c.peer := c])
    ensures Merges(cs, c, network, signed, capacity, ClaimStats(1, 0), cs + [c])
  {
    ListingIsHistory(cs, claims, network, signed);
    SingleClaim(claims, c, network, signed, capacity);
    AcceptedNew(claims, c);
    assert Merged(cs, [c], network, signed, capacity) == Ok(claims[c.peer := c]);
  }

  lemma FullListGrows(n: nat)
    requires n <= MAX_HOSTNAME_RECORDS
    ensures Merges(NumberedList(n), Numbered(n), "lab", Unsigned, n + 1, ClaimStats(1, 0), NumberedList(n + 1))
  {
    NumberedIsListing(n);
    NumberedIsListing(n + 1);
    NumberedIsValid(n);
    NumberedNext(n);
    NewClaimMerges(NumberedList(n), NumberedClaims(n), Numbered(n), "lab", Unsigned, n + 1);
  }

  lemma AcceptedNew(claims: Claims, c: Claim)
    requires c.peer !in claims
    ensures AcceptedCount(claims, [c]) == 1
  {
    assert [c][1..] == [];
  }

  lemma TooLongFails(cs: seq<Claim>, incoming: seq<Claim>, network: string, signed: Claim -> bool, capacity: nat,
                     result: Result<ClaimStats, ClaimError>, after: seq<Claim>)
    requires |cs| > MAX_HOSTNAME_RECORDS && IsMerge(cs, incoming, network, signed, capacity, result, after)
    ensures result == Err(TooManyClaims(MAX_HOSTNAME_RECORDS, |cs|)) && after == cs
  {}

  /** With a capacity above the limit, a claim merged into a full list makes a list that cannot be merged again. */
  lemma RepeatedMergeCanFail(limit: nat, result: Result<ClaimStats, ClaimError>, afterwards: seq<Claim>)
    requires limit == MAX_HOSTNAME_RECORDS
    requires IsMerge(NumberedList(limit + 1), [Numbered(limit)], "lab", Unsigned, limit + 1, result, afterwards)
    ensures Merges(NumberedList(limit), Numbered(limit), "lab", Unsigned, limit + 1, ClaimStats(1, 0), NumberedList(limit + 1))
    ensures result == Err(TooManyClaims(limit, limit + 1)) && afterwards == NumberedList(limit + 1)
  {
    FullListGrows(limit);
    TooLongFails(NumberedList(limit + 1), [Numbered(limit)], "lab", Unsigned, limit + 1, result, afterwards);
  }
}
