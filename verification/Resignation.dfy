/** What revocations and resignations do to the trust anchors and to the members they do not name. */
module Resignation {
  import opened Prelude
  import opened Records
  import opened Ledger
  import opened Replay
  import opened Sorting
  import opened Safety
  import opened Anchors
  import opened Merge
  import opened Singles
  import opened Transfer
  import Authority
  import Conservation
  import History

  // The anchors after a merge

  function Issuers(records: seq<Record>): set<Peer> {
    set r | r in records :: r.issuer
  }

  lemma AnchorsAppended(records: seq<Record>, more: seq<Record>)
    ensures SelfIssuers(records + more) == SelfIssuers(records) + SelfIssuers(more)
    ensures Issuers(records + more) == Issuers(records) + Issuers(more)
  {}

  lemma SelfGrantIsByRoot(records: seq<Record>, d: Delivery, network: string, signed: Record -> bool,
                          stats: MergeStats, after: seq<Record>, i: nat)
    requires IsMerge(records, d, network, signed, Ok(stats), after)
    requires |records| <= i < |after| && after[i].SelfIssued() && !after[i].revoked
    ensures after[i].issuer in d.roots
  {
    MergeAppendsAccepted(records, d, network, signed, stats, after);
    var e :| IsEvaluation(after, d.roots, Horizon(d.now), e) && AcceptedFrom(e, after, |records|);
    EvaluationSound(after, d.roots, Horizon(d.now), e);
    assert Logged(e.accepted, Event(i, after[i]));
    var k :| 0 <= k < |e.accepted| && e.accepted[k].event == Event(i, after[i]);
    Authority.JustifiedAt(e.accepted, d.roots, k);
  }

  /** Every resignation among the new records is one of an anchor. */
  predicate OnlyAnchorsResign(records: seq<Record>, more: seq<Record>) {
    forall r :: r in more && r.SelfIssued() && r.revoked ==> r.issuer in AnchorsOf(records)
  }

  /**
   Whether new records leave the anchors alone. With a self-issued record in the list, only the resignation of
   somebody else than an anchor changes them. Without one, every new issuer does, and so does the first
   self-issued record unless its issuers are all the anchors.
   */
  predicate KeepsAnchors(records: seq<Record>, more: seq<Record>) {
    if SelfIssuers(records) != {} then OnlyAnchorsResign(records, more)
    else if SelfIssuers(more) != {} then SelfIssuers(more) == AnchorsOf(records)
    else Issuers(more) <= AnchorsOf(records)
  }

  /**
   A merge under the list's own anchors, or any roots if it is empty, leaves them alone exactly if `KeepsAnchors` says so
   of what it appends.
   */
  lemma MergeKeepsAnchors(records: seq<Record>, d: Delivery, network: string, signed: Record -> bool,
                          stats: MergeStats, after: seq<Record>)
    requires IsMerge(records, d, network, signed, Ok(stats), after) && (records == [] || d.roots == AnchorsOf(records))
    ensures records <= after
    ensures AnchorsOf(after) == AnchorsOf(records) <==> KeepsAnchors(records, after[|records|..])
  {
    MergeAppends(records, d, network, signed, stats, after);
    assert after == records + after[|records|..];
    AnchorsGrow(records, after[|records|..]);
  }

  lemma MergeAppends(records: seq<Record>, d: Delivery, network: string, signed: Record -> bool,
                     stats: MergeStats, after: seq<Record>)
    requires IsMerge(records, d, network, signed, Ok(stats), after)
    ensures records <= after
    ensures forall r :: r in after[|records|..] && r.SelfIssued() && !r.revoked ==> r.issuer in d.roots
  {
    MergeIsAtomicAppend(records, d, network, signed, Ok(stats), after);
    forall i | |records| <= i < |after| && after[i].SelfIssued() && !after[i].revoked
      ensures after[i].issuer in d.roots
    {
      SelfGrantIsByRoot(records, d, network, signed, stats, after, i);
    }
  }

  lemma AnchorsGrow(records: seq<Record>, more: seq<Record>)
    requires records == [] || forall r :: r in more && r.SelfIssued() && !r.revoked ==> r.issuer in AnchorsOf(records)
    ensures AnchorsOf(records + more) == AnchorsOf(records) <==> KeepsAnchors(records, more)
  {
    AnchorsAppended(records, more);
    if SelfIssuers(records) != {} {
      assert SelfIssuers(more) <= SelfIssuers(records) <==> OnlyAnchorsResign(records, more);
    }
  }

  // A revocation that is newer than the whole list

  ghost predicate IsNewest(records: seq<Record>, r: Record) {
    forall x :: x in records ==> x.issuedAt < r.issuedAt
  }

  lemma WithoutLast(xs: seq<Event>, ys: seq<Event>, last: Event)
    requires multiset(xs + [last]) == multiset(ys + [last])
    ensures multiset(xs) == multiset(ys)
  {
    assert multiset(xs) == multiset(xs + [last]) - multiset{last};
    assert multiset(ys) == multiset(ys + [last]) - multiset{last};
  }

  lemma NewestComesLast(records: seq<Record>, r: Record, now: nat, ordered: seq<Event>)
    requires IsNewest(records, r) && r.issuedAt <= now && IsEventOrder(records + [r], now, ordered)
    ensures ordered != [] && ordered[|ordered| - 1] == Event(|records|, r)
  {
    var last := Event(|records|, r);
    OrderedMember(records + [r], now, ordered, last);
    var i :| 0 <= i < |ordered| && ordered[i] == last;
    var end := ordered[|ordered| - 1];
    OrderedMember(records + [r], now, ordered, end);
    assert end.index < |records| ==> end.record in records;
    assert i == |ordered| - 1 || EventLeq(ordered[i], end);
  }

  lemma NewestIsLast(records: seq<Record>, r: Record, now: nat, ordered: seq<Event>)
    requires IsNewest(records, r) && r.issuedAt <= now && IsEventOrder(records + [r], now, ordered)
    ensures ordered != [] && ordered[|ordered| - 1] == Event(|records|, r)
    ensures IsEventOrder(records, now, ordered[..|ordered| - 1])
  {
    NewestComesLast(records, r, now, ordered);
    var front, last := ordered[..|ordered| - 1], Event(|records|, r);
    assert (records + [r])[..|records|] == records;
    assert IssuedBy(records + [r], now) == IssuedBy(records, now) + [last];
    assert ordered == front + [last];
    WithoutLast(front, IssuedBy(records, now), last);
    assert SortedBy(front, EventLeq);
  }

  lemma OnlyRevocation(e: Evaluation, ev: Event, roots: set<Peer>)
    requires ev.record.revoked
    ensures var expired := e.(states := Expire(e.states, ev.record.issuedAt));
      ReplaySecond(e, ev.record.issuedAt, [ev], roots) ==
      if IssuerActive(ev.record, expired.states, roots) then AcceptRevocation(expired, ev) else expired
  {
    var expired := e.(states := Expire(e.states, ev.record.issuedAt));
    assert [ev][1..] == [] && Grants([]) == [] && Grants([ev]) == [];
    assert GrantPhase(expired, [], roots).0 == expired;
    assert AuthorizedRevocations([], expired.states, roots) == [];
    if IssuerActive(ev.record, expired.states, roots) {
      assert AuthorizedRevocations([ev], expired.states, roots) == [ev];
      assert RevocationPhase(expired, [ev]) == RevocationPhase(AcceptRevocation(expired, ev), []);
    } else {
      assert AuthorizedRevocations([ev], expired.states, roots) == [];
    }
  }

  /** Expiry commutes with a revocation. */
  lemma RevocationThenExpiry(states: States, ev: Event, now: nat)
    requires ev.record.revoked && ev.record.issuedAt <= now
    ensures Expire(Apply(Expire(states, ev.record.issuedAt), ev), now) == Apply(Expire(states, now), ev)
  {
    var before := Expire(states, ev.record.issuedAt);
    History.ExpireTwice(states, ev.record.issuedAt, now);
    assert Replaces(before, ev) == Replaces(Expire(states, now), ev);
    assert !ev.record.IsAdmission();
    var x, y := Expire(Apply(before, ev), now), Apply(Expire(before, now), ev);
    assert x.Keys == y.Keys && forall p :: p in x ==> x[p] == y[p];
  }

  lemma IssuerWasActive(states: States, r: Record, roots: set<Peer>, now: nat)
    requires r.issuedAt <= now && IssuerActive(r, Expire(states, now), roots)
    ensures IssuerActive(r, Expire(states, r.issuedAt), roots)
  {}

  lemma RevokedLast(early: Evaluation, ev: Event, roots: set<Peer>, now: nat, f: Evaluation)
    requires ev.record.revoked && ev.record.issuedAt <= now
    requires var last := ReplaySecond(early, ev.record.issuedAt, [ev], roots);
      f == last.(states := Expire(last.states, now))
    ensures var e := early.(states := Expire(early.states, now));
      f == (if IssuerActive(ev.record, Expire(early.states, ev.record.issuedAt), roots) then AcceptRevocation(e, ev) else e)
  {
    OnlyRevocation(early, ev, roots);
    RevocationThenExpiry(early.states, ev, now);
    History.ExpireTwice(early.states, ev.record.issuedAt, now);
  }

  /**
   Under fixed roots a revocation that is newer than every record of the list is either refused, and changes
   nothing at all, or is accepted last and changes the state of its member only. It is accepted if its issuer is
   active without it.
   */
  lemma NewestRevocationIsLocal(records: seq<Record>, r: Record, roots: set<Peer>, now: nat, f: Evaluation)
    returns (e: Evaluation)
    requires r.revoked && IsNewest(records, r) && r.issuedAt <= now && IsEvaluation(records + [r], roots, now, f)
    ensures IsEvaluation(records, roots, now, e)
    ensures f == e || f == AcceptRevocation(e, Event(|records|, r))
    ensures IssuerActive(r, e.states, roots) ==> f == AcceptRevocation(e, Event(|records|, r))
    ensures forall p :: p != r.member ==> CurrentState(f, p) == CurrentState(e, p)
  {
    var ordered: seq<Event> :| IsEventOrder(records + [r], now, ordered) && f == Evaluate(ordered, roots, now);
    e := NewestInOrder(records, r, roots, now, ordered, f);
    RevocationIsLocal(e, Event(|records|, r));
  }

  lemma NewestInOrder(records: seq<Record>, r: Record, roots: set<Peer>, now: nat, ordered: seq<Event>, f: Evaluation)
    returns (e: Evaluation)
    requires r.revoked && IsNewest(records, r) && r.issuedAt <= now
    requires IsEventOrder(records + [r], now, ordered) && f == Evaluate(ordered, roots, now)
    ensures IsEvaluation(records, roots, now, e)
    ensures f == e || f == AcceptRevocation(e, Event(|records|, r))
    ensures IssuerActive(r, e.states, roots) ==> f == AcceptRevocation(e, Event(|records|, r))
  {
    NewestIsLast(records, r, now, ordered);
    NewestIsAlone(records, r, now, ordered);
    e := LastIsRevoked(ordered, Event(|records|, r), roots, now);
  }

  lemma LastIsRevoked(ordered: seq<Event>, ev: Event, roots: set<Peer>, now: nat) returns (e: Evaluation)
    requires ordered != [] && ordered[|ordered| - 1] == ev && History.Boundary(ordered, |ordered| - 1)
    requires ev.record.revoked && ev.record.issuedAt <= now
    ensures e == Evaluate(ordered[..|ordered| - 1], roots, now)
    ensures var f := Evaluate(ordered, roots, now);
      && (f == e || f == AcceptRevocation(e, ev))
      && (IssuerActive(ev.record, e.states, roots) ==> f == AcceptRevocation(e, ev))
  {
    var early := ReplayFrom(EMPTY, ordered[..|ordered| - 1], roots);
    e := early.(states := Expire(early.states, now));
    LastSecond(ordered, ev, roots);
    RevokedLast(early, ev, roots, now, Evaluate(ordered, roots, now));
    if IssuerActive(ev.record, e.states, roots) {
      IssuerWasActive(early.states, ev.record, roots, now);
    }
  }

  lemma RevocationIsLocal(e: Evaluation, ev: Event)
    ensures forall p :: p != ev.record.member ==> CurrentState(AcceptRevocation(e, ev), p) == CurrentState(e, p)
  {}

  lemma LastSecond(ordered: seq<Event>, ev: Event, roots: set<Peer>)
    requires ordered != [] && ordered[|ordered| - 1] == ev && History.Boundary(ordered, |ordered| - 1)
    ensures var early := ReplayFrom(EMPTY, ordered[..|ordered| - 1], roots);
      ReplayFrom(EMPTY, ordered, roots) == ReplaySecond(early, ev.record.issuedAt, [ev], roots)
  {
    var n := |ordered| - 1;
    var early := ReplayFrom(EMPTY, ordered[..n], roots);
    History.ReplaySplits(EMPTY, ordered, n, roots);
    assert ordered[n..] == [ev] && [ev] + [] == [ev];
    NextSecond(early, ev, [], roots);
  }

  lemma NewestIsAlone(records: seq<Record>, r: Record, now: nat, ordered: seq<Event>)
    requires IsNewest(records, r) && ordered != [] && ordered[|ordered| - 1].record == r
    requires IsEventOrder(records, now, ordered[..|ordered| - 1])
    ensures History.Boundary(ordered, |ordered| - 1)
  {
    var n := |ordered| - 1;
    if n > 0 {
      assert ordered[..n][n - 1] == ordered[n - 1];
      OrderedMember(records, now, ordered[..n], ordered[n - 1]);
      assert ordered[n - 1].record in records;
    }
  }

  function CurrentState(e: Evaluation, p: Peer): Option<MemberState> {
    if p in e.states then Some(e.states[p]) else None
  }

  /**
   "Removes only the resigning member", and the same of every other revocation: if the anchors stay and the
   revocation is newer than the list, every other member keeps its state.
   */
  lemma RevocationRemovesOnlyItsMember(records: seq<Record>, r: Record, now: nat, f: Evaluation) returns (e: Evaluation)
    requires r.revoked && IsNewest(records, r) && r.issuedAt <= now && KeepsAnchors(records, [r])
    requires IsEvaluation(records + [r], AnchorsOf(records + [r]), now, f)
    ensures IsEvaluation(records, AnchorsOf(records), now, e)
    ensures forall p :: p != r.member ==> CurrentState(f, p) == CurrentState(e, p)
    ensures f == e || f == AcceptRevocation(e, Event(|records|, r))
  {
    AnchorsGrow(records, [r]);
    e := NewestRevocationIsLocal(records, r, AnchorsOf(records), now, f);
  }

  // A resignation that takes the anchors over

  /** A peer that is itself no member admits two peers, and the first of them resigns. */
  ghost predicate TakesOver(a: Record, b: Record, c: Record) {
    && a.IsAdmission() && !a.SelfIssued() && b.IsAdmission() && b.issuer == a.issuer && b.member !in {a.issuer, a.member}
    && c.revoked && c.SelfIssued() && c.member == a.member
    && a.issuedAt < b.issuedAt < c.issuedAt
    && a.expiresAt.None? && b.expiresAt.None? && c.expiresAt.None?
  }

  lemma TakenOver(a: Record, b: Record, c: Record)
    requires TakesOver(a, b, c)
    ensures AnchorsOf([a, b]) == {a.issuer} && AnchorsOf([a, b, c]) == {a.member}
  {
    assert a in [a, b] && c in [a, b, c];
    assert SelfIssuers([a, b]) == {} && Issuers([a, b]) == {a.issuer};
    assert SelfIssuers([a, b, c]) == {a.member};
  }

  lemma AdmittedBefore(a: Record, b: Record, c: Record, now: nat) returns (e: Evaluation)
    requires TakesOver(a, b, c) && b.issuedAt <= now
    ensures IsEvaluation([a, b], {a.issuer}, now, e) && b.member in e.states && e.states[b.member].active
  {
    var x, y := Event(0, a), Event(1, b);
    var two := TwoGrants(x, y, [], {a.issuer});
    assert [x, y] + [] == [x, y];
    IssuedAll([a, b], now);
    assert IssuedBy([a, b], now) == [x, y];
    TimeDecides([x, y]);
    NeverExpires(two.states, now);
    e := Evaluate([x, y], {a.issuer}, now);
  }

  lemma ResignationAccepted(x: Event, y: Event, z: Event, roots: set<Peer>, two: Evaluation) returns (e: Evaluation)
    requires Holds(two, [x, y], PairOf(x, y)) && x.record.member != y.record.member
    requires z.record.revoked && z.record.expiresAt.None? && z.record.issuer in {x.record.member, y.record.member}
    requires ReplayFrom(EMPTY, [x, y] + [z], roots) == ReplayFrom(two, [z], roots)
    ensures e == ReplayFrom(EMPTY, [x, y, z], roots) && Conservation.EventsOf(e.accepted) == [x, y, z]
  {
    assert [x, y] + [z] == [x, y, z] && [z] + [] == [z];
    Revoked(two, z, roots, [x, y], PairOf(x, y));
    NextSecond(two, z, [], roots);
    e := ReplaySecond(two, z.record.issuedAt, [z], roots);
  }

  lemma ThreeIssued(a: Record, b: Record, c: Record, now: nat)
    requires a.issuedAt < b.issuedAt < c.issuedAt <= now
    ensures IsEventOrder([a, b, c], now, [Event(0, a), Event(1, b), Event(2, c)])
  {
    IssuedAll([a, b, c], now);
    assert IssuedBy([a, b, c], now) == [Event(0, a), Event(1, b), Event(2, c)];
    TimeDecides([Event(0, a), Event(1, b), Event(2, c)]);
  }

  lemma ResignationEvaluates(a: Record, b: Record, c: Record, now: nat) returns (e: Evaluation)
    requires TakesOver(a, b, c) && c.issuedAt <= now
    ensures IsEvaluation([a, b, c], {a.issuer}, now, e) && Accepts(e, 2)
  {
    var x, y, z := Event(0, a), Event(1, b), Event(2, c);
    var two := TwoGrants(x, y, [z], {a.issuer});
    var three := ResignationAccepted(x, y, z, {a.issuer}, two);
    ThreeIssued(a, b, c, now);
    e := Evaluate([x, y, z], {a.issuer}, now);
    AcceptsThree(e, x, y, z, 2);
  }

  lemma ResignationMerges(a: Record, b: Record, c: Record, d: Delivery, network: string, signed: Record -> bool)
    requires TakesOver(a, b, c) && d == Delivery([c], d.now, {a.issuer}, d.capacity)
    requires VersionUnique([a, b, c]) && Distinct([a, b, c]) && CheckRecords([a, b, c], network, signed).Pass?
    requires c.issuedAt <= Horizon(d.now) && d.capacity >= 3
    ensures IsMerge([a, b], d, network, signed, Ok(MergeStats(1, 0)), [a, b, c])
  {
    assert [a, b] + [c] == [a, b, c];
    AppendOne([a, b], c, d, network, signed);
    var e := ResignationEvaluates(a, b, c, Horizon(d.now));
    MergeOne([a, b], c, d, network, signed, e);
  }

  lemma ShutOutAfter(a: Record, b: Record, c: Record, now: nat, e: Evaluation)
    requires TakesOver(a, b, c) && IsEvaluation([a, b, c], AnchorsOf([a, b, c]), now, e)
    ensures b.member in e.states ==> !e.states[b.member].active
  {
    TakenOver(a, b, c);
    Authority.UnanchoredPeersStayOut([a, b, c], {a.member}, now, e, {a.issuer, b.member});
  }

  // A resignation that makes its issuer an anchor

  /** A root admits a peer, which resigns; another record of that peer is dated before its admission. */
  ghost predicate Backdated(root: Record, member: Record, resignation: Record, late: Record) {
    && root.IsAdmission() && root.SelfIssued()
    && member.IsAdmission() && member.issuer == root.member && member.member != root.member
    && resignation.revoked && resignation.SelfIssued() && resignation.member == member.member
    && late.IsAdmission() && late.issuer == member.member && late.member !in {root.member, member.member}
    && root.issuedAt < late.issuedAt < member.issuedAt < resignation.issuedAt
    && root.expiresAt.None? && member.expiresAt.None? && resignation.expiresAt.None? && late.expiresAt.None?
  }

  lemma AnchorsExtended(root: Record, member: Record, resignation: Record, late: Record)
    requires Backdated(root, member, resignation, late)
    ensures AnchorsOf([root, member]) == {root.member}
    ensures AnchorsOf([root, member, resignation]) == {root.member, member.member}
  {
    assert SelfIssuers([root, member]) == {root.member} by {
      assert root in [root, member];
    }
    assert SelfIssuers([root, member, resignation]) == {root.member, member.member} by {
      assert root in [root, member, resignation] && resignation in [root, member, resignation];
    }
  }

  lemma SwapSecond(x: Event, y: Event, z: Event)
    ensures multiset([x, y, z]) == multiset([x, z, y])
  {
    assert [x, y, z] == [x] + [y, z] && [x, z, y] == [x] + [z, y];
    assert multiset([y, z]) == multiset([z, y]);
  }

  lemma LateSecond(a: Record, b: Record, c: Record, now: nat)
    requires a.issuedAt < c.issuedAt < b.issuedAt <= now
    ensures IsEventOrder([a, b, c], now, [Event(0, a), Event(2, c), Event(1, b)])
  {
    IssuedAll([a, b, c], now);
    assert IssuedBy([a, b, c], now) == [Event(0, a), Event(1, b), Event(2, c)];
    SwapSecond(Event(0, a), Event(1, b), Event(2, c));
    TimeDecides([Event(0, a), Event(2, c), Event(1, b)]);
  }

  lemma AcceptsTwo(e: Evaluation, a: Event, b: Event, i: nat)
    requires Conservation.EventsOf(e.accepted) == [a, b]
    ensures Accepts(e, i) <==> i == a.index || i == b.index
  {
    var events := Conservation.EventsOf(e.accepted);
    assert |e.accepted| == |events| == 2 && forall k :: 0 <= k < 2 ==> e.accepted[k].event == events[k];
    assert e.accepted[0].event == a && e.accepted[1].event == b;
  }

  lemma RefusedBefore(root: Record, member: Record, resignation: Record, late: Record, now: nat) returns (e: Evaluation)
    requires Backdated(root, member, resignation, late) && member.issuedAt <= now
    ensures IsEvaluation([root, member, late], {root.member}, now, e) && !Accepts(e, 2)
  {
    var x, y, z := Event(0, root), Event(1, member), Event(2, late);
    LateSecond(root, member, late, now);
    var last := LateRefused(x, y, z);
    e := Evaluate([x, z, y], {root.member}, now);
    AcceptsTwo(e, x, y, 2);
  }

  lemma LateRefused(x: Event, y: Event, z: Event) returns (e: Evaluation)
    requires x.record.IsAdmission() && x.record.SelfIssued() && x.record.expiresAt.None?
    requires y.record.IsAdmission() && y.record.issuer == x.record.member != y.record.member && y.record.expiresAt.None?
    requires z.record.IsAdmission() && z.record.issuer == y.record.member
    requires x.record.issuedAt < z.record.issuedAt < y.record.issuedAt
    ensures e == ReplayFrom(EMPTY, [x, z, y], {x.record.member}) && Conservation.EventsOf(e.accepted) == [x, y]
  {
    var roots := {x.record.member};
    assert Conservation.EventsOf([]) == [] && Holds(EMPTY, [], map[]) && [] + [x] == [x];
    var first := ReplaySecond(EMPTY, x.record.issuedAt, [x], roots);
    Granted(EMPTY, x, roots, [], map[]);
    Refused(first, z, roots, [x], first.states);
    Granted(first, y, roots, [x], first.states);
    assert [x, z, y] == [x] + [z, y] && [z, y] == [z] + [y] && [y] + [] == [y] && [x] + [y] == [x, y];
    NextSecond(EMPTY, x, [z, y], roots);
    NextSecond(first, z, [y], roots);
    NextSecond(first, y, [], roots);
    e := ReplaySecond(first, y.record.issuedAt, [y], roots);
  }

  lemma LateAccepted(x: Event, w: Event, y: Event, z: Event) returns (e: Evaluation)
    requires Backdated(x.record, y.record, z.record, w.record)
    ensures e == ReplayFrom(EMPTY, [x, w, y, z], {x.record.member, y.record.member})
    ensures Holds(e, [x, w, y, z], e.states) && w.record.member in e.states && e.states[w.record.member].active
  {
    var roots := {x.record.member, y.record.member};
    var two := TwoGrants(x, w, [y, z], roots);
    assert [x, w] + [y, z] == [x, w, y, z];
    e := JoinedAndResigned(x, w, y, z, two, roots);
  }

  lemma JoinedAndResigned(x: Event, w: Event, y: Event, z: Event, two: Evaluation, roots: set<Peer>) returns (e: Evaluation)
    requires Backdated(x.record, y.record, z.record, w.record) && Holds(two, [x, w], PairOf(x, w))
    ensures e == ReplayFrom(two, [y, z], roots)
    ensures Holds(e, [x, w, y, z], e.states) && w.record.member in e.states && e.states[w.record.member].active
  {
    assert [y, z] == [y] + [z] && [z] + [] == [z];
    assert [x, w] + [y] == [x, w, y] && [x, w, y] + [z] == [x, w, y, z];
    var three := ReplaySecond(two, y.record.issuedAt, [y], roots);
    Granted(two, y, roots, [x, w], PairOf(x, w));
    Revoked(three, z, roots, [x, w, y], three.states);
    NextSecond(two, y, [z], roots);
    NextSecond(three, z, [], roots);
    e := ReplaySecond(three, z.record.issuedAt, [z], roots);
  }

  lemma LastToSecond(x: Event, y: Event, z: Event, w: Event)
    ensures multiset([x, y, z, w]) == multiset([x, w, y, z])
  {
    assert [x, y, z, w] == [x] + [y, z] + [w] && [x, w, y, z] == [x] + [w] + [y, z];
  }

  lemma LateOfFour(a: Record, b: Record, c: Record, d: Record, now: nat)
    requires a.issuedAt < d.issuedAt < b.issuedAt < c.issuedAt <= now
    ensures IsEventOrder([a, b, c, d], now, [Event(0, a), Event(3, d), Event(1, b), Event(2, c)])
  {
    var x, y, z, w := Event(0, a), Event(1, b), Event(2, c), Event(3, d);
    FourIssued(a, b, c, d, now);
    LastToSecond(x, y, z, w);
    FourByTime(x, w, y, z);
  }

  lemma AcceptsEvent(e: Evaluation, k: nat)
    requires k < |Conservation.EventsOf(e.accepted)|
    ensures Accepts(e, Conservation.EventsOf(e.accepted)[k].index)
  {
    assert e.accepted[k].event == Conservation.EventsOf(e.accepted)[k];
  }

  lemma AdmittedAfter(root: Record, member: Record, resignation: Record, late: Record, now: nat) returns (e: Evaluation)
    requires Backdated(root, member, resignation, late) && resignation.issuedAt <= now
    ensures IsEvaluation([root, member, resignation, late], {root.member, member.member}, now, e)
    ensures Accepts(e, 3) && late.member in e.states && e.states[late.member].active
  {
    var x, y, z, w := Event(0, root), Event(1, member), Event(2, resignation), Event(3, late);
    LateOfFour(root, member, resignation, late, now);
    var last := LateAccepted(x, w, y, z);
    NeverExpires(last.states, now);
    e := Evaluate([x, w, y, z], {root.member, member.member}, now);
    AcceptsEvent(e, 1);
  }

  lemma ResignedEvaluates(root: Record, member: Record, resignation: Record, late: Record, now: nat) returns (e: Evaluation)
    requires Backdated(root, member, resignation, late) && resignation.issuedAt <= now
    ensures IsEvaluation([root, member, resignation], {root.member}, now, e) && Accepts(e, 2)
  {
    var x, y, z := Event(0, root), Event(1, member), Event(2, resignation);
    var two := RootAndDelegate(x, y, [z]);
    var three := ResignationAccepted(x, y, z, {root.member}, two);
    ThreeIssued(root, member, resignation, now);
    e := Evaluate([x, y, z], {root.member}, now);
    AcceptsThree(e, x, y, z, 2);
  }

  ghost predicate Storable(records: seq<Record>, network: string, signed: Record -> bool) {
    VersionUnique(records) && Distinct(records) && CheckRecords(records, network, signed).Pass?
  }

  lemma RefuseOne(records: seq<Record>, r: Record, d: Delivery, network: string, signed: Record -> bool, e: Evaluation,
                  result: Result<MergeStats, RecordError>, after: seq<Record>)
    requires Prepare(records, d, network, signed) == Ok(records + [r])
    requires VersionUnique(records + [r]) && Distinct(records + [r])
    requires IsEvaluation(records + [r], d.roots, Horizon(d.now), e) && !Accepts(e, |records|)
    requires IsMerge(records, d, network, signed, result, after)
    ensures result == Err(UntrustedIssuer(r.issuer)) && after == records
  {
    var merged := records + [r];
    var f :| IsEvaluation(merged, d.roots, Horizon(d.now), f) && Concludes(records, d, merged, f, result, after);
    UniqueIsTieless(merged);
    EvaluationIsOne(merged, d.roots, Horizon(d.now), e, f);
  }

  /** Before the resignation the backdated record is refused. */
  lemma LateRefusedBefore(root: Record, member: Record, resignation: Record, late: Record, d: Delivery,
                          network: string, signed: Record -> bool, result: Result<MergeStats, RecordError>, after: seq<Record>)
    requires Backdated(root, member, resignation, late) && d == Delivery([late], d.now, {root.member}, d.capacity)
    requires Storable([root, member, late], network, signed) && member.issuedAt <= Horizon(d.now) && d.capacity >= 3
    requires IsMerge([root, member], d, network, signed, result, after)
    ensures result == Err(UntrustedIssuer(member.member)) && after == [root, member]
  {
    var stored, merged := [root, member], [root, member, late];
    assert stored + [late] == merged;
    AppendOne(stored, late, d, network, signed);
    var e := RefusedBefore(root, member, resignation, late, Horizon(d.now));
    RefuseOne(stored, late, d, network, signed, e, result, after);
  }

  /** The resignation is merged, and then the backdated record is too and admits its member. */
  lemma ResignedMerges(root: Record, member: Record, resignation: Record, late: Record, d: Delivery,
                       network: string, signed: Record -> bool)
    requires Backdated(root, member, resignation, late) && d == Delivery([resignation], d.now, {root.member}, d.capacity)
    requires Storable([root, member, resignation], network, signed)
    requires resignation.issuedAt <= Horizon(d.now) && d.capacity >= 3
    ensures IsMerge([root, member], d, network, signed, Ok(MergeStats(1, 0)), [root, member, resignation])
  {
    assert [root, member] + [resignation] == [root, member, resignation];
    AppendOne([root, member], resignation, d, network, signed);
    var e := ResignedEvaluates(root, member, resignation, late, Horizon(d.now));
    MergeOne([root, member], resignation, d, network, signed, e);
  }

  lemma LateMerges(root: Record, member: Record, resignation: Record, late: Record, d: Delivery,
                   network: string, signed: Record -> bool) returns (e: Evaluation)
    requires Backdated(root, member, resignation, late)
    requires d == Delivery([late], d.now, {root.member, member.member}, d.capacity)
    requires Storable([root, member, resignation, late], network, signed)
    requires resignation.issuedAt <= Horizon(d.now) && d.capacity >= 4
    ensures var merged := [root, member, resignation, late];
      && IsMerge([root, member, resignation], d, network, signed, Ok(MergeStats(1, 0)), merged)
      && IsEvaluation(merged, d.roots, Horizon(d.now), e) && late.member in e.states && e.states[late.member].active
  {
    var stored := [root, member, resignation];
    assert stored + [late] == [root, member, resignation, late];
    AppendOne(stored, late, d, network, signed);
    e := AdmittedAfter(root, member, resignation, late, Horizon(d.now));
    MergeOne(stored, late, d, network, signed, e);
  }

  // The two stories

  const INVITED := Record(1, "lab", 2, 1, 1, 1, false, None, [OverlayMember], [], 10, None, 0)
  const NEIGHBOUR := INVITED.(member := 3, issuedAt := 20, signature := 1)
  const RESIGNED := INVITED.(issuer := 2, sequence := 2, revoked := true, roles := [], issuedAt := 30, signature := 2)

  lemma TakeOverExists()
    ensures TakesOver(INVITED, NEIGHBOUR, RESIGNED) && RESIGNED.issuedAt <= Horizon(100)
    ensures Storable([INVITED, NEIGHBOUR, RESIGNED], "lab", Unsigned)
  {}

  /**
   The anchor 1 admits 2 and 3; when 2 resigns, 2 becomes the only anchor. Member 3 was active and is active in no
   evaluation of the merged list.
   */
  lemma ResignationRemovesOthers(now: nat, f: Evaluation) returns (e: Evaluation)
    requires IsEvaluation([INVITED, NEIGHBOUR, RESIGNED], AnchorsOf([INVITED, NEIGHBOUR, RESIGNED]), now, f)
    ensures AnchorsOf([INVITED, NEIGHBOUR]) == {1} && AnchorsOf([INVITED, NEIGHBOUR, RESIGNED]) == {2}
    ensures IsMerge([INVITED, NEIGHBOUR], Bring([RESIGNED]), "lab", Unsigned, Ok(MergeStats(1, 0)),
                    [INVITED, NEIGHBOUR, RESIGNED])
    ensures IsEvaluation([INVITED, NEIGHBOUR], {1}, 100, e) && 3 in e.states && e.states[3].active
    ensures 3 in f.states ==> !f.states[3].active
  {
    TakeOverExists();
    TakenOver(INVITED, NEIGHBOUR, RESIGNED);
    ResignationMerges(INVITED, NEIGHBOUR, RESIGNED, Bring([RESIGNED]), "lab", Unsigned);
    e := AdmittedBefore(INVITED, NEIGHBOUR, RESIGNED, 100);
    ShutOutAfter(INVITED, NEIGHBOUR, RESIGNED, now, f);
  }

  const FOUNDER := INVITED.(member := 1, signature := 3)
  const JOINED := INVITED.(issuedAt := 20)
  const LATE := INVITED.(issuer := 2, member := 3, issuedAt := 15, signature := 4)

  lemma BackdatedExists()
    ensures Backdated(FOUNDER, JOINED, RESIGNED, LATE) && RESIGNED.issuedAt <= Horizon(100)
    ensures Storable([FOUNDER, JOINED, RESIGNED, LATE], "lab", Unsigned)
    ensures Storable([FOUNDER, JOINED, RESIGNED], "lab", Unsigned) && Storable([FOUNDER, JOINED, LATE], "lab", Unsigned)
  {}

  /**
   The founder 1 admits 2, and 2 resigns: that makes 2 an anchor. A grant by 2 that is dated before its admission
   is refused before the resignation, but merged after it, and its member is active.
   */
  lemma ResignationMakesAnAnchor(result: Result<MergeStats, RecordError>, after: seq<Record>) returns (e: Evaluation)
    requires IsMerge([FOUNDER, JOINED], Bring([LATE]), "lab", Unsigned, result, after)
    ensures result == Err(UntrustedIssuer(2)) && after == [FOUNDER, JOINED]
    ensures AnchorsOf([FOUNDER, JOINED]) == {1} && AnchorsOf([FOUNDER, JOINED, RESIGNED]) == {1, 2}
    ensures IsMerge([FOUNDER, JOINED], Bring([RESIGNED]), "lab", Unsigned, Ok(MergeStats(1, 0)), [FOUNDER, JOINED, RESIGNED])
    ensures var merged := [FOUNDER, JOINED, RESIGNED, LATE];
      && IsMerge([FOUNDER, JOINED, RESIGNED], Bring([LATE]).(roots := {1, 2}), "lab", Unsigned, Ok(MergeStats(1, 0)), merged)
      && IsEvaluation(merged, {1, 2}, Horizon(100), e) && 3 in e.states && e.states[3].active
  {
    BackdatedExists();
    AnchorsExtended(FOUNDER, JOINED, RESIGNED, LATE);
    LateRefusedBefore(FOUNDER, JOINED, RESIGNED, LATE, Bring([LATE]), "lab", Unsigned, result, after);
    ResignedMerges(FOUNDER, JOINED, RESIGNED, LATE, Bring([RESIGNED]), "lab", Unsigned);
    e := LateMerges(FOUNDER, JOINED, RESIGNED, LATE, Bring([LATE]).(roots := {1, 2}), "lab", Unsigned);
  }
}
