/** When a replica's whole list can be handed to a new replica in one delivery. */
module Transfer {
  import opened Prelude
  import opened Records
  import opened Ledger
  import opened Replay
  import opened Sorting
  import opened Merge
  import Deadline
  import opened Singles
  import Versions
  import Conservation
  import Convergence

  // A list without ties and duplicates has one evaluation

  lemma OrderIsOne(records: seq<Record>, now: nat, xs: seq<Event>, ys: seq<Event>)
    requires Tieless(records) && Distinct(records)
    requires IsEventOrder(records, now, xs) && IsEventOrder(records, now, ys)
    ensures xs == ys
  {
    Convergence.OrderIsUnique(records, records, now, xs, ys);
    assert |xs| == |Convergence.RecordsOf(xs)| == |Convergence.RecordsOf(ys)| == |ys|;
    forall i | 0 <= i < |xs|
      ensures xs[i] == ys[i]
    {
      assert xs[i].record == Convergence.RecordsOf(xs)[i] == Convergence.RecordsOf(ys)[i] == ys[i].record;
      OrderedMember(records, now, xs, xs[i]);
      OrderedMember(records, now, ys, ys[i]);
    }
  }

  lemma EvaluationIsOne(records: seq<Record>, roots: set<Peer>, now: nat, e: Evaluation, f: Evaluation)
    requires Tieless(records) && Distinct(records)
    requires IsEvaluation(records, roots, now, e) && IsEvaluation(records, roots, now, f)
    ensures e == f
  {
    var xs: seq<Event> :| IsEventOrder(records, now, xs) && e == Evaluate(xs, roots, now);
    var ys: seq<Event> :| IsEventOrder(records, now, ys) && f == Evaluate(ys, roots, now);
    OrderIsOne(records, now, xs, ys);
  }

  // Handing over a list

  ghost predicate Timely(records: seq<Record>, k: nat, now: U64) {
    forall i :: k <= i < |records| ==> records[i].issuedAt <= Horizon(now)
  }

  lemma {:induction false} AbsorbAll(x: seq<Record>, k: nat, d: Delivery)
    requires VersionUnique(x) && Distinct(x) && k <= |x| && d.incoming == x[k..]
    ensures Absorb(x[..k], d).Ok? <==> k == |x| || (|x| <= d.capacity && Timely(x, k, d.now))
    ensures Absorb(x[..k], d).Ok? ==> Absorb(x[..k], d).value == x
    decreases |x| - k
  {
    if k == |x| {
      assert x[..k] == x;
    } else {
      var r := x[k];
      assert d.incoming[0] == r && d.incoming[1..] == x[k + 1..] && x[..k] + [r] == x[..k + 1];
      assert r !in x[..k] && !Slotted(x[..k], r);
      AbsorbAll(x, k + 1, d.(incoming := x[k + 1..]));
    }
  }

  lemma PrepareAll(x: seq<Record>, d: Delivery, network: string, signed: Record -> bool)
    requires VersionUnique(x) && Distinct(x) && CheckRecords(x, network, signed).Pass? && d.incoming == x
    ensures Prepare([], d, network, signed).Ok? <==> |x| <= d.capacity && Timely(x, 0, d.now)
    ensures Prepare([], d, network, signed).Ok? ==> Prepare([], d, network, signed).value == x
  {
    assert x[..0] == [] && x[0..] == x;
    AbsorbAll(x, 0, d);
    Versions.UniquePasses(x);
    assert CheckRecords([], network, signed).Pass?;
  }

  /**
   A valid list without duplicates or conflicting versions, such as every run of merges leaves, is taken over
   whole by an empty replica exactly when it fits, is not ahead of the receiver's clock by more than the skew,
   and the ledger still accepts every record of it; otherwise nothing is taken over.
   */
  lemma TransferIsExact(x: seq<Record>, d: Delivery, network: string, signed: Record -> bool,
                        result: Result<MergeStats, RecordError>, after: seq<Record>)
    requires VersionUnique(x) && Distinct(x) && CheckRecords(x, network, signed).Pass? && d.incoming == x
    requires IsMerge([], d, network, signed, result, after)
    ensures result.Ok? <==>
      && |x| <= d.capacity && Timely(x, 0, d.now)
      && forall i :: 0 <= i < |x| ==> Accepts(EvaluationOf(x, d.roots, Horizon(d.now)), i)
    ensures after == if result.Ok? then x else []
  {
    PrepareAll(x, d, network, signed);
    if Prepare([], d, network, signed).Ok? {
      var e := Concluded(x, d, network, signed, result, after);
    }
  }

  lemma Concluded(x: seq<Record>, d: Delivery, network: string, signed: Record -> bool,
                  result: Result<MergeStats, RecordError>, after: seq<Record>) returns (e: Evaluation)
    requires VersionUnique(x) && Distinct(x) && Prepare([], d, network, signed) == Ok(x)
    requires IsMerge([], d, network, signed, result, after)
    ensures e == EvaluationOf(x, d.roots, Horizon(d.now)) && Concludes([], d, x, e, result, after)
  {
    e :| IsEvaluation(x, d.roots, Horizon(d.now), e) && Concludes([], d, x, e, result, after);
    UniqueIsTieless(x);
    EvaluationIsOne(x, d.roots, Horizon(d.now), e, EvaluationOf(x, d.roots, Horizon(d.now)));
  }

  // A revocation dated before a grant that its member already issued

  /**
   A root admits a delegate and the delegate a guest, and the root's revocation of the delegate is dated between
   the two grants.
   */
  ghost predicate Backdates(root: Record, delegate: Record, guest: Record, revocation: Record) {
    && root.IsAdmission() && root.SelfIssued()
    && delegate.IsAdmission() && delegate.issuer == root.member && delegate.member != root.member
    && guest.IsAdmission() && guest.issuer == delegate.member && guest.member !in {root.member, delegate.member}
    && revocation.revoked && revocation.issuer == root.member && revocation.member == delegate.member
    && NewerVersion(revocation, delegate)
    && root.issuedAt < delegate.issuedAt < revocation.issuedAt < guest.issuedAt
    && root.expiresAt.None? && delegate.expiresAt.None? && guest.expiresAt.None? && revocation.expiresAt.None?
  }

  lemma Refused(e: Evaluation, ev: Event, roots: set<Peer>, events: seq<Event>, states: States)
    requires Holds(e, events, states) && !Deadline.Allowed(ev.record, states, roots)
    ensures ReplaySecond(e, ev.record.issuedAt, [ev], roots) == e
  {
    NeverExpires(states, ev.record.issuedAt);
    Deadline.QuietSecond(e, ev.record.issuedAt, [ev], roots);
  }

  lemma GuestAccepted(root: Event, delegate: Event, guest: Event, revocation: Event) returns (e: Evaluation)
    requires Backdates(root.record, delegate.record, guest.record, revocation.record)
    ensures e == ReplayFrom(EMPTY, [root, delegate, guest], {root.record.member})
    ensures Conservation.EventsOf(e.accepted) == [root, delegate, guest]
  {
    var roots := {root.record.member};
    var two := RootAndDelegate(root, delegate, [guest]);
    assert [root, delegate] + [guest] == [root, delegate, guest] && [guest] + [] == [guest];
    Granted(two, guest, roots, [root, delegate], PairOf(root, delegate));
    NextSecond(two, guest, [], roots);
    e := ReplaySecond(two, guest.record.issuedAt, [guest], roots);
  }

  lemma DelegateRevoked(root: Event, delegate: Event, revocation: Event, two: Evaluation) returns (e: Evaluation)
    requires Holds(two, [root, delegate], PairOf(root, delegate)) && root.record.member != delegate.record.member
    requires revocation.record.revoked && revocation.record.expiresAt.None?
    requires revocation.record.issuer == root.record.member && revocation.record.member == delegate.record.member
    requires NewerVersion(revocation.record, delegate.record)
    ensures e == ReplaySecond(two, revocation.record.issuedAt, [revocation], {root.record.member})
    ensures Holds(e, [root, delegate, revocation], Apply(PairOf(root, delegate), revocation))
    ensures var p := delegate.record.member; p in e.states && !e.states[p].active
  {
    Revoked(two, revocation, {root.record.member}, [root, delegate], PairOf(root, delegate));
    e := ReplaySecond(two, revocation.record.issuedAt, [revocation], {root.record.member});
    assert [root, delegate] + [revocation] == [root, delegate, revocation];
    WinsIsPrecedence(revocation.record, delegate.record, true);
  }

  lemma LastTwoSeconds(two: Evaluation, a: Event, b: Event, roots: set<Peer>, e: Evaluation)
    requires a.record.issuedAt < b.record.issuedAt && e == ReplaySecond(two, a.record.issuedAt, [a], roots)
    requires ReplaySecond(e, b.record.issuedAt, [b], roots) == e
    ensures ReplayFrom(two, [a, b], roots) == e
  {
    assert [a, b] == [a] + [b] && [b] + [] == [b];
    NextSecond(two, a, [b], roots);
    NextSecond(e, b, [], roots);
  }

  lemma GuestVoided(root: Event, delegate: Event, guest: Event, revocation: Event) returns (e: Evaluation)
    requires Backdates(root.record, delegate.record, guest.record, revocation.record)
    ensures e == ReplayFrom(EMPTY, [root, delegate, revocation, guest], {root.record.member})
    ensures Conservation.EventsOf(e.accepted) == [root, delegate, revocation]
  {
    var two := RootAndDelegate(root, delegate, [revocation, guest]);
    assert [root, delegate] + [revocation, guest] == [root, delegate, revocation, guest];
    e := DelegateRevoked(root, delegate, revocation, two);
    Refused(e, guest, {root.record.member}, [root, delegate, revocation], e.states);
    LastTwoSeconds(two, revocation, guest, {root.record.member}, e);
  }

  lemma SwapLast(a: Event, b: Event, x: Event, y: Event)
    ensures multiset([a, b, x, y]) == multiset([a, b, y, x])
  {
    assert [a, b, x, y] == [a, b] + [x, y] && [a, b, y, x] == [a, b] + [y, x];
    assert multiset([x, y]) == multiset([y, x]);
  }

  lemma BeforeEvaluates(root: Record, delegate: Record, guest: Record, revocation: Record, now: nat) returns (e: Evaluation)
    requires Backdates(root, delegate, guest, revocation) && guest.issuedAt <= now
    ensures IsEvaluation([root, delegate, guest], {root.member}, now, e)
    ensures Conservation.EventsOf(e.accepted) == [Event(0, root), Event(1, delegate), Event(2, guest)]
  {
    var ordered := [Event(0, root), Event(1, delegate), Event(2, guest)];
    var last := GuestAccepted(Event(0, root), Event(1, delegate), Event(2, guest), Event(3, revocation));
    IssuedAll([root, delegate, guest], now);
    assert IssuedBy([root, delegate, guest], now) == ordered;
    TimeDecides(ordered);
    e := Evaluate(ordered, {root.member}, now);
  }

  lemma FourIssued(a: Record, b: Record, c: Record, d: Record, now: nat)
    requires a.issuedAt <= now && b.issuedAt <= now && c.issuedAt <= now && d.issuedAt <= now
    ensures IssuedBy([a, b, c, d], now) == [Event(0, a), Event(1, b), Event(2, c), Event(3, d)]
  {
    IssuedAll([a, b, c, d], now);
  }

  lemma AfterInOrder(a: Event, b: Event, c: Event, d: Event, now: nat)
    requires a.index == 0 && b.index == 1 && c.index == 2 && d.index == 3
    requires a.record.issuedAt < b.record.issuedAt < d.record.issuedAt < c.record.issuedAt <= now
    ensures IsEventOrder([a.record, b.record, c.record, d.record], now, [a, b, d, c])
  {
    FourIssued(a.record, b.record, c.record, d.record, now);
    SwapLast(a, b, c, d);
    FourByTime(a, b, d, c);
  }

  lemma FourByTime(a: Event, b: Event, c: Event, d: Event)
    requires a.record.issuedAt < b.record.issuedAt < c.record.issuedAt < d.record.issuedAt
    ensures SortedBy([a, b, c, d], EventLeq)
  {
    TimeDecides([a, b, c, d]);
  }

  lemma AfterEvaluates(root: Record, delegate: Record, guest: Record, revocation: Record, now: nat) returns (e: Evaluation)
    requires Backdates(root, delegate, guest, revocation) && guest.issuedAt <= now
    ensures IsEvaluation([root, delegate, guest, revocation], {root.member}, now, e)
    ensures Conservation.EventsOf(e.accepted) == [Event(0, root), Event(1, delegate), Event(3, revocation)]
  {
    var a, b, c, d := Event(0, root), Event(1, delegate), Event(2, guest), Event(3, revocation);
    var last := GuestVoided(a, b, c, d);
    AfterInOrder(a, b, c, d, now);
    e := Evaluate([a, b, d, c], {root.member}, now);
  }

  lemma AcceptsThree(e: Evaluation, a: Event, b: Event, c: Event, i: nat)
    requires Conservation.EventsOf(e.accepted) == [a, b, c]
    ensures Accepts(e, i) <==> i == a.index || i == b.index || i == c.index
  {
    var events := Conservation.EventsOf(e.accepted);
    assert |e.accepted| == |events| == 3 && forall k :: 0 <= k < 3 ==> e.accepted[k].event == events[k];
    assert e.accepted[0].event == a && e.accepted[1].event == b && e.accepted[2].event == c;
  }

  lemma StoryIsWellFormed(root: Record, delegate: Record, guest: Record, revocation: Record)
    requires Backdates(root, delegate, guest, revocation)
    ensures VersionUnique([root, delegate, guest]) && Distinct([root, delegate, guest])
    ensures VersionUnique([root, delegate, guest, revocation]) && Distinct([root, delegate, guest, revocation])
  {}

  lemma GuestMerges(root: Record, delegate: Record, guest: Record, revocation: Record, d: Delivery,
                    network: string, signed: Record -> bool)
    requires Backdates(root, delegate, guest, revocation)
    requires d == Delivery([root, delegate, guest], d.now, {root.member}, d.capacity)
    requires CheckRecords(d.incoming, network, signed).Pass? && guest.issuedAt <= Horizon(d.now) && d.capacity >= 3
    ensures IsMerge([], d, network, signed, Ok(MergeStats(3, 0)), [root, delegate, guest])
  {
    var stored := [root, delegate, guest];
    StoryIsWellFormed(root, delegate, guest, revocation);
    PrepareAll(stored, d, network, signed);
    var e := BeforeEvaluates(root, delegate, guest, revocation, Horizon(d.now));
    forall i | 0 <= i < 3
      ensures Accepts(e, i)
    {
      AcceptsThree(e, Event(0, root), Event(1, delegate), Event(2, guest), i);
    }
    assert Concludes([], d, stored, e, Ok(MergeStats(3, 0)), stored);
  }

  lemma AppendOne(records: seq<Record>, r: Record, d: Delivery, network: string, signed: Record -> bool)
    requires VersionUnique(records + [r]) && Distinct(records + [r]) && d.incoming == [r]
    requires CheckRecords(records + [r], network, signed).Pass?
    requires r.issuedAt <= Horizon(d.now) && |records| < d.capacity
    ensures Prepare(records, d, network, signed) == Ok(records + [r])
  {
    var after := records + [r];
    assert forall i :: 0 <= i < |records| ==> records[i] == after[i];
    assert after[|records|] == r && [r][1..] == [];
    Versions.UniquePasses(records);
    Versions.UniquePasses(after);
    assert Absorb(records, d) == Absorb(after, d.(incoming := [])) == Ok(after);
  }

  lemma MergeOne(records: seq<Record>, r: Record, d: Delivery, network: string, signed: Record -> bool, e: Evaluation)
    requires Prepare(records, d, network, signed) == Ok(records + [r]) && d.incoming == [r]
    requires IsEvaluation(records + [r], d.roots, Horizon(d.now), e) && Accepts(e, |records|)
    ensures IsMerge(records, d, network, signed, Ok(MergeStats(1, 0)), records + [r])
  {
    assert Concludes(records, d, records + [r], e, Ok(MergeStats(1, 0)), records + [r]);
  }

  lemma BackdatedMerges(root: Record, delegate: Record, guest: Record, revocation: Record, d: Delivery,
                        network: string, signed: Record -> bool)
    requires Backdates(root, delegate, guest, revocation)
    requires d == Delivery([revocation], d.now, {root.member}, d.capacity)
    requires CheckRecords([root, delegate, guest, revocation], network, signed).Pass?
    requires guest.issuedAt <= Horizon(d.now) && d.capacity >= 4
    ensures IsMerge([root, delegate, guest], d, network, signed, Ok(MergeStats(1, 0)), [root, delegate, guest, revocation])
  {
    var stored := [root, delegate, guest];
    assert stored + [revocation] == [root, delegate, guest, revocation];
    StoryIsWellFormed(root, delegate, guest, revocation);
    AppendOne(stored, revocation, d, network, signed);
    var e := AfterEvaluates(root, delegate, guest, revocation, Horizon(d.now));
    AcceptsThree(e, Event(0, root), Event(1, delegate), Event(3, revocation), 3);
    MergeOne(stored, revocation, d, network, signed, e);
  }

  lemma TransferRefused(root: Record, delegate: Record, guest: Record, revocation: Record, d: Delivery,
                        network: string, signed: Record -> bool, result: Result<MergeStats, RecordError>, after: seq<Record>)
    requires Backdates(root, delegate, guest, revocation)
    requires d == Delivery([root, delegate, guest, revocation], d.now, {root.member}, d.capacity)
    requires CheckRecords(d.incoming, network, signed).Pass? && guest.issuedAt <= Horizon(d.now) && d.capacity >= 4
    requires IsMerge([], d, network, signed, result, after)
    ensures result == Err(UntrustedIssuer(delegate.member)) && after == []
  {
    var x := [root, delegate, guest, revocation];
    StoryIsWellFormed(root, delegate, guest, revocation);
    PrepareAll(x, d, network, signed);
    var e := Concluded(x, d, network, signed, result, after);
    var f := AfterEvaluates(root, delegate, guest, revocation, Horizon(d.now));
    UniqueIsTieless(x);
    EvaluationIsOne(x, d.roots, Horizon(d.now), e, f);
    FirstRefused(root, delegate, guest, revocation, e);
  }

  lemma FirstRefused(root: Record, delegate: Record, guest: Record, revocation: Record, e: Evaluation)
    requires Conservation.EventsOf(e.accepted) == [Event(0, root), Event(1, delegate), Event(3, revocation)]
    ensures FirstUnaccepted(e, 0, 4, 2) && forall i :: FirstUnaccepted(e, 0, 4, i) ==> i == 2
  {
    forall i: nat
      ensures Accepts(e, i) <==> i == 0 || i == 1 || i == 3
    {
      AcceptsThree(e, Event(0, root), Event(1, delegate), Event(3, revocation), i);
    }
  }

  const ROOT := Record(1, "lab", 1, 1, 1, 1, false, None, [OverlayMember], [], 10, None, 0)
  const DELEGATE := ROOT.(member := 2, issuedAt := 20, signature := 1)
  const GUEST := ROOT.(issuer := 2, member := 3, issuedAt := 30, signature := 2)
  const REVOCATION := ROOT.(member := 2, sequence := 2, revoked := true, roles := [], issuedAt := 25, signature := 3)

  predicate Unsigned(r: Record) {
    true
  }

  function Bring(incoming: seq<Record>): Delivery {
    Delivery(incoming, 100, {1}, 16)
  }

  lemma StoryExists()
    ensures Backdates(ROOT, DELEGATE, GUEST, REVOCATION) && GUEST.issuedAt <= Horizon(100)
    ensures CheckRecords([ROOT, DELEGATE, GUEST, REVOCATION], "lab", Unsigned).Pass?
    ensures CheckRecords([ROOT, DELEGATE, GUEST], "lab", Unsigned).Pass?
  {}

  /**
   A list that cannot be handed over: a delegate's grant to a guest is stored, then a revocation of the delegate
   arrives that is dated before the grant. The merge takes it, but a new replica refuses the whole list, because
   the guest's issuer is revoked when the list is replayed.
   */
  lemma BackdatedRevocationBlocksTransfer(result: Result<MergeStats, RecordError>, after: seq<Record>)
    requires IsMerge([], Bring([ROOT, DELEGATE, GUEST, REVOCATION]), "lab", Unsigned, result, after)
    ensures IsMerge([], Bring([ROOT, DELEGATE, GUEST]), "lab", Unsigned, Ok(MergeStats(3, 0)), [ROOT, DELEGATE, GUEST])
    ensures IsMerge([ROOT, DELEGATE, GUEST], Bring([REVOCATION]), "lab", Unsigned, Ok(MergeStats(1, 0)),
                    [ROOT, DELEGATE, GUEST, REVOCATION])
    ensures result == Err(UntrustedIssuer(2)) && after == []
  {
    StoryExists();
    GuestMerges(ROOT, DELEGATE, GUEST, REVOCATION, Bring([ROOT, DELEGATE, GUEST]), "lab", Unsigned);
    BackdatedMerges(ROOT, DELEGATE, GUEST, REVOCATION, Bring([REVOCATION]), "lab", Unsigned);
    TransferRefused(ROOT, DELEGATE, GUEST, REVOCATION, Bring([ROOT, DELEGATE, GUEST, REVOCATION]), "lab", Unsigned, result, after);
  }
}
