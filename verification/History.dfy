/** What holds over a whole replay, and between evaluations of one ledger at two times. */
module History {
  import opened Records
  import opened Ledger
  import opened Replay
  import opened Sorting
  import opened Safety
  import Conservation

  /**
   No resurrection. Whatever was accepted after it, an accepted revocation leaves its subject inactive
   at no older a version, or at a strictly newer version; in particular no grant of the revoked
   version or an older one is ever in force again.
   */
  lemma NoResurrection(records: seq<Record>, roots: set<Peer>, now: nat, e: Evaluation, k: nat)
    requires IsEvaluation(records, roots, now, e)
    requires k < |e.accepted| && e.accepted[k].event.record.revoked
    ensures Buried(e.states, e.accepted[k].event.record)
  {
    EvaluationSound(records, roots, now, e);
  }

  /**
   Provenance. Every active member has a first and a current admission among the accepted records, with
   first admission time <= current admission time <= issue time of its current record <= now.
   */
  lemma ActiveMemberProvenance(records: seq<Record>, roots: set<Peer>, now: nat, e: Evaluation, p: Peer)
    requires IsEvaluation(records, roots, now, e)
    requires p in e.states && e.states[p].active
    ensures p in e.firstAdmissions && p in e.currentAdmissions
    ensures AdmissionOf(e.accepted, e.firstAdmissions[p], p) && AdmissionOf(e.accepted, e.currentAdmissions[p], p)
    ensures e.firstAdmissions[p].record.issuedAt <= e.currentAdmissions[p].record.issuedAt
         <= e.states[p].event.record.issuedAt <= now
    ensures e.firstAdmissions[p].record in records && e.currentAdmissions[p].record in records
    ensures e.firstAdmissions[p] == e.currentAdmissions[p]
         || e.firstAdmissions[p].record.epoch < e.currentAdmissions[p].record.epoch
  {
    EvaluationSound(records, roots, now, e);
    Conservation.AcceptedOnceFromList(records, roots, now, e);
    assert ProvenanceOf(e, p);
    LoggedBefore(At(now, e), roots, e.states[p].event);
  }

  // Two times

  /** How many leading events were issued by `now`. */
  function IssuedPrefix(ordered: seq<Event>, now: nat): (n: nat)
    ensures n <= |ordered|
    ensures forall i :: 0 <= i < n ==> ordered[i].record.issuedAt <= now
    ensures n < |ordered| ==> ordered[n].record.issuedAt > now
  {
    if ordered == [] || ordered[0].record.issuedAt > now then 0
    else 1 + IssuedPrefix(ordered[1..], now)
  }

  /** No second straddles position `n`. */
  ghost predicate Boundary(ordered: seq<Event>, n: nat) {
    n <= |ordered| && (0 < n < |ordered| ==> ordered[n - 1].record.issuedAt != ordered[n].record.issuedAt)
  }

  lemma FirstSecondInPrefix(ordered: seq<Event>, n: nat, now: nat)
    requires Boundary(ordered, n) && n > 0 && ordered[0].record.issuedAt == now
    ensures SecondLength(ordered[..n], now) == SecondLength(ordered, now) <= n
  {
    var k, l, head := SecondLength(ordered, now), SecondLength(ordered[..n], now), ordered[..n];
    assert forall i :: 0 <= i < n ==> head[i] == ordered[i];
    assert k <= n;
  }

  lemma Slices(xs: seq<Event>, k: nat, n: nat)
    requires k <= n <= |xs|
    ensures xs[..n][..k] == xs[..k] && xs[..n][k..] == xs[k..][..n - k] && xs[k..][n - k..] == xs[n..]
  {}

  lemma ReplayOneSecond(e: Evaluation, ordered: seq<Event>, k: nat, roots: set<Peer>)
    requires ordered != [] && k == SecondLength(ordered, ordered[0].record.issuedAt)
    ensures 0 < k && ReplayFrom(e, ordered, roots) ==
      ReplayFrom(ReplaySecond(e, ordered[0].record.issuedAt, ordered[..k], roots), ordered[k..], roots)
  {}

  lemma {:induction false} ReplaySplits(e: Evaluation, ordered: seq<Event>, n: nat, roots: set<Peer>)
    requires Boundary(ordered, n)
    ensures ReplayFrom(e, ordered, roots) == ReplayFrom(ReplayFrom(e, ordered[..n], roots), ordered[n..], roots)
    decreases |ordered|
  {
    if n == 0 {
      assert ordered[n..] == ordered && ordered[..n] == [];
    } else {
      var now := ordered[0].record.issuedAt;
      var k := SecondLength(ordered, now);
      FirstSecondInPrefix(ordered, n, now);
      Slices(ordered, k, n);
      var e' := ReplaySecond(e, now, ordered[..k], roots);
      ReplayOneSecond(e, ordered, k, roots);
      ReplayOneSecond(e, ordered[..n], k, roots);
      ReplaySplits(e', ordered[k..], n - k, roots);
    }
  }

  lemma ExpireTwice(states: States, s: nat, t: nat)
    requires s <= t
    ensures Expire(Expire(states, s), t) == Expire(states, t)
  {
    var once, twice := Expire(states, t), Expire(Expire(states, s), t);
    assert forall p :: p in states ==> twice[p] == once[p];
  }

  /** A replay does not notice an expiry at a time before its first event. */
  lemma ReplayIgnoresEarlierExpiry(e: Evaluation, s: nat, ordered: seq<Event>, roots: set<Peer>)
    requires ordered != [] && s <= ordered[0].record.issuedAt
    ensures ReplayFrom(e.(states := Expire(e.states, s)), ordered, roots) == ReplayFrom(e, ordered, roots)
  {
    ExpireTwice(e.states, s, ordered[0].record.issuedAt);
  }

  lemma PrefixMember(ordered: seq<Event>, now: nat, ev: Event)
    requires SortedBy(ordered, EventLeq)
    ensures ev in ordered[..IssuedPrefix(ordered, now)] <==> ev in ordered && ev.record.issuedAt <= now
    ensures ev in ordered[IssuedPrefix(ordered, now)..] ==> ev.record.issuedAt > now
  {
    var n := IssuedPrefix(ordered, now);
    var early, late := ordered[..n], ordered[n..];
    forall i | 0 <= i < |late|
      ensures late[i].record.issuedAt > now
    {
      assert late[i] == ordered[n + i] && (i == 0 || EventLeq(ordered[n], ordered[n + i]));
    }
    assert ordered == early + late;
    assert forall i :: 0 <= i < |early| ==> early[i] == ordered[i];
  }

  lemma PrefixCount(records: seq<Record>, now: nat, later: nat, ordered: seq<Event>, ev: Event)
    requires now <= later && IsEventOrder(records, later, ordered)
    ensures multiset(ordered[..IssuedPrefix(ordered, now)])[ev] == multiset(IssuedBy(records, now))[ev]
  {
    var n := IssuedPrefix(ordered, now);
    assert ordered == ordered[..n] + ordered[n..];
    assert multiset(ordered)[ev] == multiset(ordered[..n])[ev] + multiset(ordered[n..])[ev];
    Conservation.IssuedOnce(records, later, ev);
    Conservation.IssuedOnce(records, now, ev);
    IssuedByMember(records, now, ev);
    OrderedMember(records, later, ordered, ev);
    PrefixMember(ordered, now, ev);
  }

  lemma PrefixIsOrder(records: seq<Record>, now: nat, later: nat, ordered: seq<Event>)
    requires now <= later && IsEventOrder(records, later, ordered)
    ensures IsEventOrder(records, now, ordered[..IssuedPrefix(ordered, now)])
  {
    forall ev
      ensures multiset(ordered[..IssuedPrefix(ordered, now)])[ev] == multiset(IssuedBy(records, now))[ev]
    {
      PrefixCount(records, now, later, ordered, ev);
    }
  }

  /** A later evaluation continues the run of an earlier one. */
  lemma LaterEvaluationIsRun(records: seq<Record>, roots: set<Peer>, now: nat, later: nat, ordered: seq<Event>)
    requires now <= later && IsEventOrder(records, later, ordered)
    ensures var earlier := ordered[..IssuedPrefix(ordered, now)];
      Reaches(At(now, Evaluate(earlier, roots, now)), roots, At(later, Evaluate(ordered, roots, later)))
  {
    var n := IssuedPrefix(ordered, now);
    var e := Evaluate(ordered[..n], roots, now);
    var m := ReplayFromIsRun(At(now, e), ordered[n..], roots);
    LaterEvaluationReplays(roots, now, later, ordered);
    forall ev: Event | ev in ordered[n..]
      ensures ev.record.issuedAt <= later
    {
      assert ordered == ordered[..n] + ordered[n..];
      OrderedMember(records, later, ordered, ev);
    }
    ReachesStep(m, roots, Tick(later));
    ReachesTrans(At(now, e), roots, m, At(later, Evaluate(ordered, roots, later)));
  }

  /** A later evaluation replays the events behind the issued prefix from the earlier evaluation. */
  lemma LaterEvaluationReplays(roots: set<Peer>, now: nat, later: nat, ordered: seq<Event>)
    requires now <= later && SortedBy(ordered, EventLeq)
    ensures var n := IssuedPrefix(ordered, now);
      var last := ReplayFrom(Evaluate(ordered[..n], roots, now), ordered[n..], roots);
      Evaluate(ordered, roots, later) == last.(states := Expire(last.states, later))
  {
    var n := IssuedPrefix(ordered, now);
    var early := ReplayFrom(EMPTY, ordered[..n], roots);
    ReplaySplits(EMPTY, ordered, n, roots);
    if ordered[n..] == [] {
      ExpireTwice(early.states, now, later);
    } else {
      ReplayIgnoresEarlierExpiry(early, now, ordered[n..], roots);
    }
  }

  /**
   Time only advances a ledger: the evaluation at a later time advances the one at an earlier time, so
   a member that is inactive now can only come back at a strictly larger epoch, and no accepted
   event, first admission or higher-ranking record is lost.
   */
  lemma LaterEvaluationAdvances(records: seq<Record>, roots: set<Peer>, now: nat, later: nat, ordered: seq<Event>)
    requires now <= later && IsEventOrder(records, later, ordered)
    ensures var earlier := ordered[..IssuedPrefix(ordered, now)];
      && IsEventOrder(records, now, earlier)
      && Advances(Evaluate(earlier, roots, now), Evaluate(ordered, roots, later))
  {
    var e := Evaluate(ordered[..IssuedPrefix(ordered, now)], roots, now);
    PrefixIsOrder(records, now, later, ordered);
    assert IsEvaluation(records, roots, now, e);
    EvaluationSound(records, roots, now, e);
    LaterEvaluationIsRun(records, roots, now, later, ordered);
    ReachesKeeps(At(now, e), roots, At(later, Evaluate(ordered, roots, later)));
  }

  lemma NewEntryComesFrom(e: Evaluation, f: Evaluation, events: seq<Event>, k: nat)
    requires e.accepted <= f.accepted && |e.accepted| <= k < |f.accepted|
    requires Conservation.Bag(f) <= Conservation.Bag(e) + multiset(events)
    ensures f.accepted[k].event in events
  {
    var more, ev := f.accepted[|e.accepted|..], f.accepted[k].event;
    var old', new' := Conservation.EventsOf(e.accepted), Conservation.EventsOf(more);
    assert Conservation.EventsOf(f.accepted) == old' + new';
    assert new'[k - |e.accepted|] == ev;
    assert Conservation.Bag(f)[ev] == multiset(old')[ev] + multiset(new')[ev];
  }

  /** What a later evaluation accepts in addition was issued since. */
  lemma AcceptedSince(records: seq<Record>, roots: set<Peer>, now: nat, later: nat, ordered: seq<Event>, k: nat)
    requires now <= later && IsEventOrder(records, later, ordered)
    requires var earlier := ordered[..IssuedPrefix(ordered, now)];
      |Evaluate(earlier, roots, now).accepted| <= k < |Evaluate(ordered, roots, later).accepted|
    ensures Evaluate(ordered, roots, later).accepted[k].event.record.issuedAt > now
  {
    var n := IssuedPrefix(ordered, now);
    var e, f := Evaluate(ordered[..n], roots, now), Evaluate(ordered, roots, later);
    LaterEvaluationAdvances(records, roots, now, later, ordered);
    ReplaySplits(EMPTY, ordered, n, roots);
    Conservation.ReplayBound(ReplayFrom(EMPTY, ordered[..n], roots), ordered[n..], roots);
    NewEntryComesFrom(e, f, ordered[n..], k);
    PrefixMember(ordered, now, f.accepted[k].event);
  }
}
