/** No event is invented, lost or accepted twice: accepted and left-over events together are the input. */
module Conservation {
  import opened Records
  import opened Ledger
  import opened Replay
  import opened Sorting

  function EventsOf(log: seq<Acceptance>): seq<Event> {
    seq(|log|, i requires 0 <= i < |log| => log[i].event)
  }

  ghost function Bag(e: Evaluation): multiset<Event> {
    multiset(EventsOf(e.accepted))
  }

  lemma BagGrows(e: Evaluation, f: Evaluation, a: Acceptance)
    requires f.accepted == e.accepted + [a]
    ensures Bag(f) == Bag(e) + multiset{a.event}
  {
    assert EventsOf(f.accepted) == EventsOf(e.accepted) + [a.event];
  }

  lemma {:induction false} ScanConserves(e: Evaluation, pending: seq<Event>, roots: set<Peer>)
    ensures Bag(Scan(e, pending, roots).0) + multiset(Scan(e, pending, roots).1) == Bag(e) + multiset(pending)
    decreases |pending|
  {
    if pending != [] {
      var ev := pending[0];
      assert pending == [ev] + pending[1..];
      if IssuerActiveOrGenesis(ev.record, e.states, roots) {
        BagGrows(e, AcceptGrant(e, ev), AcceptGrant(e, ev).accepted[|e.accepted|]);
        ScanConserves(AcceptGrant(e, ev), pending[1..], roots);
      } else {
        ScanConserves(e, pending[1..], roots);
        var (f, rest) := Scan(e, pending[1..], roots);
        calc {
          Bag(f) + multiset([ev] + rest);
          (Bag(f) + multiset(rest)) + multiset{ev};
          (Bag(e) + multiset(pending[1..])) + multiset{ev};
          Bag(e) + multiset([ev] + pending[1..]);
        }
      }
    }
  }

  lemma {:induction false} GrantPhaseConserves(e: Evaluation, pending: seq<Event>, roots: set<Peer>)
    ensures Bag(GrantPhase(e, pending, roots).0) + multiset(GrantPhase(e, pending, roots).1)
         == Bag(e) + multiset(pending)
    decreases |pending|
  {
    if pending != [] {
      ScanConserves(e, pending, roots);
      var (e', rest) := Scan(e, pending, roots);
      if |rest| < |pending| {
        GrantPhaseConserves(e', rest, roots);
      }
    }
  }

  lemma {:induction false} RevocationPhaseConserves(e: Evaluation, revocations: seq<Event>)
    ensures Bag(RevocationPhase(e, revocations)) == Bag(e) + multiset(revocations)
    decreases |revocations|
  {
    if revocations != [] {
      var ev := revocations[0];
      assert revocations == [ev] + revocations[1..];
      BagGrows(e, AcceptRevocation(e, ev), AcceptRevocation(e, ev).accepted[|e.accepted|]);
      RevocationPhaseConserves(AcceptRevocation(e, ev), revocations[1..]);
    }
  }

  lemma {:induction false} GroupBound(group: seq<Event>, states: States, roots: set<Peer>)
    ensures multiset(Grants(group)) + multiset(AuthorizedRevocations(group, states, roots)) <= multiset(group)
  {
    if group != [] {
      assert group == [group[0]] + group[1..];
      GroupBound(group[1..], states, roots);
    }
  }

  lemma SecondBound(e: Evaluation, now: nat, group: seq<Event>, roots: set<Peer>)
    ensures Bag(ReplaySecond(e, now, group, roots)) <= Bag(e) + multiset(group)
  {
    var expired := e.(states := Expire(e.states, now));
    var admitted := GrantPhase(expired, Grants(group), roots).0;
    var revocations := AuthorizedRevocations(group, admitted.states, roots);
    GrantPhaseConserves(expired, Grants(group), roots);
    RevocationPhaseConserves(admitted, revocations);
    GroupBound(group, admitted.states, roots);
    assert Bag(admitted) <= Bag(e) + multiset(Grants(group));
  }

  lemma {:induction false} ReplayBound(e: Evaluation, ordered: seq<Event>, roots: set<Peer>)
    ensures Bag(ReplayFrom(e, ordered, roots)) <= Bag(e) + multiset(ordered)
    decreases |ordered|
  {
    if ordered != [] {
      var now := ordered[0].record.issuedAt;
      var n := SecondLength(ordered, now);
      assert ordered == ordered[..n] + ordered[n..];
      SecondBound(e, now, ordered[..n], roots);
      ReplayBound(ReplaySecond(e, now, ordered[..n], roots), ordered[n..], roots);
    }
  }

  lemma {:induction false} IssuedOnce(records: seq<Record>, now: nat, ev: Event)
    ensures multiset(IssuedBy(records, now))[ev] <= 1
  {
    if records != [] {
      var last := |records| - 1;
      IssuedOnce(records[..last], now, ev);
      IssuedByMember(records[..last], now, Event(last, records[last]));
    }
  }

  lemma EvaluationBound(records: seq<Record>, roots: set<Peer>, now: nat, e: Evaluation)
    requires IsEvaluation(records, roots, now, e)
    ensures Bag(e) <= multiset(IssuedBy(records, now))
  {
    var ordered: seq<Event> :| IsEventOrder(records, now, ordered) && e == Evaluate(ordered, roots, now);
    ReplayBound(EMPTY, ordered, roots);
  }

  lemma AcceptedFromList(records: seq<Record>, roots: set<Peer>, now: nat, e: Evaluation, k: nat)
    requires IsEvaluation(records, roots, now, e) && k < |e.accepted|
    ensures var ev := e.accepted[k].event;
      ev.index < |records| && records[ev.index] == ev.record && ev.record.issuedAt <= now
  {
    EvaluationBound(records, roots, now, e);
    assert EventsOf(e.accepted)[k] in Bag(e);
    IssuedByMember(records, now, e.accepted[k].event);
  }

  /** Accepted events are distinct entries of the list, issued by `now`. */
  lemma AcceptedOnceFromList(records: seq<Record>, roots: set<Peer>, now: nat, e: Evaluation)
    requires IsEvaluation(records, roots, now, e)
    ensures forall k :: 0 <= k < |e.accepted| ==>
      var ev := e.accepted[k].event;
      ev.index < |records| && records[ev.index] == ev.record && ev.record.issuedAt <= now
    ensures forall i, j :: 0 <= i < j < |e.accepted| ==> e.accepted[i].event.index != e.accepted[j].event.index
  {
    forall k | 0 <= k < |e.accepted|
      ensures var ev := e.accepted[k].event;
        ev.index < |records| && records[ev.index] == ev.record && ev.record.issuedAt <= now
    {
      AcceptedFromList(records, roots, now, e, k);
    }
    forall i, j | 0 <= i < j < |e.accepted|
      ensures e.accepted[i].event.index != e.accepted[j].event.index
    {
      if e.accepted[i].event == e.accepted[j].event {
        EvaluationBound(records, roots, now, e);
        CountedTwice(EventsOf(e.accepted), i, j);
        IssuedOnce(records, now, e.accepted[i].event);
      }
    }
  }
}
