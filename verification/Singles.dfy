/** Replays in which every second has one event. */
module Singles {
  import opened Records
  import opened Ledger
  import opened Replay
  import opened Sorting
  import Conservation
  import History

  lemma OneGrantSecond(e: Evaluation, ev: Event, roots: set<Peer>)
    requires !ev.record.revoked
    requires IssuerActiveOrGenesis(ev.record, Expire(e.states, ev.record.issuedAt), roots)
    ensures ReplaySecond(e, ev.record.issuedAt, [ev], roots) ==
      AcceptGrant(e.(states := Expire(e.states, ev.record.issuedAt)), ev)
  {
    var expired := e.(states := Expire(e.states, ev.record.issuedAt));
    assert [ev][1..] == [] && Grants([ev]) == [ev] + [] == [ev];
    assert Scan(expired, [ev], roots) == (AcceptGrant(expired, ev), []);
    assert GrantPhase(expired, [ev], roots).0 == AcceptGrant(expired, ev);
    assert AuthorizedRevocations([ev], AcceptGrant(expired, ev).states, roots) == [];
  }

  lemma {:induction false} IssuedAll(records: seq<Record>, now: nat)
    requires forall r :: r in records ==> r.issuedAt <= now
    ensures |IssuedBy(records, now)| == |records|
    ensures forall i :: 0 <= i < |records| ==> IssuedBy(records, now)[i] == Event(i, records[i])
  {
    if records != [] {
      var front := records[..|records| - 1];
      assert records == front + [records[|records| - 1]];
      IssuedAll(front, now);
    }
  }

  lemma NextSecond(e: Evaluation, ev: Event, rest: seq<Event>, roots: set<Peer>)
    requires rest != [] ==> rest[0].record.issuedAt != ev.record.issuedAt
    ensures ReplayFrom(e, [ev] + rest, roots) == ReplayFrom(ReplaySecond(e, ev.record.issuedAt, [ev], roots), rest, roots)
  {
    var ordered := [ev] + rest;
    assert ordered[1..] == rest && ordered[..1] == [ev];
    assert SecondLength(ordered, ev.record.issuedAt) == 1;
    History.ReplayOneSecond(e, ordered, 1, roots);
  }

  ghost predicate Holds(e: Evaluation, events: seq<Event>, states: States) {
    && Conservation.EventsOf(e.accepted) == events && e.states == states
    && (forall p :: p in states ==> states[p].event.record.expiresAt.None?)
  }

  lemma NeverExpires(states: States, now: nat)
    requires forall p :: p in states ==> states[p].event.record.expiresAt.None?
    ensures Expire(states, now) == states
  {
    var expired := Expire(states, now);
    assert forall p :: p in states ==> expired[p] == states[p];
  }

  lemma Granted(e: Evaluation, ev: Event, roots: set<Peer>, events: seq<Event>, states: States)
    requires Holds(e, events, states) && !ev.record.revoked && ev.record.expiresAt.None?
    requires IssuerActiveOrGenesis(ev.record, states, roots)
    ensures Holds(ReplaySecond(e, ev.record.issuedAt, [ev], roots), events + [ev], Apply(states, ev))
  {
    NeverExpires(states, ev.record.issuedAt);
    OneGrantSecond(e, ev, roots);
    assert Conservation.EventsOf(AcceptGrant(e, ev).accepted) == events + [ev];
  }

  lemma OneRevocation(e: Evaluation, ev: Event, roots: set<Peer>)
    requires ev.record.revoked && IssuerActive(ev.record, e.states, roots)
    requires Expire(e.states, ev.record.issuedAt) == e.states
    ensures ReplaySecond(e, ev.record.issuedAt, [ev], roots) == AcceptRevocation(e, ev)
  {
    assert [ev][1..] == [];
    assert AuthorizedRevocations([], e.states, roots) == [] && Grants([]) == [];
    assert Grants([ev]) == [] && AuthorizedRevocations([ev], e.states, roots) == [ev];
    assert GrantPhase(e, [], roots).0 == e;
    assert RevocationPhase(e, [ev]) == RevocationPhase(AcceptRevocation(e, ev), []);
  }

  lemma Revoked(e: Evaluation, ev: Event, roots: set<Peer>, events: seq<Event>, states: States)
    requires Holds(e, events, states) && ev.record.revoked && ev.record.expiresAt.None?
    requires IssuerActive(ev.record, states, roots)
    ensures Holds(ReplaySecond(e, ev.record.issuedAt, [ev], roots), events + [ev], Apply(states, ev))
  {
    NeverExpires(states, ev.record.issuedAt);
    OneRevocation(e, ev, roots);
    assert Conservation.EventsOf(AcceptRevocation(e, ev).accepted) == events + [ev];
  }

  lemma TwoGrants(a: Event, b: Event, rest: seq<Event>, roots: set<Peer>) returns (e: Evaluation)
    requires a.record.IsAdmission() && a.record.expiresAt.None? && b.record.IsAdmission() && b.record.expiresAt.None?
    requires a.record.member != b.record.member && a.record.issuedAt < b.record.issuedAt
    requires a.record.issuer in roots
    requires IssuerActiveOrGenesis(b.record, map[a.record.member := MemberState(a, true)], roots)
    requires rest != [] ==> rest[0].record.issuedAt > b.record.issuedAt
    ensures Holds(e, [a, b], PairOf(a, b))
    ensures ReplayFrom(EMPTY, [a, b] + rest, roots) == ReplayFrom(e, rest, roots)
  {
    assert Conservation.EventsOf([]) == [] && Holds(EMPTY, [], map[]);
    var first := ReplaySecond(EMPTY, a.record.issuedAt, [a], roots);
    Granted(EMPTY, a, roots, [], map[]);
    assert [] + [a] == [a];
    e := ReplaySecond(first, b.record.issuedAt, [b], roots);
    Granted(first, b, roots, [a], map[a.record.member := MemberState(a, true)]);
    assert [a] + [b] == [a, b];
    assert [a, b] + rest == [a] + ([b] + rest);
    NextSecond(EMPTY, a, [b] + rest, roots);
    NextSecond(first, b, rest, roots);
  }

  lemma RootAndDelegate(root: Event, delegate: Event, rest: seq<Event>) returns (e: Evaluation)
    requires root.record.IsAdmission() && root.record.SelfIssued() && root.record.expiresAt.None?
    requires delegate.record.IsAdmission() && delegate.record.expiresAt.None?
    requires delegate.record.issuer == root.record.member != delegate.record.member
    requires root.record.issuedAt < delegate.record.issuedAt
    requires rest != [] ==> rest[0].record.issuedAt > delegate.record.issuedAt
    ensures Holds(e, [root, delegate], PairOf(root, delegate))
    ensures var roots := {root.record.member};
      ReplayFrom(EMPTY, [root, delegate] + rest, roots) == ReplayFrom(e, rest, roots)
  {
    e := TwoGrants(root, delegate, rest, {root.record.member});
  }

  ghost function PairOf(root: Event, delegate: Event): States {
    map[root.record.member := MemberState(root, true), delegate.record.member := MemberState(delegate, true)]
  }

  lemma TimeDecides(ordered: seq<Event>)
    requires forall i, j :: 0 <= i < j < |ordered| ==> ordered[i].record.issuedAt < ordered[j].record.issuedAt
    ensures SortedBy(ordered, EventLeq)
  {}
}
