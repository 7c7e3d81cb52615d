/**
 The replay of a stored record list: drop future records, sort, group by issue second, and per second
 expire, admit grants to a fixpoint, then apply the revocations authorized by the resulting state.
 */
module Replay {
  import opened Prelude
  import opened Records
  import opened Ledger
  import opened Sorting
  import Versions

  predicate EventLeq(a: Event, b: Event) {
    EventOrder(a.record, b.record) <= 0
  }

  /** The records issued by `now`, in list order. */
  function IssuedBy(records: seq<Record>, now: nat): seq<Event> {
    if records == [] then [] else
    var last := |records| - 1;
    var earlier := IssuedBy(records[..last], now);
    if records[last].issuedAt <= now then earlier + [Event(last, records[last])] else earlier
  }

  /** The orders an unstable sort may produce. */
  ghost predicate IsEventOrder(records: seq<Record>, now: nat, ordered: seq<Event>) {
    SortedPermutation(IssuedBy(records, now), ordered, EventLeq)
  }

  // One second

  function Grants(group: seq<Event>): seq<Event> {
    if group == [] then []
    else (if group[0].record.revoked then [] else [group[0]]) + Grants(group[1..])
  }

  function AuthorizedRevocations(group: seq<Event>, states: States, roots: set<Peer>): seq<Event> {
    if group == [] then []
    else (if group[0].record.revoked && IssuerActive(group[0].record, states, roots) then [group[0]] else [])
         + AuthorizedRevocations(group[1..], states, roots)
  }

  /** One `retain` pass: accepts what its issuer allows and keeps the rest. */
  function Scan(e: Evaluation, pending: seq<Event>, roots: set<Peer>): (r: (Evaluation, seq<Event>))
    ensures |r.1| <= |pending|
    decreases |pending|
  {
    if pending == [] then (e, [])
    else if IssuerActiveOrGenesis(pending[0].record, e.states, roots) then
      Scan(AcceptGrant(e, pending[0]), pending[1..], roots)
    else
      var (e', rest) := Scan(e, pending[1..], roots);
      (e', [pending[0]] + rest)
  }

  /** Passes until one makes no progress; also yields the grants left over. */
  function GrantPhase(e: Evaluation, pending: seq<Event>, roots: set<Peer>): (Evaluation, seq<Event>)
    decreases |pending|
  {
    if pending == [] then (e, []) else
    var (e', rest) := Scan(e, pending, roots);
    if |rest| == |pending| then (e', rest) else GrantPhase(e', rest, roots)
  }

  function RevocationPhase(e: Evaluation, revocations: seq<Event>): Evaluation
    decreases |revocations|
  {
    if revocations == [] then e
    else RevocationPhase(AcceptRevocation(e, revocations[0]), revocations[1..])
  }

  function ReplaySecond(e: Evaluation, now: nat, group: seq<Event>, roots: set<Peer>): Evaluation {
    var admitted := GrantPhase(e.(states := Expire(e.states, now)), Grants(group), roots).0;
    RevocationPhase(admitted, AuthorizedRevocations(group, admitted.states, roots))
  }

  /** The number of leading events issued in second `now`. */
  function SecondLength(ordered: seq<Event>, now: nat): (n: nat)
    ensures n <= |ordered|
    ensures forall i :: 0 <= i < n ==> ordered[i].record.issuedAt == now
    ensures n < |ordered| ==> ordered[n].record.issuedAt != now
  {
    if ordered == [] || ordered[0].record.issuedAt != now then 0
    else 1 + SecondLength(ordered[1..], now)
  }

  function ReplayFrom(e: Evaluation, ordered: seq<Event>, roots: set<Peer>): Evaluation
    decreases |ordered|
  {
    if ordered == [] then e else
    var now := ordered[0].record.issuedAt;
    var n := SecondLength(ordered, now);
    ReplayFrom(ReplaySecond(e, now, ordered[..n], roots), ordered[n..], roots)
  }

  function Evaluate(ordered: seq<Event>, roots: set<Peer>, now: nat): Evaluation {
    var e := ReplayFrom(EMPTY, ordered, roots);
    e.(states := Expire(e.states, now))
  }

  ghost predicate IsEvaluation(records: seq<Record>, roots: set<Peer>, now: nat, e: Evaluation) {
    exists ordered :: IsEventOrder(records, now, ordered) && e == Evaluate(ordered, roots, now)
  }

  lemma EventLeqIsTotal()
    ensures Total(EventLeq) && Transitive(EventLeq)
  {}

  /** The evaluation that a given sort produces. */
  function EvaluationOf(records: seq<Record>, roots: set<Peer>, now: nat): (e: Evaluation)
    ensures IsEvaluation(records, roots, now, e)
  {
    EventLeqIsTotal();
    var ordered := Sort(IssuedBy(records, now), EventLeq);
    assert IsEventOrder(records, now, ordered);
    Evaluate(ordered, roots, now)
  }

  // The imperative evaluator

  method CollectIssued(records: seq<Record>, now: nat) returns (events: seq<Event>)
    ensures events == IssuedBy(records, now)
  {
    events := [];
    for i := 0 to |records|
      invariant events == IssuedBy(records[..i], now)
    {
      assert records[..i + 1][..i] == records[..i];
      if records[i].issuedAt <= now {
        events := events + [Event(i, records[i])];
      }
    }
    assert records[..|records|] == records;
  }

  function KeptAnd(kept: seq<Event>, rest: (Evaluation, seq<Event>)): (Evaluation, seq<Event>) {
    (rest.0, kept + rest.1)
  }

  lemma ScanStep(e: Evaluation, kept: seq<Event>, pending: seq<Event>, roots: set<Peer>)
    requires pending != []
    ensures KeptAnd(kept, Scan(e, pending, roots)) ==
      if IssuerActiveOrGenesis(pending[0].record, e.states, roots)
      then KeptAnd(kept, Scan(AcceptGrant(e, pending[0]), pending[1..], roots))
      else KeptAnd(kept + [pending[0]], Scan(e, pending[1..], roots))
  {
    var rest := Scan(e, pending[1..], roots).1;
    assert kept + ([pending[0]] + rest) == (kept + [pending[0]]) + rest;
  }

  lemma NothingKept(scanned: (Evaluation, seq<Event>))
    ensures KeptAnd([], scanned) == scanned
  {
    var (_, kept) := scanned;
    assert [] + kept == kept;
  }

  method RetainPass(e: Evaluation, pending: seq<Event>, roots: set<Peer>)
    returns (e': Evaluation, kept: seq<Event>, progress: bool)
    ensures e' == Scan(e, pending, roots).0 && kept == Scan(e, pending, roots).1
    ensures progress <==> |kept| < |pending|
  {
    e', kept, progress := e, [], false;
    NothingKept(Scan(e, pending, roots));
    assert pending[0..] == pending;
    for i := 0 to |pending|
      invariant |kept| <= i
      invariant progress <==> |kept| < i
      invariant Scan(e, pending, roots) == KeptAnd(kept, Scan(e', pending[i..], roots))
    {
      ScanStep(e', kept, pending[i..], roots);
      assert pending[i..][0] == pending[i] && pending[i..][1..] == pending[i + 1..];
      if IssuerActiveOrGenesis(pending[i].record, e'.states, roots) {
        e' := AcceptGrant(e', pending[i]);
        progress := true;
      } else {
        kept := kept + [pending[i]];
      }
    }
  }

  method AdmitGrants(e: Evaluation, grants: seq<Event>, roots: set<Peer>) returns (e': Evaluation)
    ensures e' == GrantPhase(e, grants, roots).0
  {
    e' := e;
    var pending, progress := grants, true;
    while progress && pending != []
      invariant progress ==> GrantPhase(e, grants, roots) == GrantPhase(e', pending, roots)
      invariant !progress || pending == [] ==> GrantPhase(e, grants, roots).0 == e'
      decreases |pending|, progress
    {
      e', pending, progress := RetainPass(e', pending, roots);
    }
  }

  method ApplyRevocations(e: Evaluation, revocations: seq<Event>) returns (e': Evaluation)
    ensures e' == RevocationPhase(e, revocations)
  {
    e' := e;
    for i := 0 to |revocations|
      invariant RevocationPhase(e, revocations) == RevocationPhase(e', revocations[i..])
    {
      assert revocations[i..][0] == revocations[i] && revocations[i..][1..] == revocations[i + 1..];
      e' := AcceptRevocation(e', revocations[i]);
    }
  }

  method ReplayOrdered(ordered: seq<Event>, roots: set<Peer>) returns (e: Evaluation)
    ensures e == ReplayFrom(EMPTY, ordered, roots)
  {
    e := EMPTY;
    var cursor := 0;
    while cursor < |ordered|
      invariant cursor <= |ordered|
      invariant ReplayFrom(EMPTY, ordered, roots) == ReplayFrom(e, ordered[cursor..], roots)
    {
      var second := ordered[cursor].record.issuedAt;
      var end := cursor + SecondLength(ordered[cursor..], second);
      var group := ordered[cursor..end];
      assert group == ordered[cursor..][..end - cursor] && ordered[cursor..][end - cursor..] == ordered[end..];
      e := e.(states := Expire(e.states, second));
      e := AdmitGrants(e, Grants(group), roots);
      e := ApplyRevocations(e, AuthorizedRevocations(group, e.states, roots));
      cursor := end;
    }
  }

  method EvaluateLedger(records: seq<Record>, roots: set<Peer>, now: nat)
    returns (result: Result<Evaluation, RecordError>)
    ensures Versions.Latest(records).Err? ==> result == Err(Versions.Latest(records).error)
    ensures Versions.Latest(records).Ok? ==> result == Ok(EvaluationOf(records, roots, now))
  {
    var check := Versions.LatestRecords(records);
    if check.Err? {
      return Err(check.error);
    }
    var issued := CollectIssued(records, now);
    EventLeqIsTotal();
    var ordered := Sort(issued, EventLeq);
    var e := ReplayOrdered(ordered, roots);
    e := e.(states := Expire(e.states, now));
    return Ok(e);
  }

  // The replay is a run of the ledger machine

  ghost predicate InSecond(events: seq<Event>, now: nat, revoked: bool) {
    forall ev :: ev in events ==> ev.record.issuedAt == now && ev.record.revoked == revoked
  }

  ghost function At(now: nat, e: Evaluation): Machine {
    Machine(now, e.states, e)
  }

  lemma {:induction false} ScanIsRun(now: nat, e: Evaluation, pending: seq<Event>, roots: set<Peer>)
    requires InSecond(pending, now, false)
    ensures Reaches(At(now, e), roots, At(now, Scan(e, pending, roots).0))
    ensures forall ev :: ev in Scan(e, pending, roots).1 ==> ev in pending
    decreases |pending|
  {
    if pending == [] {
      ReachesRefl(At(now, e), roots);
    } else {
      var ev := pending[0];
      assert ev in pending;
      if IssuerActiveOrGenesis(ev.record, e.states, roots) {
        ReachesStep(At(now, e), roots, Admit(ev));
        ScanIsRun(now, AcceptGrant(e, ev), pending[1..], roots);
        ReachesTrans(At(now, e), roots, At(now, AcceptGrant(e, ev)), At(now, Scan(e, pending, roots).0));
      } else {
        ScanIsRun(now, e, pending[1..], roots);
      }
    }
  }

  lemma {:induction false} GrantPhaseIsRun(now: nat, e: Evaluation, pending: seq<Event>, roots: set<Peer>)
    requires InSecond(pending, now, false)
    ensures Reaches(At(now, e), roots, At(now, GrantPhase(e, pending, roots).0))
    decreases |pending|
  {
    if pending == [] {
      ReachesRefl(At(now, e), roots);
    } else {
      ScanIsRun(now, e, pending, roots);
      var (e', rest) := Scan(e, pending, roots);
      if |rest| < |pending| {
        GrantPhaseIsRun(now, e', rest, roots);
        ReachesTrans(At(now, e), roots, At(now, e'), At(now, GrantPhase(e', rest, roots).0));
      }
    }
  }

  lemma {:induction false} RevocationPhaseIsRun(m: Machine, revocations: seq<Event>, roots: set<Peer>)
    requires InSecond(revocations, m.clock, true)
    requires forall ev :: ev in revocations ==> IssuerActive(ev.record, m.frozen, roots)
    ensures Reaches(m, roots, m.(eval := RevocationPhase(m.eval, revocations)))
    decreases |revocations|
  {
    if revocations == [] {
      ReachesRefl(m, roots);
    } else {
      assert revocations[0] in revocations;
      var m' := Do(m, Revoke(revocations[0]));
      ReachesStep(m, roots, Revoke(revocations[0]));
      RevocationPhaseIsRun(m', revocations[1..], roots);
      ReachesTrans(m, roots, m', m'.(eval := RevocationPhase(m'.eval, revocations[1..])));
    }
  }

  lemma {:induction false} GroupParts(group: seq<Event>, now: nat, states: States, roots: set<Peer>)
    requires forall ev :: ev in group ==> ev.record.issuedAt == now
    ensures InSecond(Grants(group), now, false)
    ensures InSecond(AuthorizedRevocations(group, states, roots), now, true)
    ensures forall ev :: ev in AuthorizedRevocations(group, states, roots) ==> IssuerActive(ev.record, states, roots)
  {
    if group != [] {
      assert group[0] in group && forall ev :: ev in group[1..] ==> ev in group;
      GroupParts(group[1..], now, states, roots);
    }
  }

  lemma ReplaySecondIsRun(m: Machine, now: nat, group: seq<Event>, roots: set<Peer>) returns (m': Machine)
    requires m.clock <= now
    requires forall ev :: ev in group ==> ev.record.issuedAt == now
    ensures Reaches(m, roots, m')
    ensures m'.clock == now && m'.eval == ReplaySecond(m.eval, now, group, roots)
  {
    var expired := m.eval.(states := Expire(m.eval.states, now));
    var admitted := GrantPhase(expired, Grants(group), roots).0;
    var revocations := AuthorizedRevocations(group, admitted.states, roots);
    GroupParts(group, now, admitted.states, roots);
    ReachesStep(m, roots, Tick(now));
    GrantPhaseIsRun(now, expired, Grants(group), roots);
    ReachesTrans(m, roots, At(now, expired), At(now, admitted));
    RevocationPhaseIsRun(At(now, admitted), revocations, roots);
    m' := At(now, admitted).(eval := RevocationPhase(admitted, revocations));
    ReachesTrans(m, roots, At(now, admitted), m');
  }

  lemma {:induction false} ReplayFromIsRun(m: Machine, ordered: seq<Event>, roots: set<Peer>) returns (m': Machine)
    requires SortedBy(ordered, EventLeq)
    requires ordered != [] ==> m.clock <= ordered[0].record.issuedAt
    ensures Reaches(m, roots, m') && m'.eval == ReplayFrom(m.eval, ordered, roots)
    ensures m'.clock == m.clock || exists ev :: ev in ordered && m'.clock == ev.record.issuedAt
    decreases |ordered|
  {
    if ordered == [] {
      ReachesRefl(m, roots);
      m' := m;
    } else {
      var now := ordered[0].record.issuedAt;
      var n := SecondLength(ordered, now);
      var group, rest := ordered[..n], ordered[n..];
      var mid := ReplaySecondIsRun(m, now, group, roots);
      if rest != [] {
        assert EventLeq(ordered[0], ordered[n]);
      }
      m' := ReplayFromIsRun(mid, rest, roots);
      ReachesTrans(m, roots, mid, m');
      assert ordered[0] in ordered && forall ev :: ev in rest ==> ev in ordered;
    }
  }

  lemma {:induction false} IssuedByMember(records: seq<Record>, now: nat, ev: Event)
    ensures ev in IssuedBy(records, now) <==>
      ev.index < |records| && records[ev.index] == ev.record && ev.record.issuedAt <= now
  {
    if records != [] {
      IssuedByMember(records[..|records| - 1], now, ev);
    }
  }

  lemma OrderedMember(records: seq<Record>, now: nat, ordered: seq<Event>, ev: Event)
    requires IsEventOrder(records, now, ordered)
    ensures ev in ordered <==>
      ev.index < |records| && records[ev.index] == ev.record && ev.record.issuedAt <= now
  {
    SameElements(ordered, IssuedBy(records, now));
    IssuedByMember(records, now, ev);
  }

  /** Every evaluation the program can produce is reached by a legal run that ends with a tick to `now`. */
  lemma EvaluationIsRun(records: seq<Record>, roots: set<Peer>, now: nat, e: Evaluation)
    requires IsEvaluation(records, roots, now, e)
    ensures Reaches(START, roots, At(now, e))
  {
    var ordered: seq<Event> :| IsEventOrder(records, now, ordered) && e == Evaluate(ordered, roots, now);
    var m := ReplayFromIsRun(START, ordered, roots);
    forall ev: Event | ev in ordered
      ensures ev.record.issuedAt <= now
    {
      OrderedMember(records, now, ordered, ev);
    }
    ReachesStep(m, roots, Tick(now));
    ReachesTrans(START, roots, m, At(now, e));
  }
}
