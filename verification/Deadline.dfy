/** How long a computed membership stays current. */
module Deadline {
  import opened Prelude
  import opened Records
  import opened Ledger
  import opened Replay
  import opened Safety
  import opened Anchors
  import opened Effective
  import Confluence
  import opened Singles
  import Conservation
  import History

  /** The least expiry after `now`. */
  function NextRefresh(records: seq<Record>, now: nat): (next: Option<nat>)
    ensures next.Some? ==> next.value > now && exists r :: r in records && r.expiresAt == next
    ensures forall r :: r in records && r.expiresAt.Some? && r.expiresAt.value > now ==>
      next.Some? && next.value <= r.expiresAt.value
  {
    if records == [] then None
    else
      var last, earlier := records[|records| - 1].expiresAt, NextRefresh(records[..|records| - 1], now);
      assert records == records[..|records| - 1] + [records[|records| - 1]];
      if last.Some? && last.value > now && (earlier.None? || last.value < earlier.value) then last else earlier
  }

  /** `t` is no earlier than `now` and before the deadline computed at `now`. */
  predicate BeforeRefresh(records: seq<Record>, now: nat, t: nat) {
    now <= t && (NextRefresh(records, now).Some? ==> t < NextRefresh(records, now).value)
  }

  lemma NothingExpires(records: seq<Record>, now: nat, t: nat, r: Record)
    requires BeforeRefresh(records, now, t) && r in records
    ensures r.ExpiredAt(now) == r.ExpiredAt(t)
  {}

  lemma NoEarlierExpiry(records: seq<Record>, now: nat, t: nat)
    requires BeforeRefresh(records, now, t)
    ensures forall r :: r in records && r.expiresAt.Some? ==> (r.expiresAt.value > now <==> r.expiresAt.value > t)
  {}

  lemma RefreshStays(records: seq<Record>, now: nat, t: nat)
    requires BeforeRefresh(records, now, t)
    ensures NextRefresh(records, t) == NextRefresh(records, now)
  {
    NoEarlierExpiry(records, now, t);
    SameRefresh(records, now, t);
  }

  lemma {:induction false} SameRefresh(records: seq<Record>, now: nat, t: nat)
    requires forall r :: r in records && r.expiresAt.Some? ==> (r.expiresAt.value > now <==> r.expiresAt.value > t)
    ensures NextRefresh(records, t) == NextRefresh(records, now)
  {
    if records != [] {
      var front, last := records[..|records| - 1], records[|records| - 1];
      assert records == front + [last];
      SameRefresh(front, now, t);
    }
  }

  lemma StoredFromList(records: seq<Record>, roots: set<Peer>, now: nat, e: Evaluation, p: Peer)
    requires IsEvaluation(records, roots, now, e) && p in e.states
    ensures var r := e.states[p].event.record; r in records && r.member == p && r.issuedAt <= now
    ensures e.states[p].active ==> !e.states[p].event.record.ExpiredAt(now)
  {
    var ordered: seq<Event> :| IsEventOrder(records, now, ordered) && e == Evaluate(ordered, roots, now);
    EvaluationSound(records, roots, now, e);
    var k :| 0 <= k < |e.accepted| && e.accepted[k].event == e.states[p].event;
    Conservation.AcceptedFromList(records, roots, now, e, k);
  }

  lemma ExpiryUnchanged(records: seq<Record>, roots: set<Peer>, now: nat, t: nat, e: Evaluation)
    requires IsEvaluation(records, roots, now, e) && BeforeRefresh(records, now, t)
    ensures Expire(e.states, t) == e.states
  {
    forall p | p in e.states && e.states[p].active
      ensures !e.states[p].event.record.ExpiredAt(t)
    {
      StoredFromList(records, roots, now, e, p);
      NothingExpires(records, now, t, e.states[p].event.record);
    }
    assert forall p :: p in e.states ==> Expire(e.states, t)[p] == e.states[p];
  }

  // What may become due

  /** Whether the issuer of a record may act in the given state. */
  predicate Allowed(r: Record, s: States, roots: set<Peer>) {
    if r.revoked then IssuerActive(r, s, roots) else IssuerActiveOrGenesis(r, s, roots)
  }

  /** Whether a record is allowed and would replace the stored one of its member. */
  predicate TakesEffect(r: Record, s: States, roots: set<Peer>) {
    Allowed(r, s, roots) && (r.member in s ==> Wins(r, s[r.member].event.record, s[r.member].active))
  }

  ghost predicate SomeAllowed(events: seq<Event>, s: States, roots: set<Peer>) {
    exists ev :: ev in events && Allowed(ev.record, s, roots)
  }

  ghost predicate SomeTakesEffect(events: seq<Event>, s: States, roots: set<Peer>) {
    exists ev :: ev in events && TakesEffect(ev.record, s, roots)
  }

  ghost predicate SameButLog(e: Evaluation, f: Evaluation) {
    f == e.(accepted := f.accepted)
  }

  // The log and the states only grow

  ghost predicate Grows(e: Evaluation, f: Evaluation) {
    e.accepted <= f.accepted && StatesAdvance(e.states, f.states)
  }

  lemma GrowsTrans(e: Evaluation, f: Evaluation, g: Evaluation)
    requires Grows(e, f) && Grows(f, g)
    ensures Grows(e, g)
    ensures f.states != e.states ==> g.states != e.states
    ensures |e.accepted| < |f.accepted| ==> |e.accepted| < |g.accepted|
  {
    StatesAdvanceTrans(e.states, f.states, g.states);
    if g.states == e.states {
      AdvanceIsAntisymmetric(e.states, f.states);
    }
  }

  lemma AdvanceIsAntisymmetric(s: States, t: States)
    requires StatesAdvance(s, t) && StatesAdvance(t, s)
    ensures s == t
  {
    forall p | p in s
      ensures s[p] == t[p]
    {
      OutranksIsStrictOrder(s[p].event.record, t[p].event.record, s[p].event.record);
      assert StateAdvances(s[p], t[p]) && StateAdvances(t[p], s[p]);
    }
    forall p
      ensures p in s.Keys <==> p in t.Keys
    {
      assert p in s ==> StateAdvances(s[p], t[p]);
      assert p in t ==> StateAdvances(t[p], s[p]);
    }
  }

  lemma ExpireGrows(e: Evaluation, now: nat)
    ensures Grows(e, e.(states := Expire(e.states, now)))
  {}

  lemma AcceptGrows(e: Evaluation, ev: Event)
    ensures Grows(e, AcceptGrant(e, ev)) && Grows(e, AcceptRevocation(e, ev))
  {
    ApplyAdvances(e.states, ev);
  }

  lemma {:induction false} ScanGrows(e: Evaluation, pending: seq<Event>, roots: set<Peer>)
    ensures Grows(e, Scan(e, pending, roots).0)
    ensures |Scan(e, pending, roots).0.accepted| - |e.accepted| == |pending| - |Scan(e, pending, roots).1|
    decreases |pending|
  {
    if pending != [] {
      if IssuerActiveOrGenesis(pending[0].record, e.states, roots) {
        var e' := AcceptGrant(e, pending[0]);
        AcceptGrows(e, pending[0]);
        ScanGrows(e', pending[1..], roots);
        GrowsTrans(e, e', Scan(e', pending[1..], roots).0);
      } else {
        ScanGrows(e, pending[1..], roots);
      }
    }
  }

  lemma {:induction false} GrantPhaseGrows(e: Evaluation, pending: seq<Event>, roots: set<Peer>)
    ensures Grows(e, GrantPhase(e, pending, roots).0)
    ensures Grows(Scan(e, pending, roots).0, GrantPhase(e, pending, roots).0)
    decreases |pending|
  {
    if pending != [] {
      ScanGrows(e, pending, roots);
      var (e', rest) := Scan(e, pending, roots);
      if |rest| < |pending| {
        GrantPhaseGrows(e', rest, roots);
        GrowsTrans(e, e', GrantPhase(e', rest, roots).0);
      }
    }
  }

  lemma {:induction false} RevocationPhaseGrows(e: Evaluation, revocations: seq<Event>)
    ensures Grows(e, RevocationPhase(e, revocations))
    ensures |RevocationPhase(e, revocations).accepted| == |e.accepted| + |revocations|
    decreases |revocations|
  {
    if revocations != [] {
      var e' := AcceptRevocation(e, revocations[0]);
      AcceptGrows(e, revocations[0]);
      RevocationPhaseGrows(e', revocations[1..]);
      GrowsTrans(e, e', RevocationPhase(e', revocations[1..]));
    }
  }

  lemma SecondGrows(e: Evaluation, now: nat, group: seq<Event>, roots: set<Peer>)
    ensures Grows(e, ReplaySecond(e, now, group, roots))
  {
    var expired := e.(states := Expire(e.states, now));
    var admitted := GrantPhase(expired, Grants(group), roots).0;
    ExpireGrows(e, now);
    GrantPhaseGrows(expired, Grants(group), roots);
    RevocationPhaseGrows(admitted, AuthorizedRevocations(group, admitted.states, roots));
    GrowsTrans(e, expired, admitted);
    GrowsTrans(e, admitted, ReplaySecond(e, now, group, roots));
  }

  lemma {:induction false} ReplayGrows(e: Evaluation, ordered: seq<Event>, roots: set<Peer>)
    ensures Grows(e, ReplayFrom(e, ordered, roots))
    decreases |ordered|
  {
    if ordered != [] {
      var now := ordered[0].record.issuedAt;
      var n := SecondLength(ordered, now);
      var e' := ReplaySecond(e, now, ordered[..n], roots);
      SecondGrows(e, now, ordered[..n], roots);
      ReplayGrows(e', ordered[n..], roots);
      GrowsTrans(e, e', ReplayFrom(e', ordered[n..], roots));
    }
  }

  // One second in which nothing is allowed, or nothing takes effect

  lemma {:induction false} GrantsIn(group: seq<Event>, ev: Event)
    ensures ev in Grants(group) <==> ev in group && !ev.record.revoked
  {
    if group != [] {
      assert group == [group[0]] + group[1..];
      GrantsIn(group[1..], ev);
    }
  }

  lemma {:induction false} QuietScan(e: Evaluation, pending: seq<Event>, roots: set<Peer>)
    requires forall ev :: ev in pending ==> !IssuerActiveOrGenesis(ev.record, e.states, roots)
    ensures Scan(e, pending, roots) == (e, pending)
  {
    if pending != [] {
      QuietScan(e, pending[1..], roots);
      assert pending == [pending[0]] + pending[1..];
    }
  }

  lemma QuietGrants(e: Evaluation, pending: seq<Event>, roots: set<Peer>)
    requires forall ev :: ev in pending ==> !IssuerActiveOrGenesis(ev.record, e.states, roots)
    ensures GrantPhase(e, pending, roots).0 == e
  {
    QuietScan(e, pending, roots);
  }

  lemma NoRevocations(group: seq<Event>, s: States, roots: set<Peer>)
    requires forall ev :: ev in group && ev.record.revoked ==> !IssuerActive(ev.record, s, roots)
    ensures AuthorizedRevocations(group, s, roots) == []
  {
    var batch := AuthorizedRevocations(group, s, roots);
    if batch != [] {
      Confluence.AuthorizedIn(group, s, roots, batch[0]);
    }
  }

  lemma QuietSecond(e: Evaluation, now: nat, group: seq<Event>, roots: set<Peer>)
    requires Expire(e.states, now) == e.states && !SomeAllowed(group, e.states, roots)
    ensures ReplaySecond(e, now, group, roots) == e
  {
    forall ev | ev in Grants(group)
      ensures !IssuerActiveOrGenesis(ev.record, e.states, roots)
    {
      GrantsIn(group, ev);
    }
    QuietGrants(e, Grants(group), roots);
    NoRevocations(group, e.states, roots);
  }

  lemma GrantAccepted(e: Evaluation, pending: seq<Event>, roots: set<Peer>, ev: Event)
    requires ev in pending && IssuerActiveOrGenesis(ev.record, e.states, roots)
    ensures |e.accepted| < |GrantPhase(e, pending, roots).0.accepted|
  {
    Confluence.IdleScan(e, pending, roots);
    ScanGrows(e, pending, roots);
    GrantPhaseGrows(e, pending, roots);
  }

  lemma BusySecond(e: Evaluation, now: nat, group: seq<Event>, roots: set<Peer>)
    requires Expire(e.states, now) == e.states && SomeAllowed(group, e.states, roots)
    ensures |e.accepted| < |ReplaySecond(e, now, group, roots).accepted|
  {
    var admitted := GrantPhase(e, Grants(group), roots).0;
    var batch := AuthorizedRevocations(group, admitted.states, roots);
    RevocationPhaseGrows(admitted, batch);
    if g :| g in Grants(group) && IssuerActiveOrGenesis(g.record, e.states, roots) {
      GrantAccepted(e, Grants(group), roots, g);
    } else {
      QuietGrants(e, Grants(group), roots);
      var ev :| ev in group && Allowed(ev.record, e.states, roots);
      GrantsIn(group, ev);
      Confluence.AuthorizedIn(group, e.states, roots, ev);
    }
  }

  lemma {:induction false} InertScan(e: Evaluation, pending: seq<Event>, roots: set<Peer>)
    requires forall ev :: ev in pending ==> !ev.record.revoked && !TakesEffect(ev.record, e.states, roots)
    ensures SameButLog(e, Scan(e, pending, roots).0)
    ensures forall ev :: ev in Scan(e, pending, roots).1 ==> ev in pending
    decreases |pending|
  {
    if pending != [] {
      var ev := pending[0];
      assert pending == [ev] + pending[1..];
      if IssuerActiveOrGenesis(ev.record, e.states, roots) {
        assert !Replaces(e.states, ev);
        InertScan(AcceptGrant(e, ev), pending[1..], roots);
      } else {
        InertScan(e, pending[1..], roots);
      }
    }
  }

  lemma {:induction false} InertGrants(e: Evaluation, pending: seq<Event>, roots: set<Peer>)
    requires forall ev :: ev in pending ==> !ev.record.revoked && !TakesEffect(ev.record, e.states, roots)
    ensures SameButLog(e, GrantPhase(e, pending, roots).0)
    decreases |pending|
  {
    if pending != [] {
      InertScan(e, pending, roots);
      var (e', rest) := Scan(e, pending, roots);
      if |rest| < |pending| {
        InertGrants(e', rest, roots);
      }
    }
  }

  lemma {:induction false} InertRevocations(e: Evaluation, revocations: seq<Event>)
    requires forall ev :: ev in revocations ==> !Replaces(e.states, ev)
    ensures SameButLog(e, RevocationPhase(e, revocations))
    decreases |revocations|
  {
    if revocations != [] {
      InertRevocations(AcceptRevocation(e, revocations[0]), revocations[1..]);
    }
  }

  lemma InertSecond(e: Evaluation, now: nat, group: seq<Event>, roots: set<Peer>)
    requires Expire(e.states, now) == e.states && !SomeTakesEffect(group, e.states, roots)
    ensures SameButLog(e, ReplaySecond(e, now, group, roots))
  {
    forall ev | ev in Grants(group)
      ensures !ev.record.revoked && !TakesEffect(ev.record, e.states, roots)
    {
      GrantsIn(group, ev);
    }
    InertGrants(e, Grants(group), roots);
    var admitted := GrantPhase(e, Grants(group), roots).0;
    var batch := AuthorizedRevocations(group, admitted.states, roots);
    forall ev | ev in batch
      ensures !Replaces(e.states, ev)
    {
      Confluence.AuthorizedIn(group, admitted.states, roots, ev);
      assert !TakesEffect(ev.record, e.states, roots);
    }
    InertRevocations(admitted, batch);
  }

  // One second in which something takes effect

  lemma ApplyMoves(s: States, ev: Event)
    requires Replaces(s, ev)
    ensures Apply(s, ev) != s
  {
    if ev.record.member in s {
      WinsIsPrecedence(ev.record, s[ev.record.member].event.record, s[ev.record.member].active);
      OutranksIsStrictOrder(ev.record, ev.record, ev.record);
      assert Apply(s, ev)[ev.record.member].event != s[ev.record.member].event;
    }
  }

  lemma {:induction false} ScanMoves(e: Evaluation, pending: seq<Event>, roots: set<Peer>, ev: Event)
    requires ev in pending && IssuerActiveOrGenesis(ev.record, e.states, roots) && Replaces(e.states, ev)
    ensures Scan(e, pending, roots).0.states != e.states
    decreases |pending|
  {
    var head, rest := pending[0], pending[1..];
    assert pending == [head] + rest;
    if IssuerActiveOrGenesis(head.record, e.states, roots) {
      var e' := AcceptGrant(e, head);
      if Replaces(e.states, head) {
        ApplyMoves(e.states, head);
        AcceptGrows(e, head);
        ScanGrows(e', rest, roots);
        GrowsTrans(e, e', Scan(e', rest, roots).0);
      } else {
        ScanMoves(e', rest, roots, ev);
      }
    } else {
      ScanMoves(e, rest, roots, ev);
    }
  }

  lemma {:induction false} RevocationsMove(e: Evaluation, revocations: seq<Event>, ev: Event)
    requires ev in revocations && Replaces(e.states, ev)
    ensures RevocationPhase(e, revocations).states != e.states
    decreases |revocations|
  {
    var head, rest := revocations[0], revocations[1..];
    assert revocations == [head] + rest;
    var e' := AcceptRevocation(e, head);
    if Replaces(e.states, head) {
      ApplyMoves(e.states, head);
      AcceptGrows(e, head);
      RevocationPhaseGrows(e', rest);
      GrowsTrans(e, e', RevocationPhase(e', rest));
    } else {
      RevocationsMove(e', rest, ev);
    }
  }

  lemma GrantMoves(e: Evaluation, pending: seq<Event>, roots: set<Peer>, ev: Event)
    requires ev in pending && IssuerActiveOrGenesis(ev.record, e.states, roots) && Replaces(e.states, ev)
    ensures GrantPhase(e, pending, roots).0.states != e.states
  {
    ScanMoves(e, pending, roots, ev);
    ScanGrows(e, pending, roots);
    GrantPhaseGrows(e, pending, roots);
    GrowsTrans(e, Scan(e, pending, roots).0, GrantPhase(e, pending, roots).0);
  }

  lemma MovingSecond(e: Evaluation, now: nat, group: seq<Event>, roots: set<Peer>)
    requires Expire(e.states, now) == e.states && SomeTakesEffect(group, e.states, roots)
    ensures ReplaySecond(e, now, group, roots).states != e.states
  {
    var ev :| ev in group && TakesEffect(ev.record, e.states, roots);
    var admitted := GrantPhase(e, Grants(group), roots).0;
    var batch := AuthorizedRevocations(group, admitted.states, roots);
    GrantPhaseGrows(e, Grants(group), roots);
    RevocationPhaseGrows(admitted, batch);
    GrowsTrans(e, admitted, RevocationPhase(admitted, batch));
    GrantsIn(group, ev);
    if !ev.record.revoked {
      GrantMoves(e, Grants(group), roots, ev);
    } else if admitted.states == e.states {
      Confluence.AuthorizedIn(group, admitted.states, roots, ev);
      RevocationsMove(admitted, batch, ev);
    }
  }

  // The seconds that become due

  /** Nothing in `s` expires in the seconds of the given events. */
  ghost predicate Steady(s: States, events: seq<Event>) {
    forall ev :: ev in events ==> Expire(s, ev.record.issuedAt) == s
  }

  lemma {:induction false} LogStays(e: Evaluation, rest: seq<Event>, roots: set<Peer>)
    requires Steady(e.states, rest)
    ensures ReplayFrom(e, rest, roots) == e <==> !SomeAllowed(rest, e.states, roots)
    ensures SomeAllowed(rest, e.states, roots) ==> |e.accepted| < |ReplayFrom(e, rest, roots).accepted|
    decreases |rest|
  {
    if rest != [] {
      var now := rest[0].record.issuedAt;
      var n := SecondLength(rest, now);
      assert rest == rest[..n] + rest[n..] && rest[0] in rest;
      var e' := ReplaySecond(e, now, rest[..n], roots);
      if SomeAllowed(rest[..n], e.states, roots) {
        BusySecond(e, now, rest[..n], roots);
        SecondGrows(e, now, rest[..n], roots);
        ReplayGrows(e', rest[n..], roots);
        GrowsTrans(e, e', ReplayFrom(e', rest[n..], roots));
      } else {
        QuietSecond(e, now, rest[..n], roots);
        LogStays(e, rest[n..], roots);
      }
    }
  }

  lemma {:induction false} StatesStay(e: Evaluation, rest: seq<Event>, roots: set<Peer>)
    requires Steady(e.states, rest)
    ensures ReplayFrom(e, rest, roots).states == e.states <==> !SomeTakesEffect(rest, e.states, roots)
    ensures !SomeTakesEffect(rest, e.states, roots) ==> SameButLog(e, ReplayFrom(e, rest, roots))
    decreases |rest|
  {
    if rest != [] {
      var now := rest[0].record.issuedAt;
      var n := SecondLength(rest, now);
      assert rest == rest[..n] + rest[n..] && rest[0] in rest;
      var e' := ReplaySecond(e, now, rest[..n], roots);
      if SomeTakesEffect(rest[..n], e.states, roots) {
        MovingSecond(e, now, rest[..n], roots);
        SecondGrows(e, now, rest[..n], roots);
        ReplayGrows(e', rest[n..], roots);
        GrowsTrans(e, e', ReplayFrom(e', rest[n..], roots));
      } else {
        InertSecond(e, now, rest[..n], roots);
        StatesStay(e', rest[n..], roots);
      }
    }
  }

  /** The stored records issued after `now` and by `t`. */
  ghost predicate Due(records: seq<Record>, now: nat, t: nat, r: Record) {
    r in records && now < r.issuedAt <= t
  }

  lemma DueIsOrdered(records: seq<Record>, now: nat, t: nat, ordered: seq<Event>, r: Record) returns (ev: Event)
    requires IsEventOrder(records, t, ordered) && Due(records, now, t, r)
    ensures ev in ordered[History.IssuedPrefix(ordered, now)..] && ev.record == r
  {
    var i :| 0 <= i < |records| && records[i] == r;
    ev := Event(i, r);
    OrderedMember(records, t, ordered, ev);
    History.PrefixMember(ordered, now, ev);
    var n := History.IssuedPrefix(ordered, now);
    assert ordered == ordered[..n] + ordered[n..];
  }

  lemma OrderedIsDue(records: seq<Record>, now: nat, t: nat, ordered: seq<Event>, ev: Event)
    requires IsEventOrder(records, t, ordered) && ev in ordered[History.IssuedPrefix(ordered, now)..]
    ensures Due(records, now, t, ev.record)
  {
    OrderedMember(records, t, ordered, ev);
    History.PrefixMember(ordered, now, ev);
    var n := History.IssuedPrefix(ordered, now);
    assert ordered == ordered[..n] + ordered[n..];
    assert records[ev.index] == ev.record;
  }

  /** The records that become due are those of the events behind the issued prefix. */
  lemma DueEvents(records: seq<Record>, roots: set<Peer>, now: nat, t: nat, ordered: seq<Event>, s: States)
    requires IsEventOrder(records, t, ordered)
    ensures var rest := ordered[History.IssuedPrefix(ordered, now)..];
      && (SomeAllowed(rest, s, roots) <==> exists r :: Due(records, now, t, r) && Allowed(r, s, roots))
      && (SomeTakesEffect(rest, s, roots) <==> exists r :: Due(records, now, t, r) && TakesEffect(r, s, roots))
  {
    var rest := ordered[History.IssuedPrefix(ordered, now)..];
    forall ev | ev in rest
      ensures Due(records, now, t, ev.record)
    {
      OrderedIsDue(records, now, t, ordered, ev);
    }
    forall r | Due(records, now, t, r)
      ensures exists ev :: ev in rest && ev.record == r
    {
      var ev := DueIsOrdered(records, now, t, ordered, r);
    }
  }

  lemma SteadyUntil(records: seq<Record>, roots: set<Peer>, now: nat, t: nat, ordered: seq<Event>, e: Evaluation)
    requires BeforeRefresh(records, now, t) && IsEventOrder(records, t, ordered) && IsEvaluation(records, roots, now, e)
    ensures Steady(e.states, ordered[History.IssuedPrefix(ordered, now)..])
  {
    var n := History.IssuedPrefix(ordered, now);
    assert ordered == ordered[..n] + ordered[n..];
    forall ev | ev in ordered[n..]
      ensures Expire(e.states, ev.record.issuedAt) == e.states
    {
      OrderedMember(records, t, ordered, ev);
      History.PrefixMember(ordered, now, ev);
      ExpiryUnchanged(records, roots, now, ev.record.issuedAt, e);
    }
  }

  /**
   The deadline, exactly. Before it, an evaluation made at a later time is the one made now precisely when no
   record that becomes due is allowed by the states known now, and it has the same states precisely when none
   of those records would take effect in them.
   */
  lemma DeadlineIsExact(records: seq<Record>, roots: set<Peer>, now: nat, t: nat, ordered: seq<Event>)
    requires BeforeRefresh(records, now, t) && IsEventOrder(records, t, ordered)
    ensures var earlier := ordered[..History.IssuedPrefix(ordered, now)];
      var e, f := Evaluate(earlier, roots, now), Evaluate(ordered, roots, t);
      && IsEventOrder(records, now, earlier)
      && (f == e <==> forall r :: Due(records, now, t, r) ==> !Allowed(r, e.states, roots))
      && (f.states == e.states <==> forall r :: Due(records, now, t, r) ==> !TakesEffect(r, e.states, roots))
      && (f.states == e.states ==> Project(f) == Project(e))
  {
    var n := History.IssuedPrefix(ordered, now);
    var e, rest := Evaluate(ordered[..n], roots, now), ordered[n..];
    History.PrefixIsOrder(records, now, t, ordered);
    assert IsEvaluation(records, roots, now, e);
    SteadyUntil(records, roots, now, t, ordered, e);
    ExpiryUnchanged(records, roots, now, t, e);
    History.LaterEvaluationReplays(roots, now, t, ordered);
    DueEvents(records, roots, now, t, ordered, e.states);
    LogStays(e, rest, roots);
    StatesStay(e, rest, roots);
    LastExpiry(e, rest, roots, t);
  }

  /** The final expiry changes nothing if the replay did not, and undoes nothing if it did. */
  lemma LastExpiry(e: Evaluation, rest: seq<Event>, roots: set<Peer>, t: nat)
    requires Expire(e.states, t) == e.states
    ensures var last := ReplayFrom(e, rest, roots);
      Expire(last.states, t) == e.states <==> last.states == e.states
  {
    var last := ReplayFrom(e, rest, roots);
    ReplayGrows(e, rest, roots);
    ExpireGrows(last, t);
    GrowsTrans(e, last, last.(states := Expire(last.states, t)));
  }

  lemma {:induction false} SameIssued(records: seq<Record>, now: nat, t: nat)
    requires now <= t && forall r :: !Due(records, now, t, r)
    ensures IssuedBy(records, now) == IssuedBy(records, t)
  {
    if records != [] {
      var front, last := records[..|records| - 1], records[|records| - 1];
      assert records == front + [last];
      assert !Due(records, now, t, last);
      forall r
        ensures !Due(front, now, t, r)
      {
        assert !Due(records, now, t, r);
      }
      SameIssued(front, now, t);
    }
  }

  /**
   The refresh deadline is sound: until it passes, and as long as no stored record becomes due, the possible
   evaluations, hence the effective membership, and the deadline itself are those computed now.
   */
  lemma DeadlineIsSound(records: seq<Record>, roots: set<Peer>, now: nat, t: nat, e: Evaluation)
    requires BeforeRefresh(records, now, t) && forall r :: !Due(records, now, t, r)
    ensures IsEvaluation(records, roots, now, e) <==> IsEvaluation(records, roots, t, e)
    ensures NextRefresh(records, t) == NextRefresh(records, now)
  {
    RefreshStays(records, now, t);
    SameIssued(records, now, t);
    forall ordered | IsEventOrder(records, now, ordered)
      ensures Evaluate(ordered, roots, now) == Evaluate(ordered, roots, t)
    {
      assert IsEvaluation(records, roots, now, Evaluate(ordered, roots, now));
      ExpiryUnchanged(records, roots, now, t, Evaluate(ordered, roots, now));
      History.ExpireTwice(ReplayFrom(EMPTY, ordered, roots).states, now, t);
    }
    forall ordered
      ensures IsEventOrder(records, now, ordered) <==> IsEventOrder(records, t, ordered)
    {
    }
  }

  // The window in which the node keeps a membership it computed

  /** The least issue or expiry time after `at`. */
  function NextTransition(records: seq<Record>, at: nat): (next: Option<nat>)
    ensures next.Some? ==> next.value > at && exists r :: r in records && (r.issuedAt == next.value || r.expiresAt == next)
    ensures forall r :: r in records && r.issuedAt > at ==> next.Some? && next.value <= r.issuedAt
    ensures forall r :: r in records && r.expiresAt.Some? && r.expiresAt.value > at ==>
      next.Some? && next.value <= r.expiresAt.value
  {
    if records == [] then None
    else
      var last, earlier := records[|records| - 1], NextTransition(records[..|records| - 1], at);
      assert records == records[..|records| - 1] + [last];
      Earlier(Earlier(earlier, Some(last.issuedAt), at), last.expiresAt, at)
  }

  /** The lesser of a known transition and a time, if the latter is after `at`. */
  function Earlier(known: Option<nat>, time: Option<nat>, at: nat): Option<nat> {
    if time.Some? && time.value > at && (known.None? || time.value < known.value) then time else known
  }

  predicate InWindow(records: seq<Record>, at: nat, t: nat) {
    at <= t && (NextTransition(records, at).Some? ==> t < NextTransition(records, at).value)
  }

  lemma WindowIsQuiet(records: seq<Record>, at: nat, t: nat)
    requires InWindow(records, at, t)
    ensures BeforeRefresh(records, at, t) && forall r :: !Due(records, at, t, r)
  {
    var next := NextRefresh(records, at);
    if next.Some? {
      var r :| r in records && r.expiresAt == next;
    }
  }

  /**
   A membership stays what it is for the whole of its window, without any condition on the stored records: at
   every time the window contains, the possible evaluations and effective memberships are those at its start.
   */
  lemma WindowIsSound(records: seq<Record>, roots: set<Peer>, at: nat, t: nat, e: Evaluation, m: EffectiveMembership)
    requires InWindow(records, at, t)
    ensures IsEvaluation(records, roots, at, e) <==> IsEvaluation(records, roots, t, e)
    ensures IsEffective(records, at, m) <==> IsEffective(records, t, m)
  {
    WindowIsQuiet(records, at, t);
    DeadlineIsSound(records, roots, at, t, e);
    forall f {
      DeadlineIsSound(records, AnchorsOf(records), at, t, f);
    }
  }

  // A grant that is not due yet

  lemma NotYetMember(root: Record, grant: Record, now: nat, e: Evaluation)
    requires root.member != grant.member && now < grant.issuedAt && IsEvaluation([root, grant], {root.member}, now, e)
    ensures grant.member !in e.states
  {
    if grant.member in e.states {
      StoredFromList([root, grant], {root.member}, now, e, grant.member);
    }
  }

  lemma MemberWhenDue(root: Record, grant: Record, now: nat) returns (f: Evaluation)
    requires root.IsAdmission() && root.SelfIssued() && root.expiresAt.None?
    requires grant.IsAdmission() && grant.issuer == root.member != grant.member && grant.expiresAt.None?
    requires root.issuedAt < grant.issuedAt <= now
    ensures IsEvaluation([root, grant], {root.member}, now, f) && grant.member in f.states && f.states[grant.member].active
  {
    var first, second := Event(0, root), Event(1, grant);
    var e := RootAndDelegate(first, second, []);
    assert [first, second] + [] == [first, second];
    IssuedAll([root, grant], now);
    assert IssuedBy([root, grant], now) == [first, second];
    TimeDecides([first, second]);
    NeverExpires(e.states, now);
    f := Evaluate([first, second], {root.member}, now);
  }

  const GENESIS := Record(1, "lab", 1, 1, 1, 1, false, None, [OverlayMember], [], 10, None, 0)
  const PENDING := GENESIS.(member := 2, issuedAt := 40)

  /**
   The deadline does not account for stored records that are not due yet: with a root and a grant dated forty,
   an evaluation at twenty knows nothing of the second member and sets no deadline, yet at fifty the member
   is active.
   */
  lemma PendingGrantHasNoDeadline()
    ensures NextRefresh([GENESIS, PENDING], 20) == None
    ensures forall e :: IsEvaluation([GENESIS, PENDING], {1}, 20, e) ==> 2 !in e.states
    ensures exists f :: IsEvaluation([GENESIS, PENDING], {1}, 50, f) && 2 in f.states && f.states[2].active
  {
    forall e | IsEvaluation([GENESIS, PENDING], {1}, 20, e)
      ensures 2 !in e.states
    {
      NotYetMember(GENESIS, PENDING, 20, e);
    }
    var f := MemberWhenDue(GENESIS, PENDING, 50);
  }
}
