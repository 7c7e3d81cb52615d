/** Which stored records change the effective membership when they become due. */
module Refresh {
  import opened Prelude
  import opened Records
  import opened Ledger
  import opened Replay
  import opened Safety
  import opened Effective
  import opened Deadline
  import opened Sorting
  import Confluence
  import Convergence
  import History
  import Singles

  /** A record that can only replace the stored record of an inactive member and leaves it inactive. */
  predicate Hidden(r: Record, s: States) {
    r.member in s && !s[r.member].active && !r.IsAdmission()
  }

  /** Whether the effective membership shows that a record takes effect. */
  predicate Shows(r: Record, s: States, roots: set<Peer>) {
    TakesEffect(r, s, roots) && !Hidden(r, s)
  }

  /** The same members, active members' records and admissions; inactive members may have newer records. */
  ghost predicate LooksLike(e: Evaluation, f: Evaluation) {
    && f.states.Keys == e.states.Keys
    && f.firstAdmissions == e.firstAdmissions && f.currentAdmissions == e.currentAdmissions
    && forall p :: p in e.states ==> LooksLikeState(e.states[p], f.states[p])
  }

  predicate LooksLikeState(x: MemberState, y: MemberState) {
    y.active == x.active && x.event.record.epoch <= y.event.record.epoch && (x.active ==> y == x)
  }

  lemma LooksProjected(e: Evaluation, f: Evaluation)
    requires LooksLike(e, f)
    ensures Project(f) == Project(e)
  {}

  lemma SameAuthority(e: Evaluation, f: Evaluation, r: Record, roots: set<Peer>)
    requires LooksLike(e, f)
    ensures IssuerActive(r, f.states, roots) == IssuerActive(r, e.states, roots)
    ensures IssuerActiveOrGenesis(r, f.states, roots) == IssuerActiveOrGenesis(r, e.states, roots)
  {}

  lemma HiddenApply(e: Evaluation, f: Evaluation, ev: Event, roots: set<Peer>)
    requires LooksLike(e, f) && Allowed(ev.record, e.states, roots) && !Shows(ev.record, e.states, roots)
    ensures LooksLike(e, f.(states := Apply(f.states, ev)))
    ensures Replaces(f.states, ev) ==> !ev.record.IsAdmission()
  {
    var p := ev.record.member;
    if Replaces(f.states, ev) {
      assert p in e.states;
      assert LooksLikeState(e.states[p], f.states[p]);
      assert !e.states[p].active;
      assert !ev.record.IsAdmission();
    }
  }

  lemma HiddenGrant(e: Evaluation, f: Evaluation, ev: Event, roots: set<Peer>)
    requires LooksLike(e, f) && Allowed(ev.record, e.states, roots) && !Shows(ev.record, e.states, roots)
    requires !ev.record.revoked
    ensures LooksLike(e, AcceptGrant(f, ev))
  {
    HiddenApply(e, f, ev, roots);
  }

  lemma {:induction false} HiddenScan(e: Evaluation, f: Evaluation, pending: seq<Event>, roots: set<Peer>)
    requires LooksLike(e, f)
    requires forall ev :: ev in pending ==> !ev.record.revoked && !Shows(ev.record, e.states, roots)
    ensures LooksLike(e, Scan(f, pending, roots).0)
    ensures forall ev :: ev in Scan(f, pending, roots).1 ==> ev in pending
    decreases |pending|
  {
    if pending != [] {
      var ev := pending[0];
      assert pending == [ev] + pending[1..];
      SameAuthority(e, f, ev.record, roots);
      if IssuerActiveOrGenesis(ev.record, f.states, roots) {
        HiddenGrant(e, f, ev, roots);
        HiddenScan(e, AcceptGrant(f, ev), pending[1..], roots);
      } else {
        HiddenScan(e, f, pending[1..], roots);
      }
    }
  }

  lemma {:induction false} HiddenGrants(e: Evaluation, f: Evaluation, pending: seq<Event>, roots: set<Peer>)
    requires LooksLike(e, f)
    requires forall ev :: ev in pending ==> !ev.record.revoked && !Shows(ev.record, e.states, roots)
    ensures LooksLike(e, GrantPhase(f, pending, roots).0)
    decreases |pending|
  {
    if pending != [] {
      HiddenScan(e, f, pending, roots);
      var (f', rest) := Scan(f, pending, roots);
      if |rest| < |pending| {
        HiddenGrants(e, f', rest, roots);
      }
    }
  }

  lemma {:induction false} HiddenRevocations(e: Evaluation, f: Evaluation, revocations: seq<Event>, roots: set<Peer>)
    requires LooksLike(e, f)
    requires forall ev :: ev in revocations ==>
      ev.record.revoked && IssuerActive(ev.record, e.states, roots) && !Shows(ev.record, e.states, roots)
    ensures LooksLike(e, RevocationPhase(f, revocations))
    decreases |revocations|
  {
    if revocations != [] {
      HiddenApply(e, f, revocations[0], roots);
      HiddenRevocations(e, AcceptRevocation(f, revocations[0]), revocations[1..], roots);
    }
  }

  lemma HiddenSecond(e: Evaluation, f: Evaluation, now: nat, group: seq<Event>, roots: set<Peer>)
    requires LooksLike(e, f) && Expire(e.states, now) == e.states
    requires forall ev :: ev in group ==> !Shows(ev.record, e.states, roots)
    ensures LooksLike(e, ReplaySecond(f, now, group, roots))
  {
    var expired := f.(states := Expire(f.states, now));
    HiddenExpiry(e, f, now);
    forall ev | ev in Grants(group)
      ensures !ev.record.revoked && !Shows(ev.record, e.states, roots)
    {
      GrantsIn(group, ev);
    }
    HiddenGrants(e, expired, Grants(group), roots);
    var admitted := GrantPhase(expired, Grants(group), roots).0;
    forall ev | ev in AuthorizedRevocations(group, admitted.states, roots)
      ensures ev.record.revoked && IssuerActive(ev.record, e.states, roots) && !Shows(ev.record, e.states, roots)
    {
      Confluence.AuthorizedIn(group, admitted.states, roots, ev);
      SameAuthority(e, admitted, ev.record, roots);
    }
    HiddenRevocations(e, admitted, AuthorizedRevocations(group, admitted.states, roots), roots);
  }

  lemma HiddenExpiry(e: Evaluation, f: Evaluation, now: nat)
    requires LooksLike(e, f) && Expire(e.states, now) == e.states
    ensures LooksLike(e, f.(states := Expire(f.states, now)))
  {
    forall p | p in e.states
      ensures LooksLikeState(e.states[p], Expire(f.states, now)[p])
    {
      assert LooksLikeState(e.states[p], f.states[p]) && Expire(e.states, now)[p] == e.states[p];
    }
  }

  lemma {:induction false} HiddenReplay(e: Evaluation, f: Evaluation, rest: seq<Event>, roots: set<Peer>)
    requires LooksLike(e, f) && Steady(e.states, rest)
    requires forall ev :: ev in rest ==> !Shows(ev.record, e.states, roots)
    ensures LooksLike(e, ReplayFrom(f, rest, roots))
    decreases |rest|
  {
    if rest != [] {
      var now := rest[0].record.issuedAt;
      var n := SecondLength(rest, now);
      assert rest == rest[..n] + rest[n..] && rest[0] in rest;
      HiddenSecond(e, f, now, rest[..n], roots);
      HiddenReplay(e, ReplaySecond(f, now, rest[..n], roots), rest[n..], roots);
    }
  }

  /**
   The membership stays what it is before the deadline if no record that becomes due shows in the states known
   now, even if some of them take effect.
   */
  lemma HiddenRecordsKeepMembership(records: seq<Record>, roots: set<Peer>, now: nat, t: nat, ordered: seq<Event>)
    requires BeforeRefresh(records, now, t) && IsEventOrder(records, t, ordered)
    requires var e := Evaluate(ordered[..History.IssuedPrefix(ordered, now)], roots, now);
      forall r :: Due(records, now, t, r) ==> !Shows(r, e.states, roots)
    ensures var e := Evaluate(ordered[..History.IssuedPrefix(ordered, now)], roots, now);
      Project(Evaluate(ordered, roots, t)) == Project(e)
  {
    var n := History.IssuedPrefix(ordered, now);
    var e, rest := Evaluate(ordered[..n], roots, now), ordered[n..];
    History.PrefixIsOrder(records, now, t, ordered);
    assert IsEvaluation(records, roots, now, e);
    SteadyUntil(records, roots, now, t, ordered, e);
    ExpiryUnchanged(records, roots, now, t, e);
    History.LaterEvaluationReplays(roots, now, t, ordered);
    forall ev | ev in rest
      ensures !Shows(ev.record, e.states, roots)
    {
      OrderedIsDue(records, now, t, ordered, ev);
    }
    HiddenReplay(e, e, rest, roots);
    HiddenExpiry(e, ReplayFrom(e, rest, roots), t);
    LooksProjected(e, Evaluate(ordered, roots, t));
  }

  // One record

  /** Two records that the effective membership shows alike. */
  predicate SameView(a: Record, b: Record) {
    MemberFrom(a, a, a).(admittedAt := 0, originalAdmittedAt := 0, effectiveInviter := None, originalInviter := None)
    == MemberFrom(b, b, b).(admittedAt := 0, originalAdmittedAt := 0, effectiveInviter := None, originalInviter := None)
  }

  lemma SameViewIsExact(a: Record, b: Record, current: Record, original: Record)
    ensures MemberFrom(a, current, original) == MemberFrom(b, current, original) <==> SameView(a, b)
  {}

  /** Whether the effective membership changes when a record that takes effect replaces the stored one. */
  predicate Replacement(r: Record, s: States) {
    if r.member !in s then true
    else if s[r.member].active then !r.IsAdmission() || !SameView(r, s[r.member].event.record)
    else r.IsAdmission()
  }

  /** The record at position `k` is the only one that becomes due. */
  ghost predicate OnlyDue(records: seq<Record>, now: nat, t: nat, k: nat) {
    k < |records| && forall i :: 0 <= i < |records| ==> (now < records[i].issuedAt <= t <==> i == k)
  }

  lemma OneElement(rest: seq<Event>, ev: Event)
    requires Distinct(rest) && rest != [] && forall x :: x in rest ==> x == ev
    ensures rest == [ev]
  {
    assert rest[0] in rest && rest[|rest| - 1] in rest;
  }

  lemma SuffixIsDistinct(xs: seq<Event>, n: nat)
    requires Distinct(xs) && n <= |xs|
    ensures Distinct(xs[n..])
  {
    assert forall i :: 0 <= i < |xs| - n ==> xs[n..][i] == xs[n + i];
  }

  lemma DuePosition(records: seq<Record>, now: nat, t: nat, ordered: seq<Event>, k: nat, ev: Event)
    requires IsEventOrder(records, t, ordered) && OnlyDue(records, now, t, k)
    requires ev in ordered[History.IssuedPrefix(ordered, now)..]
    ensures ev == Event(k, records[k])
  {
    var n := History.IssuedPrefix(ordered, now);
    assert ordered == ordered[..n] + ordered[n..];
    OrderedMember(records, t, ordered, ev);
    History.PrefixMember(ordered, now, ev);
    assert now < records[ev.index].issuedAt <= t;
  }

  lemma OnlyDueIsLast(records: seq<Record>, now: nat, t: nat, ordered: seq<Event>, k: nat)
    requires IsEventOrder(records, t, ordered) && OnlyDue(records, now, t, k)
    ensures ordered[History.IssuedPrefix(ordered, now)..] == [Event(k, records[k])]
  {
    var n := History.IssuedPrefix(ordered, now);
    Convergence.OrderIsDistinct(records, t, ordered);
    SuffixIsDistinct(ordered, n);
    var ev := DueIsOrdered(records, now, t, ordered, records[k]);
    forall x | x in ordered[n..]
      ensures x == Event(k, records[k])
    {
      DuePosition(records, now, t, ordered, k, x);
    }
    OneElement(ordered[n..], Event(k, records[k]));
  }

  function Accept(e: Evaluation, ev: Event, roots: set<Peer>): Evaluation {
    if !Allowed(ev.record, e.states, roots) then e
    else if ev.record.revoked then AcceptRevocation(e, ev)
    else AcceptGrant(e, ev)
  }

  lemma OneEvent(e: Evaluation, ev: Event, roots: set<Peer>)
    requires Expire(e.states, ev.record.issuedAt) == e.states
    ensures ReplayFrom(e, [ev], roots) == Accept(e, ev, roots)
  {
    assert [ev] + [] == [ev];
    Singles.NextSecond(e, ev, [], roots);
    if !Allowed(ev.record, e.states, roots) {
      QuietSecond(e, ev.record.issuedAt, [ev], roots);
    } else if ev.record.revoked {
      Singles.OneRevocation(e, ev, roots);
    } else {
      Singles.OneGrantSecond(e, ev, roots);
    }
  }

  lemma AcceptProjects(e: Evaluation, ev: Event, roots: set<Peer>, t: nat)
    requires Expire(e.states, t) == e.states && TakesEffect(ev.record, e.states, roots)
    requires ev.record.IsAdmission() ==> !ev.record.ExpiredAt(t)
    requires forall p :: p in e.states && e.states[p].active ==> p in e.firstAdmissions && p in e.currentAdmissions
    ensures var f := Accept(e, ev, roots);
      Project(f.(states := Expire(f.states, t))) == Project(e) <==> !Replacement(ev.record, e.states)
  {
    var f, p := Accept(e, ev, roots), ev.record.member;
    var last := f.(states := Expire(f.states, t));
    AcceptedState(e, ev, roots, t);
    if p !in e.states {
      assert p in Project(last).governed && p !in Project(e).governed;
    } else if !e.states[p].active {
      if ev.record.IsAdmission() {
        assert p in Project(last).members && p !in Project(e).members;
      } else {
        LooksProjected(e, last);
      }
    } else if !ev.record.IsAdmission() {
      assert p !in Project(last).members && p in Project(e).members;
    } else {
      RenewalProjects(e, ev, last);
    }
  }

  lemma AcceptedState(e: Evaluation, ev: Event, roots: set<Peer>, t: nat)
    requires Expire(e.states, t) == e.states && TakesEffect(ev.record, e.states, roots)
    requires ev.record.IsAdmission() ==> !ev.record.ExpiredAt(t)
    ensures Expire(Accept(e, ev, roots).states, t) == e.states[ev.record.member := MemberState(ev, ev.record.IsAdmission())]
  {
    var f := Accept(e, ev, roots);
    assert Replaces(e.states, ev);
    var expired := Expire(f.states, t);
    forall p | p in f.states
      ensures expired[p] == f.states[p]
    {
      assert p != ev.record.member ==> Expire(e.states, t)[p] == e.states[p];
    }
  }

  ghost predicate Renews(e: Evaluation, ev: Event, last: Evaluation) {
    var p := ev.record.member;
    && p in e.states && e.states[p].active && p in e.firstAdmissions && p in e.currentAdmissions
    && last.states == e.states[p := MemberState(ev, true)]
    && last.firstAdmissions == e.firstAdmissions && last.currentAdmissions == e.currentAdmissions
  }

  lemma RenewalTouchesOne(e: Evaluation, ev: Event, last: Evaluation)
    requires Renews(e, ev, last)
    ensures Project(last) == Project(e).(members :=
      Project(e).members[ev.record.member := Project(last).members[ev.record.member]])
  {
    var before, after := Project(e).members, Project(last).members;
    assert last.states.Keys == e.states.Keys;
    assert after.Keys == before.Keys;
    assert forall q :: q in before && q != ev.record.member ==> after[q] == before[q];
  }

  lemma RenewalProjects(e: Evaluation, ev: Event, last: Evaluation)
    requires Renews(e, ev, last)
    ensures Project(last) == Project(e) <==> SameView(ev.record, e.states[ev.record.member].event.record)
  {
    var p := ev.record.member;
    SameViewIsExact(ev.record, e.states[p].event.record, e.currentAdmissions[p].record, e.firstAdmissions[p].record);
    RenewalTouchesOne(e, ev, last);
    var before, after := Project(e).members, Project(last).members;
    assert after == before[p := after[p]];
    assert before[p := before[p]] == before;
  }

  lemma ActiveAreAdmitted(records: seq<Record>, roots: set<Peer>, now: nat, e: Evaluation)
    requires IsEvaluation(records, roots, now, e)
    ensures forall p :: p in e.states && e.states[p].active ==> p in e.firstAdmissions && p in e.currentAdmissions
  {
    forall p | p in e.states && e.states[p].active
      ensures p in e.firstAdmissions && p in e.currentAdmissions
    {
      History.ActiveMemberProvenance(records, roots, now, e, p);
    }
  }

  lemma NotExpired(records: seq<Record>, now: nat, t: nat, k: nat)
    requires BeforeRefresh(records, now, t) && OnlyDue(records, now, t, k) && OutlivesIssue(records[k])
    ensures !records[k].ExpiredAt(t)
  {
    assert records[k] in records;
  }

  lemma OneDueReplays(records: seq<Record>, roots: set<Peer>, now: nat, t: nat, ordered: seq<Event>, k: nat)
    returns (e: Evaluation)
    requires BeforeRefresh(records, now, t) && IsEventOrder(records, t, ordered) && OnlyDue(records, now, t, k)
    ensures e == Evaluate(ordered[..History.IssuedPrefix(ordered, now)], roots, now)
    ensures IsEvaluation(records, roots, now, e) && Expire(e.states, t) == e.states
    ensures var f := Accept(e, Event(k, records[k]), roots);
      Evaluate(ordered, roots, t) == f.(states := Expire(f.states, t))
  {
    var ev := Event(k, records[k]);
    e := Evaluate(ordered[..History.IssuedPrefix(ordered, now)], roots, now);
    History.PrefixIsOrder(records, now, t, ordered);
    assert IsEvaluation(records, roots, now, e);
    OnlyDueIsLast(records, now, t, ordered, k);
    ExpiryUnchanged(records, roots, now, ev.record.issuedAt, e);
    ExpiryUnchanged(records, roots, now, t, e);
    History.LaterEvaluationReplays(roots, now, t, ordered);
    OneEvent(e, ev, roots);
  }

  /**
   If one record becomes due before the deadline, the membership stays what it is exactly if the record does not
   take effect or only replaces what the membership does not show.
   */
  lemma OneDueRecord(records: seq<Record>, roots: set<Peer>, now: nat, t: nat, ordered: seq<Event>, k: nat)
    requires BeforeRefresh(records, now, t) && IsEventOrder(records, t, ordered) && OnlyDue(records, now, t, k)
    requires OutlivesIssue(records[k])
    ensures var e := Evaluate(ordered[..History.IssuedPrefix(ordered, now)], roots, now);
      Project(Evaluate(ordered, roots, t)) == Project(e) <==>
      !(TakesEffect(records[k], e.states, roots) && Replacement(records[k], e.states))
  {
    var e := OneDueReplays(records, roots, now, t, ordered, k);
    if TakesEffect(records[k], e.states, roots) {
      NotExpired(records, now, t, k);
      ActiveAreAdmitted(records, roots, now, e);
      AcceptProjects(e, Event(k, records[k]), roots, t);
    } else {
      NoEffectProjects(e, Event(k, records[k]), roots, t);
    }
  }

  lemma NoEffectProjects(e: Evaluation, ev: Event, roots: set<Peer>, t: nat)
    requires Expire(e.states, t) == e.states && !TakesEffect(ev.record, e.states, roots)
    ensures var f := Accept(e, ev, roots); Project(f.(states := Expire(f.states, t))) == Project(e)
  {}
}
