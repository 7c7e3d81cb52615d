/**
 What every run of the ledger keeps. `Sound` collects the facts that hold in every reachable state;
 `Advances` relates any two states of one run. The theorems at the end read them off at the
 evaluations the program produces.
 */
module Safety {
  import opened Records
  import opened Ledger
  import opened Replay

  // The acceptance log

  ghost predicate Logged(log: seq<Acceptance>, ev: Event) {
    exists k :: 0 <= k < |log| && log[k].event == ev
  }

  /**
   Why an entry may follow a log: its authorizer was accepted before it; a grant's authorizer is an
   admission of its issuer, or its issuer is a root about whom nothing was accepted yet; only roots
   issue to themselves.
   */
  ghost predicate Justified(log: seq<Acceptance>, a: Acceptance, roots: set<Peer>) {
    var r := a.event.record;
    && (a.authorizer.Some? ==> Logged(log, a.authorizer.value))
    && (!r.revoked && r.SelfIssued() ==> r.issuer in roots)
    && (!r.revoked ==>
          match a.authorizer
          case None => r.issuer in roots && (forall k :: 0 <= k < |log| ==> log[k].event.record.member != r.issuer)
          case Some(b) => b.record.IsAdmission() && b.record.member == r.issuer)
  }

  ghost predicate LogSound(log: seq<Acceptance>, roots: set<Peer>) {
    log != [] ==>
      var front, last := log[..|log| - 1], log[|log| - 1];
      && LogSound(front, roots)
      && Justified(front, last, roots)
      && (forall k :: 0 <= k < |front| ==> front[k].event.record.issuedAt <= last.event.record.issuedAt)
  }

  /** Each stored state comes from an accepted event about that member, and only admissions are active. */
  ghost predicate StatesSound(states: States, log: seq<Acceptance>) {
    forall p :: p in states ==>
      && states[p].event.record.member == p
      && Logged(log, states[p].event)
      && (states[p].active ==> states[p].event.record.IsAdmission())
  }

  /** A revocation's mark: its subject is inactive at no older a version, or has moved to a newer one. */
  ghost predicate Buried(states: States, revocation: Record) {
    && revocation.member in states
    && var s := states[revocation.member];
       || NewerVersion(s.event.record, revocation)
       || (!s.active && !NewerVersion(revocation, s.event.record))
  }

  ghost predicate LogCovered(e: Evaluation, clock: nat) {
    forall k :: 0 <= k < |e.accepted| ==>
      var r := e.accepted[k].event.record;
      && r.issuedAt <= clock
      && r.member in e.states
      && (r.revoked ==> Buried(e.states, r))
  }

  ghost predicate AdmissionOf(log: seq<Acceptance>, ev: Event, p: Peer) {
    ev.record.member == p && ev.record.IsAdmission() && Logged(log, ev)
  }

  /** First and current admissions are accepted admissions of their member, in time and epoch order. */
  ghost predicate ProvenanceOf(e: Evaluation, p: Peer) {
    && (p in e.firstAdmissions <==> p in e.currentAdmissions)
    && (p in e.states && e.states[p].active ==> p in e.currentAdmissions)
    && (p in e.currentAdmissions ==>
          var first, current := e.firstAdmissions[p], e.currentAdmissions[p];
          && AdmissionOf(e.accepted, first, p) && AdmissionOf(e.accepted, current, p)
          && (first == current || first.record.epoch < current.record.epoch)
          && first.record.issuedAt <= current.record.issuedAt
          && p in e.states
          && current.record.epoch <= e.states[p].event.record.epoch
          && current.record.issuedAt <= e.states[p].event.record.issuedAt)
  }

  ghost predicate Provenance(e: Evaluation) {
    forall p :: ProvenanceOf(e, p)
  }

  ghost predicate Sound(m: Machine, roots: set<Peer>) {
    && LogSound(m.eval.accepted, roots)
    && StatesSound(m.eval.states, m.eval.accepted)
    && LogCovered(m.eval, m.clock)
    && Provenance(m.eval)
  }

  // Two states of one run

  ghost predicate StateAdvances(a: MemberState, b: MemberState) {
    && (a.event == b.event || Outranks(b.event.record, a.event.record))
    && (b.active && !a.active ==> b.event.record.epoch > a.event.record.epoch)
  }

  ghost predicate StatesAdvance(s: States, t: States) {
    forall p :: p in s ==> p in t && StateAdvances(s[p], t[p])
  }

  /** First admissions stay; a current admission only gives way to one of a larger epoch. */
  ghost predicate AdmissionsAdvance(e: Evaluation, f: Evaluation) {
    && (forall p :: p in e.firstAdmissions ==> p in f.firstAdmissions && f.firstAdmissions[p] == e.firstAdmissions[p])
    && (forall p :: p in e.currentAdmissions ==>
          && p in f.currentAdmissions
          && (f.currentAdmissions[p] == e.currentAdmissions[p]
              || f.currentAdmissions[p].record.epoch > e.currentAdmissions[p].record.epoch))
  }

  ghost predicate Advances(e: Evaluation, f: Evaluation) {
    && e.accepted <= f.accepted
    && StatesAdvance(e.states, f.states)
    && AdmissionsAdvance(e, f)
  }

  lemma StatesAdvanceTrans(s: States, t: States, u: States)
    requires StatesAdvance(s, t) && StatesAdvance(t, u)
    ensures StatesAdvance(s, u)
  {
    forall p | p in s
      ensures StateAdvances(s[p], u[p])
    {
      assert p in t && StateAdvances(s[p], t[p]) && StateAdvances(t[p], u[p]);
    }
  }

  lemma AdvancesTrans(e: Evaluation, f: Evaluation, g: Evaluation)
    requires Advances(e, f) && Advances(f, g)
    ensures Advances(e, g)
  {
    StatesAdvanceTrans(e.states, f.states, g.states);
  }

  lemma ApplyAdvances(states: States, ev: Event)
    ensures StatesAdvance(states, Apply(states, ev))
  {
    if ev.record.member in states {
      var s := states[ev.record.member];
      WinsIsPrecedence(ev.record, s.event.record, s.active);
    }
  }

  /** A revocation stays buried however the states advance. */
  lemma BuriedStays(s: States, t: States, r: Record)
    requires Buried(s, r) && StatesAdvance(s, t)
    ensures Buried(t, r)
  {
    assert StateAdvances(s[r.member], t[r.member]);
  }

  lemma ApplyBuries(states: States, log: seq<Acceptance>, ev: Event)
    requires ev.record.revoked && StatesSound(states, log)
    ensures Buried(Apply(states, ev), ev.record)
  {}

  // Preservation, one conjunct at a time

  lemma LoggedGrows(log: seq<Acceptance>, a: Acceptance, ev: Event)
    ensures Logged(log + [a], ev) <==> Logged(log, ev) || a.event == ev
  {
    var longer := log + [a];
    if Logged(log, ev) {
      var k :| 0 <= k < |log| && log[k].event == ev;
      assert longer[k].event == ev;
    }
    if a.event == ev {
      assert longer[|log|].event == ev;
    }
    if Logged(longer, ev) {
      var k :| 0 <= k < |longer| && longer[k].event == ev;
      assert k < |log| ==> log[k].event == ev;
    }
  }

  lemma AcceptKeepsLog(m: Machine, roots: set<Peer>, ev: Event)
    requires Sound(m, roots)
    requires Enabled(m, roots, Admit(ev)) || Enabled(m, roots, Revoke(ev))
    ensures LogSound(m.eval.accepted + [Acceptance(ev, CurrentEvent(m.eval.states, ev.record.issuer))], roots)
  {
    var a := Acceptance(ev, CurrentEvent(m.eval.states, ev.record.issuer));
    var log := m.eval.accepted;
    assert (log + [a])[..|log|] == log;
    assert Justified(log, a, roots);
  }

  lemma ApplyKeepsStates(states: States, log: seq<Acceptance>, a: Acceptance)
    requires StatesSound(states, log)
    ensures StatesSound(Apply(states, a.event), log + [a])
  {
    forall ev
      ensures Logged(log + [a], ev) <==> Logged(log, ev) || a.event == ev
    {
      LoggedGrows(log, a, ev);
    }
  }

  lemma AcceptKeepsCover(e: Evaluation, f: Evaluation, clock: nat, a: Acceptance)
    requires LogCovered(e, clock) && StatesSound(e.states, e.accepted) && a.event.record.issuedAt == clock
    requires f.accepted == e.accepted + [a] && f.states == Apply(e.states, a.event)
    ensures LogCovered(f, clock)
  {
    ApplyAdvances(e.states, a.event);
    forall k | 0 <= k < |e.accepted| && e.accepted[k].event.record.revoked
      ensures Buried(f.states, e.accepted[k].event.record)
    {
      BuriedStays(e.states, f.states, e.accepted[k].event.record);
    }
    if a.event.record.revoked {
      ApplyBuries(e.states, e.accepted, a.event);
    }
  }

  lemma LoggedBefore(m: Machine, roots: set<Peer>, ev: Event)
    requires Sound(m, roots) && Logged(m.eval.accepted, ev)
    ensures ev.record.issuedAt <= m.clock
  {}

  lemma ProvenanceElsewhere(e: Evaluation, f: Evaluation, a: Acceptance, p: Peer)
    requires ProvenanceOf(e, p) && f.accepted == e.accepted + [a]
    requires p in e.states <==> p in f.states
    requires p in e.states ==> f.states[p] == e.states[p]
    requires p in e.firstAdmissions <==> p in f.firstAdmissions
    requires p in e.firstAdmissions ==> f.firstAdmissions[p] == e.firstAdmissions[p]
    requires p in e.currentAdmissions <==> p in f.currentAdmissions
    requires p in e.currentAdmissions ==> f.currentAdmissions[p] == e.currentAdmissions[p]
    ensures ProvenanceOf(f, p)
  {
    if p in e.currentAdmissions {
      LoggedGrows(e.accepted, a, e.firstAdmissions[p]);
      LoggedGrows(e.accepted, a, e.currentAdmissions[p]);
    }
  }

  /** The member an event is about, after the event has replaced that member's record. */
  lemma ProvenanceHere(m: Machine, roots: set<Peer>, f: Evaluation, a: Acceptance)
    requires Sound(m, roots) && Replaces(m.eval.states, a.event) && a.event.record.issuedAt == m.clock
    requires f == if a.event.record.revoked then AcceptRevocation(m.eval, a.event) else AcceptGrant(m.eval, a.event)
    requires a == f.accepted[|m.eval.accepted|]
    ensures ProvenanceOf(f, a.event.record.member)
  {
    var e, p := m.eval, a.event.record.member;
    assert f.accepted == e.accepted + [a] && ProvenanceOf(e, p);
    LoggedGrows(e.accepted, a, a.event);
    if p in e.states {
      WinsIsPrecedence(a.event.record, e.states[p].event.record, e.states[p].active);
      LoggedBefore(m, roots, e.states[p].event);
    }
    if p in e.currentAdmissions {
      LoggedGrows(e.accepted, a, e.firstAdmissions[p]);
      LoggedGrows(e.accepted, a, e.currentAdmissions[p]);
      LoggedBefore(m, roots, e.firstAdmissions[p]);
    }
  }

  lemma AcceptKeepsProvenance(m: Machine, roots: set<Peer>, ev: Event, f: Evaluation)
    requires Sound(m, roots) && ev.record.issuedAt == m.clock
    requires f == if ev.record.revoked then AcceptRevocation(m.eval, ev) else AcceptGrant(m.eval, ev)
    ensures Provenance(f)
  {
    var a := f.accepted[|m.eval.accepted|];
    forall p
      ensures ProvenanceOf(f, p)
    {
      assert ProvenanceOf(m.eval, p);
      if p == ev.record.member && Replaces(m.eval.states, ev) {
        ProvenanceHere(m, roots, f, a);
      } else {
        ProvenanceElsewhere(m.eval, f, a, p);
      }
    }
  }

  lemma AdmitClimbs(m: Machine, roots: set<Peer>, ev: Event)
    requires Sound(m, roots) && !ev.record.revoked
    ensures AdmissionsAdvance(m.eval, AcceptGrant(m.eval, ev))
  {
    assert ProvenanceOf(m.eval, ev.record.member);
  }

  lemma TickKeeps(m: Machine, roots: set<Peer>, now: nat)
    requires Sound(m, roots) && Enabled(m, roots, Tick(now))
    ensures Sound(Do(m, Tick(now)), roots) && Advances(m.eval, Do(m, Tick(now)).eval)
  {
    var f := Do(m, Tick(now)).eval;
    forall k | 0 <= k < |f.accepted| && f.accepted[k].event.record.revoked
      ensures Buried(f.states, f.accepted[k].event.record)
    {
      BuriedStays(m.eval.states, f.states, f.accepted[k].event.record);
    }
    assert forall p :: ProvenanceOf(m.eval, p) ==> ProvenanceOf(f, p);
  }

  lemma StepKeeps(m: Machine, roots: set<Peer>, step: Step)
    requires Sound(m, roots) && Enabled(m, roots, step)
    ensures Sound(Do(m, step), roots) && Advances(m.eval, Do(m, step).eval)
  {
    match step
    case Tick(now) => TickKeeps(m, roots, now);
    case Admit(ev) =>
      var a := Acceptance(ev, CurrentEvent(m.eval.states, ev.record.issuer));
      AcceptKeepsLog(m, roots, ev);
      ApplyKeepsStates(m.eval.states, m.eval.accepted, a);
      AcceptKeepsCover(m.eval, AcceptGrant(m.eval, ev), m.clock, a);
      AcceptKeepsProvenance(m, roots, ev, AcceptGrant(m.eval, ev));
      AdmitClimbs(m, roots, ev);
      ApplyAdvances(m.eval.states, ev);
    case Revoke(ev) =>
      var a := Acceptance(ev, CurrentEvent(m.eval.states, ev.record.issuer));
      AcceptKeepsLog(m, roots, ev);
      ApplyKeepsStates(m.eval.states, m.eval.accepted, a);
      AcceptKeepsCover(m.eval, AcceptRevocation(m.eval, ev), m.clock, a);
      AcceptKeepsProvenance(m, roots, ev, AcceptRevocation(m.eval, ev));
      ApplyAdvances(m.eval.states, ev);
  }

  lemma {:induction false} RunKeeps(m: Machine, roots: set<Peer>, steps: seq<Step>)
    requires Sound(m, roots) && Legal(m, roots, steps)
    ensures Sound(Run(m, steps), roots) && Advances(m.eval, Run(m, steps).eval)
    decreases |steps|
  {
    if steps != [] {
      var m' := Do(m, steps[0]);
      StepKeeps(m, roots, steps[0]);
      RunKeeps(m', roots, steps[1..]);
      AdvancesTrans(m.eval, m'.eval, Run(m, steps).eval);
    }
  }

  /** Over any run: soundness is kept, and the later state advances the earlier one. */
  lemma ReachesKeeps(m: Machine, roots: set<Peer>, m': Machine)
    requires Sound(m, roots) && Reaches(m, roots, m')
    ensures Sound(m', roots) && Advances(m.eval, m'.eval)
  {
    var steps :| Legal(m, roots, steps) && Run(m, steps) == m';
    RunKeeps(m, roots, steps);
  }

  lemma EvaluationSound(records: seq<Record>, roots: set<Peer>, now: nat, e: Evaluation)
    requires IsEvaluation(records, roots, now, e)
    ensures Sound(At(now, e), roots)
  {
    EvaluationIsRun(records, roots, now, e);
    ReachesKeeps(START, roots, At(now, e));
  }
}
