/** Who may issue an accepted event, and which peers can never get one accepted. */
module Authority {
  import opened Records
  import opened Ledger
  import opened Replay
  import opened Safety
  import Conservation

  /**
   Whether an accepted record bears on the authority of the issuer of `r`. A revocation is judged without the
   other revocations of its second.
   */
  ghost predicate BearsOn(x: Record, r: Record) {
    x.member == r.issuer && !(r.revoked && x.revoked && x.issuedAt == r.issuedAt)
  }

  /**
   A root about whom nothing was accepted, or a peer whose highest-ranking accepted record is an admission
   that is unexpired when `r` is issued.
   */
  ghost predicate Backed(log: seq<Acceptance>, r: Record, roots: set<Peer>) {
    || (r.issuer in roots && forall k :: 0 <= k < |log| ==> !BearsOn(log[k].event.record, r))
    || exists k :: 0 <= k < |log| && Authorizes(log, log[k].event.record, r)
  }

  ghost predicate Authorizes(log: seq<Acceptance>, x: Record, r: Record) {
    && BearsOn(x, r) && x.IsAdmission() && !x.ExpiredAt(r.issuedAt)
    && (forall k :: 0 <= k < |log| && BearsOn(log[k].event.record, r) ==> !Outranks(log[k].event.record, x))
  }

  ghost predicate LogBacked(log: seq<Acceptance>, roots: set<Peer>) {
    forall k :: 0 <= k < |log| ==> Backed(log[..k], log[k].event.record, roots)
  }

  ghost predicate Unexpired(states: States, now: nat) {
    forall p :: p in states && states[p].active ==> !states[p].event.record.ExpiredAt(now)
  }

  ghost predicate LogOutlives(log: seq<Acceptance>) {
    forall k :: 0 <= k < |log| ==> OutlivesIssue(log[k].event.record)
  }

  /** No accepted record about a member has a larger epoch than its stored one, or outranks it while it is active. */
  ghost predicate Tops(state: MemberState, x: Record) {
    && x.epoch <= state.event.record.epoch
    && (state.active ==> !Outranks(x, state.event.record))
  }

  ghost predicate StatesTop(states: States, log: seq<Acceptance>) {
    forall k :: 0 <= k < |log| ==>
      var x := log[k].event.record;
      x.member in states && Tops(states[x.member], x)
  }

  /** The same of the frozen states, which do not yet reflect revocations of the current second. */
  ghost predicate FrozenTops(m: Machine) {
    forall k :: 0 <= k < |m.eval.accepted| ==>
      var x := m.eval.accepted[k].event.record;
      (x.revoked && x.issuedAt == m.clock) || (x.member in m.frozen && Tops(m.frozen[x.member], x))
  }

  ghost predicate Vouched(m: Machine, roots: set<Peer>) {
    && StatesSound(m.frozen, m.eval.accepted)
    && StatesTop(m.eval.states, m.eval.accepted)
    && FrozenTops(m)
    && (LogOutlives(m.eval.accepted) ==>
          && Unexpired(m.eval.states, m.clock)
          && Unexpired(m.frozen, m.clock)
          && LogBacked(m.eval.accepted, roots))
  }

  lemma TopStays(states: States, ev: Event, x: Record)
    requires x.member in states && Tops(states[x.member], x)
    ensures var after := Apply(states, ev); x.member in after && Tops(after[x.member], x)
  {
    if ev.record.member == x.member && Replaces(states, ev) {
      var current := states[x.member];
      WinsIsPrecedence(ev.record, current.event.record, current.active);
      OutranksIsStrictOrder(ev.record, current.event.record, x);
    }
  }

  lemma NewRecordIsTopped(states: States, ev: Event)
    ensures var after := Apply(states, ev); ev.record.member in after && Tops(after[ev.record.member], ev.record)
  {
    if ev.record.member in states {
      var current := states[ev.record.member];
      WinsIsPrecedence(ev.record, current.event.record, current.active);
    }
    OutranksIsStrictOrder(ev.record, ev.record, ev.record);
  }

  lemma ApplyTops(states: States, log: seq<Acceptance>, a: Acceptance)
    requires StatesTop(states, log)
    ensures StatesTop(Apply(states, a.event), log + [a])
  {
    var longer := log + [a];
    forall k | 0 <= k < |longer|
      ensures var x := longer[k].event.record;
        x.member in Apply(states, a.event) && Tops(Apply(states, a.event)[x.member], x)
    {
      if k < |log| {
        TopStays(states, a.event, log[k].event.record);
      } else {
        NewRecordIsTopped(states, a.event);
      }
    }
  }

  lemma StepTops(m: Machine, roots: set<Peer>, step: Step)
    requires StatesTop(m.eval.states, m.eval.accepted) && FrozenTops(m) && Enabled(m, roots, step)
    ensures StatesTop(Do(m, step).eval.states, Do(m, step).eval.accepted) && FrozenTops(Do(m, step))
  {
    var m' := Do(m, step);
    if !step.Tick? {
      var ev := if step.Admit? then step.grant else step.revocation;
      var a := Acceptance(ev, CurrentEvent(m.eval.states, ev.record.issuer));
      assert m'.eval.accepted == m.eval.accepted + [a];
      ApplyTops(m.eval.states, m.eval.accepted, a);
    }
  }

  lemma LoggedStays(states: States, log: seq<Acceptance>, a: Acceptance)
    requires StatesSound(states, log)
    ensures StatesSound(states, log + [a])
  {
    forall p | p in states
      ensures Logged(log + [a], states[p].event)
    {
      LoggedGrows(log, a, states[p].event);
    }
  }

  lemma StateBacks(m: Machine, authority: States, r: Record, roots: set<Peer>)
    requires authority == if r.revoked then m.frozen else m.eval.states
    requires StatesSound(authority, m.eval.accepted) && Unexpired(authority, r.issuedAt) && r.issuedAt == m.clock
    requires StatesTop(m.eval.states, m.eval.accepted) && FrozenTops(m)
    requires IssuerActive(r, authority, roots)
    ensures Backed(m.eval.accepted, r, roots)
  {
    var log := m.eval.accepted;
    if r.issuer in authority {
      var k :| 0 <= k < |log| && log[k].event == authority[r.issuer].event;
      assert Authorizes(log, log[k].event.record, r);
    }
  }

  lemma LogBackedGrows(log: seq<Acceptance>, a: Acceptance, roots: set<Peer>)
    requires LogBacked(log, roots) && Backed(log, a.event.record, roots)
    ensures LogBacked(log + [a], roots)
  {
    var longer := log + [a];
    assert forall k :: 0 <= k <= |log| ==> longer[..k] == log[..k];
    assert log[..|log|] == log;
  }

  lemma AcceptKeepsUnexpired(states: States, ev: Event, now: nat)
    requires Unexpired(states, now) && OutlivesIssue(ev.record) && ev.record.issuedAt == now
    ensures Unexpired(Apply(states, ev), now)
  {}

  lemma EventBacked(m: Machine, roots: set<Peer>, ev: Event)
    requires Sound(m, roots) && Vouched(m, roots) && LogOutlives(m.eval.accepted)
    requires Enabled(m, roots, if ev.record.revoked then Revoke(ev) else Admit(ev))
    ensures Backed(m.eval.accepted, ev.record, roots)
  {
    StateBacks(m, if ev.record.revoked then m.frozen else m.eval.states, ev.record, roots);
  }

  lemma StepVouches(m: Machine, roots: set<Peer>, step: Step)
    requires Sound(m, roots) && Vouched(m, roots) && Enabled(m, roots, step)
    ensures Vouched(Do(m, step), roots)
  {
    var m' := Do(m, step);
    StepTops(m, roots, step);
    StepKeeps(m, roots, step);
    if !step.Tick? {
      var ev := if step.Admit? then step.grant else step.revocation;
      var a := Acceptance(ev, CurrentEvent(m.eval.states, ev.record.issuer));
      assert m'.eval.accepted == m.eval.accepted + [a] && m'.eval.states == Apply(m.eval.states, ev);
      LoggedStays(m.frozen, m.eval.accepted, a);
      if LogOutlives(m'.eval.accepted) {
        assert m'.eval.accepted[|m.eval.accepted|] == a;
        assert forall k :: 0 <= k < |m.eval.accepted| ==> m'.eval.accepted[k] == m.eval.accepted[k];
        EventBacked(m, roots, ev);
        LogBackedGrows(m.eval.accepted, a, roots);
        AcceptKeepsUnexpired(m.eval.states, ev, m.clock);
      }
    }
  }

  lemma {:induction false} RunVouches(m: Machine, roots: set<Peer>, steps: seq<Step>)
    requires Sound(m, roots) && Vouched(m, roots) && Legal(m, roots, steps)
    ensures Vouched(Run(m, steps), roots)
    decreases |steps|
  {
    if steps != [] {
      StepKeeps(m, roots, steps[0]);
      StepVouches(m, roots, steps[0]);
      RunVouches(Do(m, steps[0]), roots, steps[1..]);
    }
  }

  lemma {:induction false} JustifiedAt(log: seq<Acceptance>, roots: set<Peer>, k: nat)
    requires LogSound(log, roots) && k < |log|
    ensures Justified(log[..k], log[k], roots)
  {
    if k < |log| - 1 {
      var front := log[..|log| - 1];
      JustifiedAt(front, roots, k);
      assert front[..k] == log[..k];
    }
  }

  /**
   Authorization at acceptance. Each accepted event was issued by a root about whom nothing had been accepted,
   or by a peer whose highest-ranking accepted record was an unexpired admission; a grant names its authorizer.
   */
  lemma AuthorizedWhenAccepted(records: seq<Record>, roots: set<Peer>, now: nat, e: Evaluation, k: nat)
    requires IsEvaluation(records, roots, now, e) && k < |e.accepted|
    requires forall r :: r in records ==> OutlivesIssue(r)
    ensures Backed(e.accepted[..k], e.accepted[k].event.record, roots)
    ensures Justified(e.accepted[..k], e.accepted[k], roots)
  {
    EvaluationSound(records, roots, now, e);
    JustifiedAt(e.accepted, roots, k);
    Conservation.AcceptedOnceFromList(records, roots, now, e);
    EvaluationIsRun(records, roots, now, e);
    var steps :| Legal(START, roots, steps) && Run(START, steps) == At(now, e);
    RunVouches(START, roots, steps);
    assert LogOutlives(e.accepted);
  }

  /** The record of an active member is the highest-ranking one accepted about it. */
  lemma ActiveRecordIsHighest(records: seq<Record>, roots: set<Peer>, now: nat, e: Evaluation, k: nat)
    requires IsEvaluation(records, roots, now, e) && k < |e.accepted|
    ensures var x := e.accepted[k].event.record;
      && x.member in e.states
      && x.epoch <= e.states[x.member].event.record.epoch
      && (e.states[x.member].active ==> !Outranks(x, e.states[x.member].event.record))
  {
    EvaluationIsRun(records, roots, now, e);
    var steps :| Legal(START, roots, steps) && Run(START, steps) == At(now, e);
    RunVouches(START, roots, steps);
  }

  // Peers that only vouch for each other

  /** No root is in the set, and every admission of one of its peers was issued inside the set. */
  ghost predicate SelfVouching(peers: set<Peer>, roots: set<Peer>, r: Record) {
    peers !! roots && (r.IsAdmission() && r.member in peers ==> r.issuer in peers)
  }

  ghost predicate Dormant(states: States, peers: set<Peer>) {
    forall p :: p in peers && p in states ==> !states[p].active
  }

  ghost predicate ShutOut(m: Machine, roots: set<Peer>, peers: set<Peer>) {
    (forall k :: 0 <= k < |m.eval.accepted| ==> SelfVouching(peers, roots, m.eval.accepted[k].event.record)) ==>
      && Dormant(m.eval.states, peers)
      && Dormant(m.frozen, peers)
      && (forall k :: 0 <= k < |m.eval.accepted| ==> m.eval.accepted[k].event.record.issuer !in peers)
  }

  lemma StepShutsOut(m: Machine, roots: set<Peer>, peers: set<Peer>, step: Step)
    requires ShutOut(m, roots, peers) && Enabled(m, roots, step) && peers !! roots
    ensures ShutOut(Do(m, step), roots, peers)
  {
    var m' := Do(m, step);
    if !step.Tick? {
      var ev := if step.Admit? then step.grant else step.revocation;
      var a := Acceptance(ev, CurrentEvent(m.eval.states, ev.record.issuer));
      assert m'.eval.accepted == m.eval.accepted + [a];
      assert m'.eval.accepted[|m.eval.accepted|] == a;
      assert forall k :: 0 <= k < |m.eval.accepted| ==> m'.eval.accepted[k] == m.eval.accepted[k];
    }
  }

  lemma {:induction false} RunShutsOut(m: Machine, roots: set<Peer>, peers: set<Peer>, steps: seq<Step>)
    requires ShutOut(m, roots, peers) && Legal(m, roots, steps) && peers !! roots
    ensures ShutOut(Run(m, steps), roots, peers)
    decreases |steps|
  {
    if steps != [] {
      StepShutsOut(m, roots, peers, steps[0]);
      RunShutsOut(Do(m, steps[0]), roots, peers, steps[1..]);
    }
  }

  /**
   A set of peers without a root, all of whose admissions come from inside the set, never has an
   event accepted and never has an active member, whatever delegation cycles it contains.
   */
  lemma UnanchoredPeersStayOut(records: seq<Record>, roots: set<Peer>, now: nat, e: Evaluation, peers: set<Peer>)
    requires IsEvaluation(records, roots, now, e)
    requires peers !! roots
    requires forall r :: r in records && r.IsAdmission() && r.member in peers ==> r.issuer in peers
    ensures forall k :: 0 <= k < |e.accepted| ==> e.accepted[k].event.record.issuer !in peers
    ensures forall p :: p in peers && p in e.states ==> !e.states[p].active
  {
    Conservation.AcceptedOnceFromList(records, roots, now, e);
    EvaluationIsRun(records, roots, now, e);
    var steps :| Legal(START, roots, steps) && Run(START, steps) == At(now, e);
    RunShutsOut(START, roots, peers, steps);
    assert ShutOut(At(now, e), roots, peers);
  }
}
