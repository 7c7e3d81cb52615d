/**
 The membership ledger as a state machine: what one accepted grant, one accepted revocation and one
 expiry do to an evaluation. Every later module reasons about runs of these steps.
 */
module Ledger {
  import opened Prelude
  import opened Records

  /** A record together with its place in the stored list. */
  datatype Event = Event(index: nat, record: Record)

  datatype MemberState = MemberState(event: Event, active: bool)

  type States = map<Peer, MemberState>

  /** An accepted event and the event that was current for its issuer when it was accepted. */
  datatype Acceptance = Acceptance(event: Event, authorizer: Option<Event>)

  /**
   The evaluation. The program keeps a set of accepted indices and a map of authorizers with the
   same keys; here both are one list in order of acceptance.
   */
  datatype Evaluation = Evaluation(
    accepted: seq<Acceptance>,
    states: States,
    firstAdmissions: map<Peer, Event>,
    currentAdmissions: map<Peer, Event>)

  const EMPTY := Evaluation([], map[], map[], map[])

  predicate IssuerActive(r: Record, states: States, roots: set<Peer>) {
    if r.issuer in states then states[r.issuer].active else r.issuer in roots
  }

  predicate IssuerActiveOrGenesis(r: Record, states: States, roots: set<Peer>) {
    if r.SelfIssued()
    then r.issuer in roots && (r.issuer in states ==> states[r.issuer].active)
    else IssuerActive(r, states, roots)
  }

  /** Whether an event replaces the record that is current for its member. */
  predicate Wins(candidate: Record, current: Record, currentActive: bool) {
    if !currentActive && !candidate.revoked
    then candidate.epoch > current.epoch
    else
      || CompareVersions(candidate, current) > 0
      || (CompareVersions(candidate, current) == 0 && candidate.revoked && !current.revoked)
      || (CompareVersions(candidate, current) == 0 && candidate.revoked == current.revoked
          && Then(Compare(candidate.issuer, current.issuer),
                  Compare(candidate.signature, current.signature)) > 0)
  }

  predicate Replaces(states: States, ev: Event) {
    ev.record.member in states ==>
      var current := states[ev.record.member];
      Wins(ev.record, current.event.record, current.active)
  }

  function Apply(states: States, ev: Event): States {
    if Replaces(states, ev)
    then states[ev.record.member := MemberState(ev, ev.record.IsAdmission())]
    else states
  }

  function Expire(states: States, now: nat): States {
    map p | p in states ::
      states[p].(active := states[p].active && !states[p].event.record.ExpiredAt(now))
  }

  function CurrentEvent(states: States, p: Peer): Option<Event> {
    if p in states then Some(states[p].event) else None
  }

  function AcceptGrant(e: Evaluation, ev: Event): Evaluation {
    var member := ev.record.member;
    var wasActive := member in e.states && e.states[member].active;
    var admits := Replaces(e.states, ev) && OverlayMember in ev.record.roles;
    Evaluation(
      e.accepted + [Acceptance(ev, CurrentEvent(e.states, ev.record.issuer))],
      Apply(e.states, ev),
      if admits && member !in e.firstAdmissions then e.firstAdmissions[member := ev] else e.firstAdmissions,
      if admits && !wasActive then e.currentAdmissions[member := ev] else e.currentAdmissions)
  }

  function AcceptRevocation(e: Evaluation, ev: Event): Evaluation {
    e.(accepted := e.accepted + [Acceptance(ev, CurrentEvent(e.states, ev.record.issuer))],
       states := Apply(e.states, ev))
  }

  // The machine

  /** `frozen` is the state that authorizes revocations: the one before the first of a second's revocations. */
  datatype Machine = Machine(clock: nat, frozen: States, eval: Evaluation)

  datatype Step = Tick(now: nat) | Admit(grant: Event) | Revoke(revocation: Event)

  predicate Enabled(m: Machine, roots: set<Peer>, step: Step) {
    match step
    case Tick(now) => m.clock <= now
    case Admit(ev) =>
      && !ev.record.revoked
      && ev.record.issuedAt == m.clock
      && IssuerActiveOrGenesis(ev.record, m.eval.states, roots)
    case Revoke(ev) =>
      && ev.record.revoked
      && ev.record.issuedAt == m.clock
      && IssuerActive(ev.record, m.frozen, roots)
  }

  function Do(m: Machine, step: Step): Machine {
    match step
    case Tick(now) =>
      var states := Expire(m.eval.states, now);
      Machine(now, states, m.eval.(states := states))
    case Admit(ev) =>
      var e := AcceptGrant(m.eval, ev);
      Machine(m.clock, e.states, e)
    case Revoke(ev) =>
      m.(eval := AcceptRevocation(m.eval, ev))
  }

  const START := Machine(0, map[], EMPTY)

  ghost predicate Legal(m: Machine, roots: set<Peer>, steps: seq<Step>)
    decreases |steps|
  {
    steps != [] ==> Enabled(m, roots, steps[0]) && Legal(Do(m, steps[0]), roots, steps[1..])
  }

  ghost function Run(m: Machine, steps: seq<Step>): Machine
    decreases |steps|
  {
    if steps == [] then m else Run(Do(m, steps[0]), steps[1..])
  }

  ghost predicate Reaches(m: Machine, roots: set<Peer>, m': Machine) {
    exists steps :: Legal(m, roots, steps) && Run(m, steps) == m'
  }

  lemma {:induction false} RunConcat(m: Machine, roots: set<Peer>, a: seq<Step>, b: seq<Step>)
    requires Legal(m, roots, a) && Legal(Run(m, a), roots, b)
    ensures Legal(m, roots, a + b) && Run(m, a + b) == Run(Run(m, a), b)
    decreases |a|
  {
    if a == [] {
      assert a + b == b;
    } else {
      assert (a + b)[0] == a[0] && (a + b)[1..] == a[1..] + b;
      RunConcat(Do(m, a[0]), roots, a[1..], b);
    }
  }

  lemma ReachesRefl(m: Machine, roots: set<Peer>)
    ensures Reaches(m, roots, m)
  {
    assert Legal(m, roots, []) && Run(m, []) == m;
  }

  lemma ReachesStep(m: Machine, roots: set<Peer>, step: Step)
    requires Enabled(m, roots, step)
    ensures Reaches(m, roots, Do(m, step))
  {
    var steps := [step];
    assert steps[1..] == [] && Legal(Do(m, step), roots, []);
    assert Legal(m, roots, steps) && Run(m, steps) == Do(m, step);
  }

  lemma ReachesTrans(m: Machine, roots: set<Peer>, m1: Machine, m2: Machine)
    requires Reaches(m, roots, m1) && Reaches(m1, roots, m2)
    ensures Reaches(m, roots, m2)
  {
    var a :| Legal(m, roots, a) && Run(m, a) == m1;
    var b :| Legal(m1, roots, b) && Run(m1, b) == m2;
    RunConcat(m, roots, a, b);
  }

  // The win rule is the precedence order, except that an inactive member is only re-admitted by a
  // larger epoch.

  lemma WinsIsPrecedence(candidate: Record, current: Record, active: bool)
    ensures Wins(candidate, current, active) <==>
      if !active && !candidate.revoked then candidate.epoch > current.epoch
      else Outranks(candidate, current)
    ensures Wins(candidate, current, active) ==> Outranks(candidate, current)
  {}
}
