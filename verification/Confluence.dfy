/**
 Inside one second the order of events does not matter: the grants accepted are a least fixpoint, and
 both the grants and the revocations leave each member with its highest-ranking record.
 */
module Confluence {
  import opened Prelude
  import opened Records
  import opened Ledger
  import opened Replay
  import Conservation
  import opened Sorting

  /** No two different records of one slot. */
  ghost predicate UniqueSlots(events: set<Event>) {
    forall a, b :: a in events && b in events && SameSlot(a.record, b.record) ==> a.record == b.record
  }

  ghost function Stored(states: States): set<Event> {
    set p | p in states :: states[p].event
  }

  ghost predicate StatesAbout(states: States) {
    forall p :: p in states ==>
      states[p].event.record.member == p && (states[p].active ==> states[p].event.record.IsAdmission())
  }

  /** Equal up to the list position of an equal record. */
  ghost predicate SameStates(s: States, t: States) {
    s.Keys == t.Keys
    && forall p :: p in s ==> s[p].active == t[p].active && s[p].event.record == t[p].event.record
  }

  // Grants

  /** Grants accepted one after the other, each when its issuer allows it. */
  ghost predicate GrantRun(s: States, order: seq<Event>, roots: set<Peer>) {
    order != [] ==>
      var front, last := order[..|order| - 1], order[|order| - 1];
      GrantRun(s, front, roots) && IssuerActiveOrGenesis(last.record, ApplyAll(s, front), roots)
  }

  ghost function ApplyAll(s: States, order: seq<Event>): States {
    if order == [] then s else Apply(ApplyAll(s, order[..|order| - 1]), order[|order| - 1])
  }

  /** A run over a pool of grants that stops only when no grant of the pool is left that could be accepted. */
  ghost predicate MaximalRun(s: States, pool: set<Event>, order: seq<Event>, roots: set<Peer>) {
    && Elements(order) <= pool
    && GrantRun(s, order, roots)
    && (forall g :: g in pool && g !in order ==> !IssuerActiveOrGenesis(g.record, ApplyAll(s, order), roots))
  }

  /** Whether a grant can enter into force from state `s`. */
  ghost predicate Admits(s: States, g: Event) {
    g.record.member !in s || s[g.record.member].active
      || g.record.epoch > s[g.record.member].event.record.epoch
  }

  ghost predicate EnabledBy(s: States, accepted: set<Event>, roots: set<Peer>, p: Peer) {
    || (if p in s then s[p].active else p in roots)
    || exists g :: g in accepted && g.record.IsAdmission() && g.record.member == p && Admits(s, g)
  }

  /** Whether a grant's issuer is active, or a root without history, once `accepted` are in force. */
  ghost predicate Ready(s: States, accepted: set<Event>, roots: set<Peer>, r: Record) {
    EnabledBy(s, accepted, roots, r.issuer) && (r.SelfIssued() ==> r.issuer in roots)
  }

  ghost predicate ReadyClosed(s: States, pool: set<Event>, accepted: set<Event>, roots: set<Peer>) {
    forall g :: g in pool && Ready(s, accepted, roots, g.record) ==> g in accepted
  }

  /** Grants without the overlay role withdraw membership. */
  predicate Withdraws(w: Event, p: Peer) {
    w.record.member == p && !w.record.IsAdmission()
  }

  ghost predicate Withdrawn(events: set<Event>, p: Peer) {
    exists w :: w in events && Withdraws(w, p)
  }

  /** No withdrawal is about a member that issues, or is the subject of, another of the grants. */
  ghost predicate Undisturbed(events: set<Event>) {
    forall w, g :: w in events && g in events && !w.record.IsAdmission() && w != g ==>
      g.record.issuer != w.record.member && g.record.member != w.record.member
  }

  ghost predicate AllGrants(events: set<Event>) {
    forall g :: g in events ==> !g.record.revoked
  }

  /** The state of `p` once `accepted` have been applied to `s` in any order. */
  ghost predicate GrantsLeave(s: States, accepted: set<Event>, t: States, p: Peer) {
    if Withdrawn(accepted, p) then WithdrawalLeaves(s, accepted, t, p) else AdmissionsLeave(s, accepted, t, p)
  }

  ghost predicate WithdrawalLeaves(s: States, accepted: set<Event>, t: States, p: Peer) {
    forall w :: w in accepted && Withdraws(w, p) ==>
      && (p in t <==> p in s || Replaces(s, w))
      && (p in t ==> t[p] == if Replaces(s, w) then MemberState(w, false) else s[p])
  }

  /** Without a withdrawal, the member has its highest-ranking record. */
  ghost predicate AdmissionsLeave(s: States, accepted: set<Event>, t: States, p: Peer) {
    if exists g :: g in accepted && g.record.member == p && Admits(s, g)
    then
      && p in t && t[p].active
      && ((t[p].event in accepted && t[p].event.record.member == p && Admits(s, t[p].event))
          || (p in s && s[p].active && t[p].event == s[p].event))
      && (forall g :: g in accepted && g.record.member == p && Admits(s, g) ==> !Outranks(g.record, t[p].event.record))
      && (p in s && s[p].active ==> !Outranks(s[p].event.record, t[p].event.record))
    else
      && (p in t <==> p in s)
      && (p in s ==> t[p] == s[p])
  }

  lemma AdmissionStep(s: States, accepted: set<Event>, t: States, g: Event, p: Peer)
    requires AdmissionsLeave(s, accepted, t, p) && g.record.IsAdmission()
    ensures AdmissionsLeave(s, accepted + {g}, Apply(t, g), p)
  {
    if g.record.member == p {
      if p in t {
        WinsIsPrecedence(g.record, t[p].event.record, t[p].active);
      }
      if Admits(s, g) {
        assert g in accepted + {g};
      }
    }
    if x :| x in accepted && x.record.member == p && Admits(s, x) {
      assert x in accepted + {g};
    }
  }

  /** A withdrawal is the only grant about its member, so it finds the member as it was. */
  lemma WithdrawalStep(s: States, accepted: set<Event>, t: States, w: Event, p: Peer)
    requires Undisturbed(accepted + {w}) && !w.record.revoked && Withdraws(w, p)
    requires GrantsLeave(s, accepted, t, p)
    ensures GrantsLeave(s, accepted + {w}, Apply(t, w), p)
  {
    forall g | g in accepted && g.record.member == p
      ensures g == w
    {
      assert g in accepted + {w} && w in accepted + {w};
    }
    assert w in accepted + {w};
    if p in t {
      WinsIsPrecedence(w.record, t[p].event.record, t[p].active);
    }
  }

  lemma ElsewhereStep(s: States, accepted: set<Event>, t: States, g: Event, p: Peer)
    requires GrantsLeave(s, accepted, t, p) && g.record.member != p
    ensures GrantsLeave(s, accepted + {g}, Apply(t, g), p)
  {
    var u := Apply(t, g);
    assert p in u <==> p in t;
    if w :| w in accepted && Withdraws(w, p) {
      assert w in accepted + {g};
    }
    if x :| x in accepted && x.record.member == p && Admits(s, x) {
      assert x in accepted + {g};
    }
  }

  lemma GrantStep(s: States, accepted: set<Event>, t: States, g: Event, p: Peer)
    requires AllGrants(accepted + {g}) && Undisturbed(accepted + {g})
    requires GrantsLeave(s, accepted, t, p)
    ensures GrantsLeave(s, accepted + {g}, Apply(t, g), p)
  {
    assert g in accepted + {g};
    if g.record.member != p {
      ElsewhereStep(s, accepted, t, g, p);
    } else if !g.record.IsAdmission() {
      WithdrawalStep(s, accepted, t, g, p);
    } else {
      forall w | w in accepted + {g}
        ensures !Withdraws(w, p)
      {
        assert w != g ==> w.record.IsAdmission() || g.record.member != w.record.member;
      }
      assert !Withdrawn(accepted, p);
      AdmissionStep(s, accepted, t, g, p);
    }
  }

  lemma {:induction false} RunLeaves(s: States, order: seq<Event>, p: Peer)
    requires AllGrants(Elements(order)) && Undisturbed(Elements(order))
    ensures GrantsLeave(s, Elements(order), ApplyAll(s, order), p)
  {
    if order != [] {
      var front, last := order[..|order| - 1], order[|order| - 1];
      assert order == front + [last] && last in Elements(order);
      assert Elements(order) == Elements(front) + {last};
      RunLeaves(s, front, p);
      GrantStep(s, Elements(front), ApplyAll(s, front), last, p);
    }
  }

  lemma ReadyIsEnabled(s: States, order: seq<Event>, roots: set<Peer>, r: Record)
    requires AllGrants(Elements(order)) && Undisturbed(Elements(order)) && !Withdrawn(Elements(order), r.issuer)
    ensures IssuerActiveOrGenesis(r, ApplyAll(s, order), roots) <==> Ready(s, Elements(order), roots, r)
  {
    RunLeaves(s, order, r.issuer);
    var accepted := Elements(order);
    assert forall g :: g in accepted && g.record.member == r.issuer ==> g.record.IsAdmission() || Withdraws(g, r.issuer);
  }

  lemma EnabledIsReady(s: States, order: seq<Event>, roots: set<Peer>, g: Event)
    requires AllGrants(Elements(order)) && Undisturbed(Elements(order) + {g})
    requires IssuerActiveOrGenesis(g.record, ApplyAll(s, order), roots)
    ensures Ready(s, Elements(order), roots, g.record)
  {
    var accepted, p := Elements(order), g.record.issuer;
    if w :| w in accepted && Withdraws(w, p) {
      assert w in accepted + {g} && g in accepted + {g};
      RunLeaves(s, order, p);
    } else {
      ReadyIsEnabled(s, order, roots, g.record);
    }
  }

  lemma ReadyGrows(s: States, less: set<Event>, more: set<Event>, roots: set<Peer>, r: Record)
    requires less <= more && Ready(s, less, roots, r)
    ensures Ready(s, more, roots, r)
  {}

  lemma {:induction false} RunIsReady(s: States, order: seq<Event>, roots: set<Peer>, closed: set<Event>)
    requires GrantRun(s, order, roots) && AllGrants(Elements(order)) && Undisturbed(Elements(order))
    requires ReadyClosed(s, Elements(order), closed, roots)
    ensures Elements(order) <= closed
    ensures forall g :: g in order ==> Ready(s, Elements(order), roots, g.record)
  {
    if order != [] {
      var front, last := order[..|order| - 1], order[|order| - 1];
      assert order == front + [last] && last in Elements(order);
      assert Elements(order) == Elements(front) + {last};
      RunIsReady(s, front, roots, closed);
      EnabledIsReady(s, front, roots, last);
      ReadyGrows(s, Elements(front), closed, roots, last.record);
      forall g | g in order
        ensures Ready(s, Elements(order), roots, g.record)
      {
        ReadyGrows(s, Elements(front), Elements(order), roots, g.record);
      }
    }
  }

  /**
   The grants accepted by any maximal run are the least fixpoint of "the issuer is active or a root".
   */
  lemma AcceptedIsLeastFixpoint(s: States, pool: set<Event>, order: seq<Event>, roots: set<Peer>)
    requires AllGrants(pool) && Undisturbed(pool) && MaximalRun(s, pool, order, roots)
    ensures forall g :: g in pool ==> (g in order <==> Ready(s, Elements(order), roots, g.record))
    ensures forall closed :: ReadyClosed(s, pool, closed, roots) ==> Elements(order) <= closed
  {
    forall g | g in pool && g !in order
      ensures !Ready(s, Elements(order), roots, g.record)
    {
      assert !Withdrawn(Elements(order), g.record.issuer);
      ReadyIsEnabled(s, order, roots, g.record);
    }
    RunIsReady(s, order, roots, Elements(order));
    forall closed | ReadyClosed(s, pool, closed, roots)
      ensures Elements(order) <= closed
    {
      RunIsReady(s, order, roots, closed);
    }
  }

  lemma LeavesAlike(s: States, accepted: set<Event>, t: States, u: States, p: Peer)
    requires StatesAbout(s) && UniqueSlots(accepted + Stored(s))
    requires GrantsLeave(s, accepted, t, p) && GrantsLeave(s, accepted, u, p)
    ensures p in t <==> p in u
    ensures p in t ==> t[p].active == u[p].active && t[p].event.record == u[p].event.record
  {
    if g :| g in accepted && g.record.member == p && Admits(s, g) {
      var a, b := t[p].event, u[p].event;
      assert a in accepted + Stored(s) && b in accepted + Stored(s);
      assert !Outranks(a.record, b.record) && !Outranks(b.record, a.record);
      assert SameSlot(a.record, b.record);
    }
  }

  lemma SameGrantsSameStates(s: States, order: seq<Event>, other: seq<Event>)
    requires AllGrants(Elements(order)) && Undisturbed(Elements(order)) && Elements(order) == Elements(other)
    requires StatesAbout(s) && UniqueSlots(Elements(order) + Stored(s))
    ensures SameStates(ApplyAll(s, order), ApplyAll(s, other))
  {
    var t, u := ApplyAll(s, order), ApplyAll(s, other);
    forall p
      ensures p in t <==> p in u
      ensures p in t ==> t[p].active == u[p].active && t[p].event.record == u[p].event.record
    {
      RunLeaves(s, order, p);
      RunLeaves(s, other, p);
      LeavesAlike(s, Elements(order), t, u, p);
    }
  }

  /** Any two maximal runs accept the same grants and leave the same members active with the same records. */
  lemma GrantsAreConfluent(s: States, pool: set<Event>, order: seq<Event>, other: seq<Event>, roots: set<Peer>)
    requires AllGrants(pool) && Undisturbed(pool) && StatesAbout(s) && UniqueSlots(pool + Stored(s))
    requires MaximalRun(s, pool, order, roots) && MaximalRun(s, pool, other, roots)
    ensures Elements(order) == Elements(other)
    ensures SameStates(ApplyAll(s, order), ApplyAll(s, other))
  {
    AcceptedIsLeastFixpoint(s, pool, order, roots);
    AcceptedIsLeastFixpoint(s, pool, other, roots);
    assert ReadyClosed(s, pool, Elements(order), roots) && ReadyClosed(s, pool, Elements(other), roots);
    SameGrantsSameStates(s, order, other);
  }

  // The multi-pass scan is a maximal run

  lemma {:induction false} RunsConcat(s: States, a: seq<Event>, b: seq<Event>, roots: set<Peer>)
    requires GrantRun(s, a, roots) && GrantRun(ApplyAll(s, a), b, roots)
    ensures GrantRun(s, a + b, roots) && ApplyAll(s, a + b) == ApplyAll(ApplyAll(s, a), b)
  {
    if b == [] {
      assert a + b == a;
    } else {
      var front := b[..|b| - 1];
      assert (a + b)[..|a + b| - 1] == a + front;
      RunsConcat(s, a, front, roots);
    }
  }

  /** Accepting `order` out of `pending` leads from `e` to `after` and leaves `rest` pending. */
  ghost predicate Admitting(e: Evaluation, pending: seq<Event>, order: seq<Event>, after: Evaluation, rest: seq<Event>,
                            roots: set<Peer>) {
    && GrantRun(e.states, order, roots)
    && after.states == ApplyAll(e.states, order)
    && Conservation.EventsOf(after.accepted) == Conservation.EventsOf(e.accepted) + order
    && multiset(order) + multiset(rest) == multiset(pending)
  }

  lemma AdmittingConcat(e: Evaluation, pending: seq<Event>, a: seq<Event>, mid: Evaluation, left: seq<Event>,
                        b: seq<Event>, after: Evaluation, rest: seq<Event>, roots: set<Peer>)
    requires Admitting(e, pending, a, mid, left, roots) && Admitting(mid, left, b, after, rest, roots)
    ensures Admitting(e, pending, a + b, after, rest, roots)
  {
    RunsConcat(e.states, a, b, roots);
  }

  lemma AdmittingOne(e: Evaluation, pending: seq<Event>, roots: set<Peer>)
    requires pending != [] && IssuerActiveOrGenesis(pending[0].record, e.states, roots)
    ensures Admitting(e, pending, [pending[0]], AcceptGrant(e, pending[0]), pending[1..], roots)
  {
    var g := pending[0];
    assert pending == [g] + pending[1..];
    assert [g][..0] == [] && ApplyAll(e.states, [g]) == Apply(e.states, g);
  }

  lemma {:induction false} ScanRuns(e: Evaluation, pending: seq<Event>, roots: set<Peer>) returns (order: seq<Event>)
    ensures var (after, rest) := Scan(e, pending, roots);
      Admitting(e, pending, order, after, rest, roots)
    decreases |pending|
  {
    order := [];
    if pending != [] {
      var g := pending[0];
      var (after, rest) := Scan(e, pending, roots);
      if IssuerActiveOrGenesis(g.record, e.states, roots) {
        var later := ScanRuns(AcceptGrant(e, g), pending[1..], roots);
        AdmittingOne(e, pending, roots);
        AdmittingConcat(e, pending, [g], AcceptGrant(e, g), pending[1..], later, after, rest, roots);
        order := [g] + later;
      } else {
        order := ScanRuns(e, pending[1..], roots);
        assert pending == [g] + pending[1..];
      }
    }
  }

  lemma {:induction false} IdleScan(e: Evaluation, pending: seq<Event>, roots: set<Peer>)
    ensures |Scan(e, pending, roots).1| <= |pending|
    ensures |Scan(e, pending, roots).1| == |pending| ==>
      && Scan(e, pending, roots) == (e, pending)
      && forall g :: g in pending ==> !IssuerActiveOrGenesis(g.record, e.states, roots)
    decreases |pending|
  {
    if pending != [] {
      var g := pending[0];
      IdleScan(if IssuerActiveOrGenesis(g.record, e.states, roots) then AcceptGrant(e, g) else e, pending[1..], roots);
      assert pending == [g] + pending[1..];
    }
  }

  lemma {:induction false} GrantPhaseRuns(e: Evaluation, pending: seq<Event>, roots: set<Peer>) returns (order: seq<Event>)
    ensures var (after, rest) := GrantPhase(e, pending, roots);
      && Admitting(e, pending, order, after, rest, roots)
      && forall g :: g in rest ==> !IssuerActiveOrGenesis(g.record, after.states, roots)
    decreases |pending|
  {
    order := [];
    if pending != [] {
      var first := ScanRuns(e, pending, roots);
      var (mid, left) := Scan(e, pending, roots);
      IdleScan(e, pending, roots);
      if |left| < |pending| {
        var later := GrantPhaseRuns(mid, left, roots);
        var (after, rest) := GrantPhase(mid, left, roots);
        AdmittingConcat(e, pending, first, mid, left, later, after, rest, roots);
        order := first + later;
      }
    }
  }

  lemma GrantPhaseIsMaximal(e: Evaluation, pending: seq<Event>, roots: set<Peer>) returns (order: seq<Event>)
    ensures MaximalRun(e.states, Elements(pending), order, roots)
    ensures GrantPhase(e, pending, roots).0.states == ApplyAll(e.states, order)
    ensures Conservation.EventsOf(GrantPhase(e, pending, roots).0.accepted) == Conservation.EventsOf(e.accepted) + order
  {
    order := GrantPhaseRuns(e, pending, roots);
    var rest := GrantPhase(e, pending, roots).1;
    forall g
      ensures g in pending <==> g in order || g in rest
    {
      assert multiset(pending)[g] == multiset(order)[g] + multiset(rest)[g];
    }
  }

  /**
   The grant phase of one second does not depend on the order in which its grants are scanned, provided
   their versions are unique and no grant withdraws the overlay role of a member that issues, or is the subject
   of, another of them.
   */
  lemma ScanOrderIrrelevant(e: Evaluation, pending: seq<Event>, shuffled: seq<Event>, roots: set<Peer>)
    requires multiset(pending) == multiset(shuffled)
    requires AllGrants(Elements(pending)) && Undisturbed(Elements(pending)) && StatesAbout(e.states)
    requires UniqueSlots(Elements(pending) + Stored(e.states))
    ensures var a, b := GrantPhase(e, pending, roots).0, GrantPhase(e, shuffled, roots).0;
      && SameStates(a.states, b.states)
      && Elements(Conservation.EventsOf(a.accepted)) == Elements(Conservation.EventsOf(b.accepted))
  {
    var order := GrantPhaseIsMaximal(e, pending, roots);
    var other := GrantPhaseIsMaximal(e, shuffled, roots);
    SameElements(pending, shuffled);
    assert Elements(pending) == Elements(shuffled);
    GrantsAreConfluent(e.states, Elements(pending), order, other, roots);
    var log := Conservation.EventsOf(e.accepted);
    assert Elements(log + order) == Elements(log) + Elements(order);
    assert Elements(log + other) == Elements(log) + Elements(other);
  }

  lemma TwoGrants(e: Evaluation, a: Event, b: Event, roots: set<Peer>)
    requires IssuerActiveOrGenesis(a.record, e.states, roots)
    ensures var e' := AcceptGrant(e, a);
      GrantPhase(e, [a, b], roots).0 ==
      if IssuerActiveOrGenesis(b.record, e'.states, roots) then AcceptGrant(e', b) else e'
  {
    var e' := AcceptGrant(e, a);
    assert [a, b][1..] == [b] && [b][1..] == [] && [b] + [] == [b];
    if IssuerActiveOrGenesis(b.record, e'.states, roots) {
      assert Scan(e', [b], roots) == (AcceptGrant(e', b), []);
    } else {
      assert Scan(e', [b], roots) == (e', [b]);
      assert GrantPhase(e', [b], roots).0 == e';
    }
  }

  const DELEGATE := Event(0, Record(1, "lab", 2, 1, 1, 1, false, None, [OverlayMember], [], 10, None, 0))
  const WITHDRAWAL := Event(1, DELEGATE.record.(sequence := 2, roles := [RouteAuthority], issuedAt := 20))
  const DELEGATION := Event(2, DELEGATE.record.(issuer := 2, member := 3, issuedAt := 20))

  lemma WithdrawalFirst(e: Evaluation, w: Event, g: Event, roots: set<Peer>)
    requires !w.record.IsAdmission() && g.record.issuer == w.record.member && Replaces(e.states, w)
    requires IssuerActiveOrGenesis(w.record, e.states, roots) && IssuerActiveOrGenesis(g.record, e.states, roots)
    ensures |GrantPhase(e, [w, g], roots).0.accepted| == |e.accepted| + 1
  {
    TwoGrants(e, w, g, roots);
  }

  lemma GrantFirst(e: Evaluation, w: Event, g: Event, roots: set<Peer>)
    requires g.record.member != w.record.issuer
    requires IssuerActiveOrGenesis(w.record, e.states, roots) && IssuerActiveOrGenesis(g.record, e.states, roots)
    ensures |GrantPhase(e, [g, w], roots).0.accepted| == |e.accepted| + 2
  {
    TwoGrants(e, g, w, roots);
  }

  /**
   Without the overlay role the order matters: when one grant withdraws the delegate's overlay role and
   another is issued by the delegate in the same second, the delegate's grant is accepted only if it is
   scanned first.
   */
  lemma RoleWithdrawalBreaksConfluence(e: Evaluation)
    requires e == ReplayFrom(EMPTY, [DELEGATE], {1})
    ensures StatesAbout(e.states) && UniqueSlots({DELEGATION, WITHDRAWAL} + Stored(e.states))
    ensures |GrantPhase(e, [DELEGATION, WITHDRAWAL], {1}).0.accepted| == 3
    ensures |GrantPhase(e, [WITHDRAWAL, DELEGATION], {1}).0.accepted| == 2
  {
    AfterDelegate(DELEGATE, {1});
    WithdrawalAndDelegation(e);
  }

  lemma WithdrawalAndDelegation(e: Evaluation)
    requires e.states == map[2 := MemberState(DELEGATE, true)]
    ensures StatesAbout(e.states) && UniqueSlots({DELEGATION, WITHDRAWAL} + Stored(e.states))
    ensures |GrantPhase(e, [DELEGATION, WITHDRAWAL], {1}).0.accepted| == |e.accepted| + 2
    ensures |GrantPhase(e, [WITHDRAWAL, DELEGATION], {1}).0.accepted| == |e.accepted| + 1
  {
    GrantFirst(e, WITHDRAWAL, DELEGATION, {1});
    WithdrawalFirst(e, WITHDRAWAL, DELEGATION, {1});
    assert Stored(e.states) == {DELEGATE};
  }

  lemma AfterDelegate(ev: Event, roots: set<Peer>)
    requires ev.record.IsAdmission() && ev.record.issuer in roots
    ensures var e := ReplayFrom(EMPTY, [ev], roots);
      e.states == map[ev.record.member := MemberState(ev, true)] && |e.accepted| == 1
  {
    var now := ev.record.issuedAt;
    assert [ev][1..] == [] && [ev][..1] == [ev] && Grants([ev]) == [ev] + [] == [ev];
    assert SecondLength([], now) == 0 && SecondLength([ev], now) == 1;
    assert Expire(map[], now) == map[];
    assert Scan(EMPTY, [ev], roots) == (AcceptGrant(EMPTY, ev), []);
    assert GrantPhase(EMPTY, [ev], roots).0 == AcceptGrant(EMPTY, ev);
    assert AuthorizedRevocations([ev], AcceptGrant(EMPTY, ev).states, roots) == [];
  }

  // Revocations

  /** The state of `p` after a batch of revocations in any order: unchanged, or its highest-ranking revocation. */
  ghost predicate RevocationsLeave(s: States, batch: set<Event>, t: States, p: Peer) {
    if exists r :: r in batch && r.record.member == p && (p in s ==> Outranks(r.record, s[p].event.record))
    then
      && p in t && !t[p].active
      && t[p].event in batch && t[p].event.record.member == p
      && (p in s ==> Outranks(t[p].event.record, s[p].event.record))
      && (forall r :: r in batch && r.record.member == p ==> !Outranks(r.record, t[p].event.record))
    else
      && (p in t <==> p in s)
      && (p in s ==> t[p] == s[p])
  }

  lemma RevocationHere(s: States, batch: set<Event>, t: States, r: Event, p: Peer)
    requires RevocationsLeave(s, batch, t, p) && r.record.revoked && r.record.member == p
    ensures RevocationsLeave(s, batch + {r}, Apply(t, r), p)
  {
    var u := Apply(t, r);
    assert r in batch + {r};
    if p in t {
      WinsIsPrecedence(r.record, t[p].event.record, t[p].active);
      forall x | x in batch && x.record.member == p
        ensures !Outranks(x.record, u[p].event.record) || (p in s && !Outranks(x.record, s[p].event.record))
      {
        OutranksIsStrictOrder(x.record, u[p].event.record, t[p].event.record);
      }
    }
    RevokesMore(s, batch, r, p);
  }

  lemma RevokesMore(s: States, batch: set<Event>, r: Event, p: Peer)
    ensures (exists x :: x in batch && x.record.member == p && (p in s ==> Outranks(x.record, s[p].event.record))) ==>
      exists x :: x in batch + {r} && x.record.member == p && (p in s ==> Outranks(x.record, s[p].event.record))
  {
    if x :| x in batch && x.record.member == p && (p in s ==> Outranks(x.record, s[p].event.record)) {
      assert x in batch + {r};
    }
  }

  lemma RevocationStep(s: States, batch: set<Event>, t: States, r: Event, p: Peer)
    requires RevocationsLeave(s, batch, t, p) && r.record.revoked
    ensures RevocationsLeave(s, batch + {r}, Apply(t, r), p)
  {
    if r.record.member == p {
      RevocationHere(s, batch, t, r, p);
    } else {
      RevokesMore(s, batch, r, p);
      assert p in Apply(t, r) <==> p in t;
    }
  }

  lemma {:induction false} BatchLeaves(s: States, order: seq<Event>, p: Peer)
    requires forall r :: r in order ==> r.record.revoked
    ensures RevocationsLeave(s, Elements(order), ApplyAll(s, order), p)
  {
    if order != [] {
      var front, last := order[..|order| - 1], order[|order| - 1];
      assert order == front + [last] && last in order;
      assert Elements(order) == Elements(front) + {last};
      BatchLeaves(s, front, p);
      RevocationStep(s, Elements(front), ApplyAll(s, front), last, p);
    }
  }

  lemma {:induction false} ApplyAllFront(s: States, order: seq<Event>)
    requires order != []
    ensures ApplyAll(s, order) == ApplyAll(Apply(s, order[0]), order[1..])
  {
    if |order| > 1 {
      var front := order[..|order| - 1];
      ApplyAllFront(s, front);
      assert order[1..][..|order| - 2] == front[1..];
    } else {
      assert order[..0] == [] && order[1..] == [];
    }
  }

  lemma {:induction false} RevocationPhaseApplies(e: Evaluation, revocations: seq<Event>)
    ensures RevocationPhase(e, revocations).states == ApplyAll(e.states, revocations)
    decreases |revocations|
  {
    if revocations != [] {
      ApplyAllFront(e.states, revocations);
      RevocationPhaseApplies(AcceptRevocation(e, revocations[0]), revocations[1..]);
    }
  }

  lemma RevokedAlike(s: States, batch: set<Event>, t: States, u: States, p: Peer)
    requires UniqueSlots(batch)
    requires RevocationsLeave(s, batch, t, p) && RevocationsLeave(s, batch, u, p)
    ensures p in t <==> p in u
    ensures p in t ==> t[p].active == u[p].active && t[p].event.record == u[p].event.record
  {
    if r :| r in batch && r.record.member == p && (p in s ==> Outranks(r.record, s[p].event.record)) {
      assert SameSlot(t[p].event.record, u[p].event.record);
    }
  }

  lemma SameRevocationsSameStates(s: States, order: seq<Event>, other: seq<Event>)
    requires Elements(order) == Elements(other) && UniqueSlots(Elements(order))
    requires forall r :: r in Elements(order) ==> r.record.revoked
    ensures SameStates(ApplyAll(s, order), ApplyAll(s, other))
  {
    var t, u := ApplyAll(s, order), ApplyAll(s, other);
    assert forall r :: r in other ==> r in Elements(other);
    forall p
      ensures p in t <==> p in u
      ensures p in t ==> t[p].active == u[p].active && t[p].event.record == u[p].event.record
    {
      BatchLeaves(s, order, p);
      BatchLeaves(s, other, p);
      RevokedAlike(s, Elements(order), t, u, p);
    }
  }

  /** The revocations of one second act as if simultaneous: their order does not matter. */
  lemma RevocationsAreConfluent(e: Evaluation, order: seq<Event>, other: seq<Event>)
    requires multiset(order) == multiset(other)
    requires forall r :: r in order ==> r.record.revoked
    requires UniqueSlots(Elements(order))
    ensures SameStates(RevocationPhase(e, order).states, RevocationPhase(e, other).states)
    ensures Conservation.Bag(RevocationPhase(e, order)) == Conservation.Bag(RevocationPhase(e, other))
  {
    Conservation.RevocationPhaseConserves(e, order);
    Conservation.RevocationPhaseConserves(e, other);
    RevocationPhaseApplies(e, order);
    RevocationPhaseApplies(e, other);
    SameElements(order, other);
    SameRevocationsSameStates(e.states, order, other);
  }

  lemma {:induction false} AuthorizedIn(group: seq<Event>, states: States, roots: set<Peer>, r: Event)
    ensures r in AuthorizedRevocations(group, states, roots)
      <==> r in group && r.record.revoked && IssuerActive(r.record, states, roots)
  {
    if group != [] {
      assert group == [group[0]] + group[1..];
      AuthorizedIn(group[1..], states, roots, r);
    }
  }

  /**
   A second's revocations are authorized by the state before any of them: an active peer's revocation
   takes effect even when another revocation of that second removes the peer.
   */
  lemma RevocationIsSimultaneous(e: Evaluation, now: nat, group: seq<Event>, roots: set<Peer>, r: Event)
    requires r in group && r.record.revoked
    requires var s := GrantPhase(e.(states := Expire(e.states, now)), Grants(group), roots).0.states;
      && IssuerActive(r.record, s, roots)
      && (r.record.member in s ==> Outranks(r.record, s[r.record.member].event.record))
    ensures var t := ReplaySecond(e, now, group, roots).states;
      r.record.member in t && !t[r.record.member].active
  {
    var admitted := GrantPhase(e.(states := Expire(e.states, now)), Grants(group), roots).0;
    var batch := AuthorizedRevocations(group, admitted.states, roots);
    forall x
      ensures x in batch <==> x in group && x.record.revoked && IssuerActive(x.record, admitted.states, roots)
    {
      AuthorizedIn(group, admitted.states, roots, x);
    }
    RevocationPhaseApplies(admitted, batch);
    BatchLeaves(admitted.states, batch, r.record.member);
    assert r in Elements(batch);
  }

  /** Two active members who revoke each other in one second both end inactive. */
  lemma MutualRevocation(e: Evaluation, now: nat, group: seq<Event>, roots: set<Peer>, ra: Event, rb: Event)
    requires ra in group && rb in group && ra.record.revoked && rb.record.revoked
    requires ra.record.issuer == rb.record.member && rb.record.issuer == ra.record.member
    requires var s := GrantPhase(e.(states := Expire(e.states, now)), Grants(group), roots).0.states;
      && ra.record.issuer in s && s[ra.record.issuer].active && Outranks(rb.record, s[ra.record.issuer].event.record)
      && rb.record.issuer in s && s[rb.record.issuer].active && Outranks(ra.record, s[rb.record.issuer].event.record)
    ensures var t := ReplaySecond(e, now, group, roots).states;
      && ra.record.issuer in t && !t[ra.record.issuer].active
      && rb.record.issuer in t && !t[rb.record.issuer].active
  {
    RevocationIsSimultaneous(e, now, group, roots, ra);
    RevocationIsSimultaneous(e, now, group, roots, rb);
  }
}
