/**
 Exactly when two grants of one second commute. Grants without the overlay role withdraw membership, and a
 withdrawal that takes effect can shut out another grant of its second; these are the only cases in which
 the order of two grants shows.
 */
module Commutation {
  import opened Records
  import opened Ledger
  import opened Replay
  import opened Confluence
  import opened Sorting
  import Conservation

  /** Whether the first of two grants for one member keeps the second out by being a withdrawal of its epoch. */
  predicate Locks(s: States, w: Event, g: Event) {
    && !w.record.IsAdmission() && Replaces(s, w) && Replaces(s, g)
    && g.record.epoch == w.record.epoch && Outranks(g.record, w.record)
  }

  /**
   A withdrawal that takes effect shuts out another accepted grant: one issued by the member it withdraws,
   or one for that member whose version is larger without a larger epoch.
   */
  predicate ShutsOut(s: States, w: Event, g: Event, roots: set<Peer>) {
    && IssuerActiveOrGenesis(w.record, s, roots) && IssuerActiveOrGenesis(g.record, s, roots)
    && !w.record.IsAdmission() && Replaces(s, w)
    && (|| g.record.issuer == w.record.member
        || (g.record.member == w.record.member && Locks(s, w, g)))
  }

  ghost function AcceptedIn(e: Evaluation): set<Event> {
    Elements(Conservation.EventsOf(e.accepted))
  }

  ghost predicate SameOutcome(e: Evaluation, f: Evaluation) {
    AcceptedIn(e) == AcceptedIn(f) && SameStates(e.states, f.states)
  }

  lemma AcceptedGrows(e: Evaluation, g: Event)
    ensures AcceptedIn(AcceptGrant(e, g)) == AcceptedIn(e) + {g}
    ensures AcceptGrant(e, g).states == Apply(e.states, g)
  {
    var log := Conservation.EventsOf(AcceptGrant(e, g).accepted);
    assert log == Conservation.EventsOf(e.accepted) + [g];
  }

  /** Two passes over two grants of which the first is not yet allowed. */
  lemma FirstWaits(e: Evaluation, a: Event, b: Event, roots: set<Peer>)
    requires !IssuerActiveOrGenesis(a.record, e.states, roots)
    ensures GrantPhase(e, [a, b], roots).0 ==
      if IssuerActiveOrGenesis(b.record, e.states, roots) then
        var e' := AcceptGrant(e, b);
        if IssuerActiveOrGenesis(a.record, e'.states, roots) then AcceptGrant(e', a) else e'
      else e
  {
    assert [a, b][1..] == [b] && [b][1..] == [] && [a][1..] == [];
    assert [a] + [] == [a] && [b] + [] == [b] && [a] + [b] == [a, b];
    if IssuerActiveOrGenesis(b.record, e.states, roots) {
      var e' := AcceptGrant(e, b);
      assert Scan(e, [b], roots) == (e', []);
      assert Scan(e, [a, b], roots) == (e', [a]);
      if IssuerActiveOrGenesis(a.record, e'.states, roots) {
        assert Scan(e', [a], roots) == (AcceptGrant(e', a), []);
        assert GrantPhase(e', [a], roots).0 == AcceptGrant(e', a);
      } else {
        assert Scan(e', [a], roots) == (e', [a]);
        assert GrantPhase(e', [a], roots).0 == e';
      }
    } else {
      assert Scan(e, [b], roots) == (e, [b]);
      assert Scan(e, [a, b], roots) == (e, [a, b]);
    }
  }

  /** Unless it is a withdrawal of the other's issuer, an accepted grant leaves the other one allowed. */
  lemma StillAllowed(s: States, a: Event, b: Event, roots: set<Peer>)
    requires IssuerActiveOrGenesis(a.record, s, roots) && IssuerActiveOrGenesis(b.record, s, roots)
    requires a.record.IsAdmission() || !Replaces(s, a) || b.record.issuer != a.record.member
    ensures IssuerActiveOrGenesis(b.record, Apply(s, a), roots)
  {}

  /** The higher-ranking of two grants for one member that replace its record survives in both orders. */
  lemma HigherSurvives(s: States, low: Event, high: Event)
    requires !low.record.revoked && !high.record.revoked && low.record.member == high.record.member
    requires Replaces(s, low) && Replaces(s, high) && !Locks(s, low, high)
    requires Outranks(high.record, low.record)
    ensures var last := s[high.record.member := MemberState(high, high.record.IsAdmission())];
      Apply(Apply(s, low), high) == last && Apply(Apply(s, high), low) == last
  {
    OutranksIsStrictOrder(low.record, high.record, low.record);
  }

  /** A grant that does not replace a member's record does not replace one that does. */
  lemma LoserStaysOut(s: States, loser: Event, winner: Event)
    requires !loser.record.revoked && !winner.record.revoked && loser.record.member == winner.record.member
    requires !Replaces(s, loser) && Replaces(s, winner)
    ensures !Replaces(Apply(s, winner), loser)
  {
    var current := s[loser.record.member].event.record;
    OutranksIsStrictOrder(winner.record, current, loser.record);
  }

  lemma SameMemberCommutes(s: States, a: Event, b: Event)
    requires !a.record.revoked && !b.record.revoked && a.record.member == b.record.member
    requires SameSlot(a.record, b.record) ==> a.record == b.record
    requires !Locks(s, a, b) && !Locks(s, b, a)
    ensures SameStates(Apply(Apply(s, a), b), Apply(Apply(s, b), a))
  {
    if !Replaces(s, a) {
      if Replaces(s, b) {
        LoserStaysOut(s, a, b);
      }
    } else if !Replaces(s, b) {
      LoserStaysOut(s, b, a);
    } else if Outranks(a.record, b.record) {
      HigherSurvives(s, b, a);
    } else if Outranks(b.record, a.record) {
      HigherSurvives(s, a, b);
    } else {
      assert SameSlot(a.record, b.record);
    }
  }

  lemma AppliesAlike(s: States, a: Event, b: Event)
    requires !a.record.revoked && !b.record.revoked
    requires SameSlot(a.record, b.record) ==> a.record == b.record
    requires a.record.member == b.record.member ==> !Locks(s, a, b) && !Locks(s, b, a)
    ensures SameStates(Apply(Apply(s, a), b), Apply(Apply(s, b), a))
  {
    if a.record.member == b.record.member {
      SameMemberCommutes(s, a, b);
    } else {
      assert Apply(Apply(s, a), b) == Apply(Apply(s, b), a);
    }
  }

  lemma BothAllowed(e: Evaluation, a: Event, b: Event, roots: set<Peer>)
    requires !a.record.revoked && !b.record.revoked
    requires UniqueSlots({a, b})
    requires IssuerActiveOrGenesis(a.record, e.states, roots) && IssuerActiveOrGenesis(b.record, e.states, roots)
    requires !ShutsOut(e.states, a, b, roots) && !ShutsOut(e.states, b, a, roots)
    ensures SameOutcome(GrantPhase(e, [a, b], roots).0, GrantPhase(e, [b, a], roots).0)
  {
    StillAllowed(e.states, a, b, roots);
    StillAllowed(e.states, b, a, roots);
    TwoGrants(e, a, b, roots);
    TwoGrants(e, b, a, roots);
    AcceptedGrows(e, a);
    AcceptedGrows(e, b);
    AcceptedGrows(AcceptGrant(e, a), b);
    AcceptedGrows(AcceptGrant(e, b), a);
    assert a in {a, b} && b in {a, b};
    AppliesAlike(e.states, a, b);
  }

  lemma ShutOutShows(e: Evaluation, w: Event, g: Event, roots: set<Peer>)
    requires w != g && w !in AcceptedIn(e) && g !in AcceptedIn(e)
    requires !w.record.revoked && !g.record.revoked
    requires ShutsOut(e.states, w, g, roots)
    ensures !SameOutcome(GrantPhase(e, [w, g], roots).0, GrantPhase(e, [g, w], roots).0)
  {
    TwoGrants(e, w, g, roots);
    TwoGrants(e, g, w, roots);
    AcceptedGrows(e, w);
    AcceptedGrows(e, g);
    AcceptedGrows(AcceptGrant(e, w), g);
    AcceptedGrows(AcceptGrant(e, g), w);
    var s, p := e.states, w.record.member;
    if g.record.issuer != p {
      assert IssuerActiveOrGenesis(g.record, Apply(s, w), roots);
      assert Apply(Apply(s, w), g)[p].event == w;
      assert Apply(Apply(s, g), w)[p].event == g;
    }
  }

  /**
   Two grants of one second may be scanned in either order, with the same grants accepted and the same record
   and active flag for every member, exactly when neither shuts the other out.
   */
  lemma GrantsCommuteExactly(e: Evaluation, a: Event, b: Event, roots: set<Peer>)
    requires a != b && a !in AcceptedIn(e) && b !in AcceptedIn(e)
    requires !a.record.revoked && !b.record.revoked
    requires UniqueSlots({a, b})
    ensures SameOutcome(GrantPhase(e, [a, b], roots).0, GrantPhase(e, [b, a], roots).0)
      <==> !ShutsOut(e.states, a, b, roots) && !ShutsOut(e.states, b, a, roots)
  {
    if ShutsOut(e.states, a, b, roots) {
      ShutOutShows(e, a, b, roots);
    } else if ShutsOut(e.states, b, a, roots) {
      ShutOutShows(e, b, a, roots);
    } else if IssuerActiveOrGenesis(a.record, e.states, roots) && IssuerActiveOrGenesis(b.record, e.states, roots) {
      BothAllowed(e, a, b, roots);
    } else if IssuerActiveOrGenesis(a.record, e.states, roots) {
      TwoGrants(e, a, b, roots);
      FirstWaits(e, b, a, roots);
    } else {
      FirstWaits(e, a, b, roots);
      if IssuerActiveOrGenesis(b.record, e.states, roots) {
        TwoGrants(e, b, a, roots);
      } else {
        FirstWaits(e, b, a, roots);
      }
    }
  }
}
