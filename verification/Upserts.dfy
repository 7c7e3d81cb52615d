/** When storing a candidate changes the selected path without a report. */
module Upserts {
  import opened Prelude
  import opened Records
  import opened Paths
  import opened PathViews
  import opened Selection

  /** Whether a candidate of its peer at place `i` would be selected against the other candidates. */
  ghost predicate Leads(cs: seq<Candidate>, i: nat, c: Candidate) {
    && c.healthy
    && (forall j :: 0 <= j < |cs| && j != i && Eligible(cs[j], c.peer, EVERYTHING) ==>
          cs[j].Score() < c.Score() || (cs[j].Score() == c.Score() && j < i))
  }

  lemma SelectedLeads(cs: seq<Candidate>, peer: Peer) returns (k: nat)
    requires Best(cs, peer).Some?
    ensures k < |cs| && Best(cs, peer) == Some(cs[k]) && cs[k].peer == peer && Leads(cs, k, cs[k])
  {
    BestIsMaximum(cs, peer, EVERYTHING);
    var c := Best(cs, peer).value;
    k :| 0 <= k < |cs| && cs[k] == c && Eligible(c, peer, EVERYTHING)
      && forall j :: 0 <= j < |cs| && Eligible(cs[j], peer, EVERYTHING) ==>
           cs[j].Score() <= c.Score() && (j > k ==> cs[j].Score() < c.Score());
  }

  lemma LeaderIsSelected(cs: seq<Candidate>, i: nat)
    requires i < |cs| && Leads(cs, i, cs[i])
    ensures Best(cs, cs[i].peer) == Some(cs[i])
  {
    BestIsMaximum(cs, cs[i].peer, EVERYTHING);
    var k := SelectedLeads(cs, cs[i].peer);
  }

  lemma LedByAnother(cs: seq<Candidate>, i: nat, peer: Peer)
    requires i < |cs| && cs[i].peer == peer && !Leads(cs, i, cs[i])
    ensures Best(cs, peer).None? ==> !cs[i].healthy
    ensures Best(cs, peer).Some? ==>
      exists k :: 0 <= k < |cs| && k != i && cs[k].peer == peer && Best(cs, peer) == Some(cs[k]) && Leads(cs, k, cs[k])
  {
    BestIsMaximum(cs, peer, EVERYTHING);
    if Best(cs, peer).Some? {
      var k := SelectedLeads(cs, peer);
    }
  }

  /** The place of a candidate that would not be selected may hold any other such candidate. */
  lemma FollowersAreInterchangeable(cs: seq<Candidate>, i: nat, c: Candidate)
    requires i < |cs| && cs[i].peer == c.peer && !Leads(cs, i, cs[i]) && !Leads(cs, i, c)
    ensures Best(cs[i := c], c.peer) == Best(cs, c.peer)
  {
    var ds := cs[i := c];
    BestIsMaximum(ds, c.peer, EVERYTHING);
    LedByAnother(cs, i, c.peer);
    assert forall j :: 0 <= j < |cs| && j != i ==> ds[j] == cs[j];
    assert !Leads(ds, i, c);
    if Best(cs, c.peer).Some? {
      var k :| 0 <= k < |cs| && k != i && cs[k].peer == c.peer && Best(cs, c.peer) == Some(cs[k]) && Leads(cs, k, cs[k]);
      if c.healthy {
        var j :| 0 <= j < |cs| && j != i && Eligible(cs[j], c.peer, EVERYTHING)
          && !(cs[j].Score() < c.Score() || (cs[j].Score() == c.Score() && j < i));
        assert j == k || cs[j].Score() < cs[k].Score() || (cs[j].Score() == cs[k].Score() && j < k);
      }
      assert Leads(ds, k, ds[k]);
      LeaderIsSelected(ds, k);
    } else {
      BestIsMaximum(cs, c.peer, EVERYTHING);
    }
  }

  lemma AppendedFollower(cs: seq<Candidate>, c: Candidate)
    ensures Leads(cs, |cs|, c) ==> Best(cs + [c], c.peer) == Some(c)
    ensures !Leads(cs, |cs|, c) ==> Best(cs + [c], c.peer) == Best(cs, c.peer)
  {
    var ds := cs + [c];
    assert ds[..|cs|] == cs && ds[|cs|] == c;
    BestIsMaximum(cs, c.peer, EVERYTHING);
    if Leads(cs, |cs|, c) {
      assert Leads(ds, |cs|, c);
      LeaderIsSelected(ds, |cs|);
    } else if c.healthy {
      var j :| 0 <= j < |cs| && Eligible(cs[j], c.peer, EVERYTHING) && cs[j].Score() > c.Score();
      assert Best(cs, c.peer).Some? && Best(cs, c.peer).value.Score() >= cs[j].Score();
    }
  }

  lemma DifferentPathDifferentIdentity(a: Candidate, b: Candidate)
    requires a.peer == b.peer && !PathOf(a).Same(PathOf(b))
    ensures IdentityOf(Some(a)) != IdentityOf(Some(b))
  {}

  /** Replacing the candidate of a path changes the selected path exactly when it changes whether the path leads. */
  lemma ReplacedCandidate(cs: seq<Candidate>, i: nat, c: Candidate)
    requires UniqueCandidates(cs) && i < |cs| && PathOf(c).MatchesCandidate(cs[i])
    ensures var led, leads := Leads(cs, i, cs[i]), Leads(cs, i, c);
      IdentityOf(Best(cs[i := c], c.peer)) == IdentityOf(Best(cs, c.peer))
      <==> led == leads && (leads ==> c.relayPeer == cs[i].relayPeer)
  {
    var ds := cs[i := c];
    var led, leads := Leads(cs, i, cs[i]), Leads(cs, i, c);
    assert forall j :: 0 <= j < |cs| && j != i ==> ds[j] == cs[j];
    assert leads <==> Leads(ds, i, ds[i]);
    if led {
      LeaderIsSelected(cs, i);
    }
    if leads {
      LeaderIsSelected(ds, i);
    }
    if !led && !leads {
      FollowersAreInterchangeable(cs, i, c);
    } else if led && !leads {
      LedByAnother(ds, i, c.peer);
      if k :| 0 <= k < |ds| && k != i && ds[k].peer == c.peer && Best(ds, c.peer) == Some(ds[k]) {
        OtherPath(cs, i, k);
        DifferentPathDifferentIdentity(cs[k], cs[i]);
      }
    } else if leads && !led {
      LedByAnother(cs, i, c.peer);
      if k :| 0 <= k < |cs| && k != i && cs[k].peer == c.peer && Best(cs, c.peer) == Some(cs[k]) {
        OtherPath(cs, i, k);
        DifferentPathDifferentIdentity(cs[k], c);
      }
    }
  }

  lemma OtherPath(cs: seq<Candidate>, i: nat, k: nat)
    requires UniqueCandidates(cs) && i < |cs| && k < |cs| && i != k
    ensures !PathOf(cs[k]).Same(PathOf(cs[i]))
  {
    assert !PathOf(cs[if i < k then i else k]).Same(PathOf(cs[if i < k then k else i]));
  }

  lemma NewCandidateSeen(cs: seq<Candidate>, c: Candidate)
    requires forall k :: 0 <= k < |cs| ==> !PathOf(c).MatchesCandidate(cs[k])
    ensures IdentityOf(Best(cs + [c], c.peer)) == IdentityOf(Best(cs, c.peer)) <==> !Leads(cs, |cs|, c)
  {
    AppendedFollower(cs, c);
    if Leads(cs, |cs|, c) && Best(cs, c.peer).Some? {
      var k := SelectedLeads(cs, c.peer);
      DifferentPathDifferentIdentity(cs[k], c);
    }
  }

  /**
   Storing a candidate reports nothing. A listener stays up to date exactly when the stored candidate would be
   selected precisely if the one it replaces was, with the same relay; a new path must not be selected.
   */
  lemma UpsertIsSilent(heard: Heard, s: PathState, c: Candidate)
    requires UniqueCandidates(s.candidates) && UpToDate(heard, s.candidates)
    ensures var cs, n := s.candidates, FindCandidate(s.candidates, PathOf(c));
      UpToDate(heard, Do(s, Upsert(c)).candidates) <==>
      if n < |cs| then
        && Leads(cs, n, cs[n]) == Leads(cs, n, c)
        && (Leads(cs, n, c) ==> c.relayPeer == cs[n].relayPeer)
      else !Leads(cs, n, c)
  {
    var cs, n, ds := s.candidates, FindCandidate(s.candidates, PathOf(c)), Do(s, Upsert(c)).candidates;
    forall peer
      ensures Heeds(heard, peer) == IdentityOf(Best(cs, peer))
      ensures peer != c.peer ==> Best(ds, peer) == Best(cs, peer)
    {
      if peer != c.peer {
        BestIgnoresPut(cs, PathOf(c), c, peer);
      }
    }
    if n < |cs| {
      ReplacedCandidate(cs, n, c);
    } else {
      NewCandidateSeen(cs, c);
    }
    assert UpToDate(heard, ds) <==> IdentityOf(Best(ds, c.peer)) == IdentityOf(Best(cs, c.peer));
  }

  // Runs in which the listener or the inventory falls behind

  const TCP := Path(1, DirectTcpStream, None)
  const PLAIN := Details(None, Unknown, UnknownRole, false, None)

  lemma TwoOps(heard: Heard, s: PathState, a: Op, b: Op)
    ensures RunOps(s, [a, b]) == Do(Do(s, a), b)
    ensures HearAll(heard, s, [a, b]) == Hear(Hear(heard, Reported(s, a)), Reported(Do(s, a), b))
  {
    var ops := [a, b];
    assert ops[..|ops| - 1] == [a] && [a][..|[a]| - 1] == [];
    assert RunOps(s, [a]) == Do(RunOps(s, []), a) == Do(s, a);
    assert HearAll(heard, s, [a]) == Hear(HearAll(heard, s, []), Reported(RunOps(s, []), a));
  }

  /** Forgetting a peer with a healthy path leaves a listener believing in that path. */
  lemma ForgettingIsSilent()
    ensures var ops := [Established(TCP, PLAIN, Some(7)), ForgetPeer(1)];
      !UpToDate(HearAll(map[], NO_PATHS, ops), RunOps(NO_PATHS, ops).candidates)
  {
    var open, forget := Established(TCP, PLAIN, Some(7)), ForgetPeer(1);
    var s := Do(NO_PATHS, open);
    TwoOps(map[], NO_PATHS, open, forget);
    var c := EstablishedCandidate(None, TCP, PLAIN, Some(7), TrackedAt(RecordId([], TCP, Some(7)), TCP));
    assert s.candidates == [] + [c];
    AppendedFollower([], c);
    assert Best(NO_PATHS.candidates, 1).None?;
    assert Heeds(Hear(map[], Reported(NO_PATHS, open)), 1).Some?;
    ForgottenHasNoBest(s.candidates, 1, 1);
  }

  /** A path recorded as unconfirmed has a connection that its inventory does not know. */
  lemma UnconfirmedDisagrees()
    ensures Agrees(EntryAt(NO_PATHS, TCP))
    ensures !Agrees(EntryAt(RunOps(NO_PATHS, [Unconfirmed(TCP, PLAIN)]), TCP))
  {
    var op := Unconfirmed(TCP, PLAIN);
    assert [op][..0] == [] && RunOps(NO_PATHS, [op]) == Do(NO_PATHS, op);
    OperationActsOnItsPath(NO_PATHS, op, TCP);
  }
}
