/** Which path is selected, and that the reported changes tell a listener exactly which. */
module Selection {
  import opened Prelude
  import opened Records
  import opened Connections
  import opened Paths
  import opened PathViews

  /** The selected candidate is a highest-scoring eligible one, and the last of those in the vector. */
  lemma {:induction false} BestIsMaximum(cs: seq<Candidate>, peer: Peer, support: Support)
    ensures match BestSupported(cs, peer, support)
      case None => forall j :: 0 <= j < |cs| ==> !Eligible(cs[j], peer, support)
      case Some(c) =>
        exists i :: 0 <= i < |cs| && cs[i] == c && Eligible(c, peer, support)
          && forall j :: 0 <= j < |cs| && Eligible(cs[j], peer, support) ==>
               cs[j].Score() <= c.Score() && (j > i ==> cs[j].Score() < c.Score())
  {
    if cs != [] {
      var front := cs[..|cs| - 1];
      BestIsMaximum(front, peer, support);
      assert forall j :: 0 <= j < |front| ==> front[j] == cs[j];
      if BestSupported(cs, peer, support) == BestSupported(front, peer, support) && BestSupported(front, peer, support).Some? {
        var c := BestSupported(front, peer, support).value;
        var i :| 0 <= i < |front| && front[i] == c && Eligible(c, peer, support)
          && forall j :: 0 <= j < |front| && Eligible(front[j], peer, support) ==>
               front[j].Score() <= c.Score() && (j > i ==> front[j].Score() < c.Score());
        assert cs[i] == c;
      }
    }
  }

  // Selection of one peer does not see the candidates of another

  lemma {:induction false} BestIgnoresUpdate(cs: seq<Candidate>, i: nat, c: Candidate, peer: Peer)
    requires i < |cs| && cs[i].peer != peer && c.peer != peer
    ensures Best(cs[i := c], peer) == Best(cs, peer)
  {
    var front := cs[..|cs| - 1];
    if i == |cs| - 1 {
      assert cs[i := c][..i] == front;
    } else {
      assert cs[i := c][..|cs| - 1] == front[i := c];
      BestIgnoresUpdate(front, i, c, peer);
    }
  }

  lemma BestIgnoresPut(cs: seq<Candidate>, p: Path, c: Candidate, peer: Peer)
    requires p.Same(PathOf(c)) && p.peer != peer
    ensures Best(PutCandidate(cs, p, c), peer) == Best(cs, peer)
  {
    var n := FindCandidate(cs, p);
    if n < |cs| {
      BestIgnoresUpdate(cs, n, c, peer);
    } else {
      assert (cs + [c])[..|cs|] == cs;
    }
  }

  ghost predicate SameButMtu(a: Option<Candidate>, b: Option<Candidate>) {
    if a.Some? then b.Some? && b.value == a.value.(mtu := b.value.mtu) else b.None?
  }

  lemma {:induction false} BestIgnoresMtu(cs: seq<Candidate>, i: nat, c: Candidate, peer: Peer)
    requires i < |cs| && c == cs[i].(mtu := c.mtu)
    ensures SameButMtu(Best(cs, peer), Best(cs[i := c], peer))
  {
    var front := cs[..|cs| - 1];
    if i == |cs| - 1 {
      assert cs[i := c][..i] == front;
    } else {
      assert cs[i := c][..|cs| - 1] == front[i := c];
      BestIgnoresMtu(front, i, c, peer);
    }
  }

  lemma EditIgnored(cs: seq<Candidate>, p: Path, edit: Edit, peer: Peer)
    requires p.peer != peer || edit.Lower? || edit.Raise?
    ensures IdentityOf(Best(EditCandidate(cs, p, edit), peer)) == IdentityOf(Best(cs, peer))
  {
    match CandidateAt(cs, p)
    case None =>
    case Some(c) =>
      if p.peer != peer {
        BestIgnoresPut(cs, p, Edited(c, edit), peer);
      } else {
        BestIgnoresMtu(cs, FindCandidate(cs, p), Edited(c, edit), peer);
      }
  }

  lemma LossIgnored(s: PathState, p: Path, id: Option<ConnId>, peer: Peer)
    requires p.peer != peer
    ensures Best(LoseConnection(s, p, id).candidates, peer) == Best(s.candidates, peer)
  {
    LossCandidates(s, p, id);
    if CandidateAt(s.candidates, p).Some? {
      BestIgnoresPut(s.candidates, p, LostAt(EntryAt(s, p), id).value, peer);
    }
  }

  /** Operations that report, and those that cannot change the selection. */
  predicate Observable(op: Op) {
    Reports(op) || op.LowerMtu? || op.RaiseMtu?
  }

  lemma OnlyOwnPeerReselects(s: PathState, op: Op, peer: Peer)
    requires Observable(op) && (Reports(op) ==> op.path.peer != peer)
    ensures IdentityOf(Best(Do(s, op).candidates, peer)) == IdentityOf(Best(s.candidates, peer))
  {
    match op
    case Established(p, d, id) =>
      var ids := TrackedAt(RecordId(s.inventories, p, id), p);
      BestIgnoresPut(s.candidates, p, EstablishedCandidate(CandidateAt(s.candidates, p), p, d, id, ids), peer);
    case Unconfirmed(p, d) =>
      BestIgnoresPut(s.candidates, p, UnconfirmedCandidate(CandidateAt(s.candidates, p), p, d), peer);
    case Lost(p, id) => LossIgnored(s, p, id, peer);
    case MarkUnhealthy(p) => EditIgnored(s.candidates, p, Demote, peer);
    case Rtt(p, rtt) => EditIgnored(s.candidates, p, Measure(rtt), peer);
    case StreamRtt(p, id, rtt) => EditIgnored(s.candidates, p, Measure(rtt), peer);
    case LowerMtu(p, mtu) => EditIgnored(s.candidates, p, Lower(mtu), peer);
    case RaiseMtu(p, mtu, ceiling) => EditIgnored(s.candidates, p, Raise(Min(mtu, ceiling)), peer);
  }

  // A listener that only hears the reported changes

  type Heard = map<Peer, Identity>

  function Hear(heard: Heard, change: Option<Change>): Heard {
    match change
    case None => heard
    case Some(Change(peer, _, current)) =>
      if current.Some? then heard[peer := IdentityOf(current).value] else heard - {peer}
  }

  function HearAll(heard: Heard, s: PathState, ops: seq<Op>): Heard {
    if ops == [] then heard
    else
      var front := ops[..|ops| - 1];
      Hear(HearAll(heard, s, front), Reported(RunOps(s, front), ops[|ops| - 1]))
  }

  ghost function Heeds(heard: Heard, peer: Peer): Option<Identity> {
    if peer in heard then Some(heard[peer]) else None
  }

  /** The listener knows the identity of every peer's selected path. */
  ghost predicate UpToDate(heard: Heard, cs: seq<Candidate>) {
    forall peer :: Heeds(heard, peer) == IdentityOf(Best(cs, peer))
  }

  lemma HearingOne(heard: Heard, s: PathState, op: Op)
    requires UpToDate(heard, s.candidates) && Observable(op)
    ensures UpToDate(Hear(heard, Reported(s, op)), Do(s, op).candidates)
  {
    forall peer
      ensures Heeds(Hear(heard, Reported(s, op)), peer) == IdentityOf(Best(Do(s, op).candidates, peer))
    {
      assert Heeds(heard, peer) == IdentityOf(Best(s.candidates, peer));
      if !Reports(op) || op.path.peer != peer {
        OnlyOwnPeerReselects(s, op, peer);
      }
    }
  }

  /** Over any run of such operations the reported changes reproduce every peer's selected path. */
  lemma {:induction false} SelectionLogIsExact(heard: Heard, s: PathState, ops: seq<Op>)
    requires UpToDate(heard, s.candidates)
    requires forall op :: op in ops ==> Observable(op)
    ensures UpToDate(HearAll(heard, s, ops), RunOps(s, ops).candidates)
  {
    if ops != [] {
      var front, op := ops[..|ops| - 1], ops[|ops| - 1];
      assert op in ops && forall x :: x in front ==> x in ops;
      SelectionLogIsExact(heard, s, front);
      HearingOne(HearAll(heard, s, front), RunOps(s, front), op);
    }
  }

  // The silent operations

  lemma {:induction false} ForgottenHasNoBest(cs: seq<Candidate>, peer: Peer, other: Peer)
    ensures Best(OtherCandidates(cs, peer), other) == if other == peer then None else Best(cs, other)
  {
    BestCut(cs, peer, other, |cs|);
    assert cs[..|cs|] == cs;
  }

  lemma {:induction false} BestCut(cs: seq<Candidate>, peer: Peer, other: Peer, n: nat)
    requires n <= |cs|
    ensures Best(OtherCandidates(cs[..n], peer), other) == if other == peer then None else Best(cs[..n], other)
  {
    if n > 0 {
      BestCut(cs, peer, other, n - 1);
      assert cs[..n][..n - 1] == cs[..n - 1] && cs[..n] == cs[..n - 1] + [cs[n - 1]];
      OthersConcat(cs[..n - 1], cs[n - 1], peer);
      var kept := OtherCandidates(cs[..n - 1], peer);
      assert (kept + [cs[n - 1]])[..|kept|] == kept && kept + [] == kept;
    }
  }

  lemma {:induction false} OthersConcat(cs: seq<Candidate>, c: Candidate, peer: Peer)
    ensures OtherCandidates(cs + [c], peer) == OtherCandidates(cs, peer) + if c.peer == peer then [] else [c]
  {
    if cs == [] {
      assert cs + [c] == [c] && [c][1..] == [];
    } else {
      assert (cs + [c])[0] == cs[0] && (cs + [c])[1..] == cs[1..] + [c];
      OthersConcat(cs[1..], c, peer);
    }
  }

  lemma {:induction false} InvalidatedHasNoBest(cs: seq<Candidate>, peer: Peer)
    ensures Best(InvalidateAll(cs), peer).None?
  {
    if cs != [] {
      assert InvalidateAll(cs)[..|cs| - 1] == InvalidateAll(cs[..|cs| - 1]);
      InvalidatedHasNoBest(cs[..|cs| - 1], peer);
    }
  }

  /**
   Forgetting a peer and invalidating all connections report nothing: a listener stays up to date exactly
   when the forgotten peer, or every peer, had no selected path before.
   */
  lemma SilentOperations(heard: Heard, s: PathState, peer: Peer)
    requires UpToDate(heard, s.candidates)
    ensures UpToDate(heard, Do(s, ForgetPeer(peer)).candidates) <==> Best(s.candidates, peer).None?
    ensures UpToDate(heard, Do(s, Invalidate).candidates) <==> forall q :: Best(s.candidates, q).None?
  {
    var forgotten, invalidated := Do(s, ForgetPeer(peer)).candidates, Do(s, Invalidate).candidates;
    forall q
      ensures Best(forgotten, q) == if q == peer then None else Best(s.candidates, q)
      ensures Best(invalidated, q).None?
      ensures Heeds(heard, q) == IdentityOf(Best(s.candidates, q))
    {
      ForgottenHasNoBest(s.candidates, peer, q);
      InvalidatedHasNoBest(s.candidates, q);
    }
  }
}
