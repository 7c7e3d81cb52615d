/**
 The two vectors of the path set seen path by path: every operation acts on the entry of the path it
 names and on no other, entries stay unique, and a path's candidate agrees with its inventory as long as
 its events carry connection ids.
 */
module PathViews {
  import opened Prelude
  import opened Records
  import opened Connections
  import opened Paths
  import opened Sorting

  /** What the path set holds for one path. */
  datatype Entry = Entry(candidate: Option<Candidate>, ids: seq<ConnId>)

  function EntryAt(s: PathState, q: Path): (e: Entry)
    ensures |e.ids| <= MAX_TRACKED
  {
    Entry(CandidateAt(s.candidates, q), TrackedAt(s.inventories, q))
  }

  predicate Touches(op: Op, q: Path) {
    match op
    case Upsert(c) => PathOf(c).Same(q)
    case ForgetPeer(peer) => q.peer == peer
    case Invalidate => true
    case _ => op.path.Same(q)
  }

  function EditEntry(e: Entry, edit: Edit): Entry {
    if e.candidate.None? then e else e.(candidate := Some(Edited(e.candidate.value, edit)))
  }

  /** What an operation does to the entry of a path it touches. */
  function EntryAfter(e: Entry, op: Op): Entry
    requires |e.ids| <= MAX_TRACKED
  {
    match op
    case Upsert(c) => e.(candidate := Some(c))
    case Established(p, d, id) =>
      var ids := if id.Some? then MoveToBack(e.ids, id.value) else e.ids;
      Entry(Some(EstablishedCandidate(e.candidate, p, d, id, ids)), ids)
    case Unconfirmed(p, d) => e.(candidate := Some(UnconfirmedCandidate(e.candidate, p, d)))
    case Lost(p, id) =>
      var ids := if id.Some? then Remove(e.ids, id.value) else e.ids;
      if e.candidate.None? then Entry(None, ids)
      else
        var c := LostCandidate(e.candidate.value, id, ids, id.Some? && id.value in e.ids);
        Entry(Some(c), if c.connections == 0 then [] else ids)
    case MarkUnhealthy(p) => EditEntry(e, Demote).(ids := [])
    case Rtt(p, rtt) => EditEntry(e, Measure(rtt))
    case StreamRtt(p, id, rtt) => if id in e.ids then EditEntry(e, Measure(rtt)) else e
    case LowerMtu(p, mtu) => EditEntry(e, Lower(mtu))
    case RaiseMtu(p, mtu, ceiling) => EditEntry(e, Raise(Min(mtu, ceiling)))
    case ForgetPeer(peer) => Entry(None, [])
    case Invalidate =>
      Entry(if e.candidate.None? then None else Some(InvalidatedCandidate(e.candidate.value)), [])
  }

  // Lookups after stores

  lemma PutCandidateView(cs: seq<Candidate>, p: Path, c: Candidate, q: Path)
    requires p.Same(PathOf(c))
    ensures CandidateAt(PutCandidate(cs, p, c), q) == if p.Same(q) then Some(c) else CandidateAt(cs, q)
  {
    var ds := PutCandidate(cs, p, c);
    var n, k, k' := FindCandidate(cs, p), FindCandidate(cs, q), FindCandidate(ds, q);
    assert forall i :: 0 <= i < |cs| && i != n ==> ds[i] == cs[i];
    if p.Same(q) {
      assert q.MatchesCandidate(ds[n]);
    }
  }

  lemma EditView(cs: seq<Candidate>, p: Path, edit: Edit, q: Path)
    ensures CandidateAt(EditCandidate(cs, p, edit), q) ==
      if p.Same(q) && CandidateAt(cs, q).Some? then Some(Edited(CandidateAt(cs, q).value, edit)) else CandidateAt(cs, q)
  {
    SameLookup(cs, [], p, q);
    match CandidateAt(cs, p)
    case None =>
    case Some(c) => PutCandidateView(cs, p, Edited(c, edit), q);
  }

  lemma SameLookup(cs: seq<Candidate>, inv: seq<Inventory>, p: Path, q: Path)
    ensures p.Same(q) ==> FindCandidate(cs, p) == FindCandidate(cs, q) && FindInventory(inv, p) == FindInventory(inv, q)
  {}

  lemma PutSlotsView(inv: seq<Inventory>, p: Path, slots: Slots, q: Path)
    ensures TrackedAt(PutSlots(inv, p, slots), q) == if p.Same(q) then Flatten(slots) else TrackedAt(inv, q)
  {
    var after := PutSlots(inv, p, slots);
    var n := FindInventory(inv, p);
    assert after[n].slots == slots && p.MatchesInventory(after[n]);
    assert forall i :: 0 <= i < |inv| && i != n ==> after[i] == inv[i];
    if p.Same(q) {
      assert FindInventory(after, q) == n;
    } else {
      assert !q.MatchesInventory(after[n]);
      assert FindInventory(inv, q) < |inv| ==> FindInventory(after, q) == FindInventory(inv, q);
    }
  }

  lemma ConsCandidate(c: Candidate, cs: seq<Candidate>, q: Path)
    ensures CandidateAt([c] + cs, q) == if q.MatchesCandidate(c) then Some(c) else CandidateAt(cs, q)
  {
    assert ([c] + cs)[1..] == cs;
  }

  lemma ConsInventory(i: Inventory, inv: seq<Inventory>, q: Path)
    ensures TrackedAt([i] + inv, q) == if q.MatchesInventory(i) then Flatten(i.slots) else TrackedAt(inv, q)
  {
    assert ([i] + inv)[1..] == inv;
  }

  lemma {:induction false} ClearView(inv: seq<Inventory>, p: Path, q: Path)
    ensures TrackedAt(ClearInventory(inv, p), q) == if p.Same(q) then [] else TrackedAt(inv, q)
  {
    if inv != [] {
      ClearView(inv[1..], p, q);
      assert inv == [inv[0]] + inv[1..];
      ConsInventory(inv[0], inv[1..], q);
      ConsInventory(inv[0], ClearInventory(inv[1..], p), q);
      assert [] + ClearInventory(inv[1..], p) == ClearInventory(inv[1..], p);
    }
  }

  lemma {:induction false} OthersView(cs: seq<Candidate>, peer: Peer, q: Path)
    ensures CandidateAt(OtherCandidates(cs, peer), q) == if q.peer == peer then None else CandidateAt(cs, q)
  {
    if cs != [] {
      OthersView(cs[1..], peer, q);
      assert cs == [cs[0]] + cs[1..];
      ConsCandidate(cs[0], cs[1..], q);
      ConsCandidate(cs[0], OtherCandidates(cs[1..], peer), q);
      assert [] + OtherCandidates(cs[1..], peer) == OtherCandidates(cs[1..], peer);
    }
  }

  lemma {:induction false} OtherInventoriesView(inv: seq<Inventory>, peer: Peer, q: Path)
    ensures TrackedAt(OtherInventories(inv, peer), q) == if q.peer == peer then [] else TrackedAt(inv, q)
  {
    if inv != [] {
      OtherInventoriesView(inv[1..], peer, q);
      assert inv == [inv[0]] + inv[1..];
      ConsInventory(inv[0], inv[1..], q);
      ConsInventory(inv[0], OtherInventories(inv[1..], peer), q);
      assert [] + OtherInventories(inv[1..], peer) == OtherInventories(inv[1..], peer);
    }
  }

  lemma InvalidateView(cs: seq<Candidate>, q: Path)
    ensures CandidateAt(InvalidateAll(cs), q) ==
      if CandidateAt(cs, q).None? then None else Some(InvalidatedCandidate(CandidateAt(cs, q).value))
  {
    assert forall i :: 0 <= i < |cs| ==> q.MatchesCandidate(InvalidateAll(cs)[i]) == q.MatchesCandidate(cs[i]);
  }

  lemma RecordView(inv: seq<Inventory>, p: Path, id: Option<ConnId>, q: Path)
    ensures TrackedAt(RecordId(inv, p, id), q) ==
      if p.Same(q) && id.Some? then MoveToBack(TrackedAt(inv, q), id.value) else TrackedAt(inv, q)
  {
    SameLookup([], inv, p, q);
    match id
    case Some(x) =>
      PutSlotsView(inv, p, Fill(MoveToBack(TrackedAt(inv, p), x)), q);
      FlattenFill(MoveToBack(TrackedAt(inv, p), x));
    case None =>
      PutSlotsView(inv, p, Fill([]), q);
      FlattenFill([]);
  }

  lemma ForgetView(inv: seq<Inventory>, p: Path, id: Option<ConnId>, q: Path)
    ensures TrackedAt(ForgetId(inv, p, id), q) ==
      if p.Same(q) && id.Some? then Remove(TrackedAt(inv, q), id.value) else TrackedAt(inv, q)
  {
    SameLookup([], inv, p, q);
    if id.Some? && FindInventory(inv, p) < |inv| {
      PutSlotsView(inv, p, Fill(Remove(TrackedAt(inv, p), id.value)), q);
      FlattenFill(Remove(TrackedAt(inv, p), id.value));
    }
  }

  /** The candidate a loss leaves at the lost path. */
  function LostAt(e: Entry, id: Option<ConnId>): Option<Candidate> {
    if e.candidate.None? then None
    else
      var ids := if id.Some? then Remove(e.ids, id.value) else e.ids;
      Some(LostCandidate(e.candidate.value, id, ids, id.Some? && id.value in e.ids))
  }

  lemma LossCandidates(s: PathState, p: Path, id: Option<ConnId>)
    ensures LoseConnection(s, p, id).candidates ==
      if CandidateAt(s.candidates, p).None? then s.candidates
      else PutCandidate(s.candidates, p, LostAt(EntryAt(s, p), id).value)
    ensures LoseConnection(s, p, id).inventories ==
      if LostAt(EntryAt(s, p), id).Some? && LostAt(EntryAt(s, p), id).value.connections == 0
      then ClearInventory(ForgetId(s.inventories, p, id), p)
      else ForgetId(s.inventories, p, id)
  {
    ForgetView(s.inventories, p, id, p);
  }

  lemma LossCandidateView(s: PathState, p: Path, id: Option<ConnId>, q: Path)
    ensures CandidateAt(LoseConnection(s, p, id).candidates, q) ==
      if p.Same(q) then LostAt(EntryAt(s, q), id) else CandidateAt(s.candidates, q)
  {
    LossCandidates(s, p, id);
    SameLookup(s.candidates, s.inventories, p, q);
    if CandidateAt(s.candidates, p).Some? {
      PutCandidateView(s.candidates, p, LostAt(EntryAt(s, p), id).value, q);
    }
  }

  lemma LossIdsView(s: PathState, p: Path, id: Option<ConnId>, q: Path)
    ensures TrackedAt(LoseConnection(s, p, id).inventories, q) ==
      if !p.Same(q) then TrackedAt(s.inventories, q)
      else EntryAfter(EntryAt(s, q), Lost(p, id)).ids
  {
    LossCandidates(s, p, id);
    SameLookup(s.candidates, s.inventories, p, q);
    ForgetView(s.inventories, p, id, q);
    ClearView(ForgetId(s.inventories, p, id), p, q);
  }

  lemma LossView(s: PathState, p: Path, id: Option<ConnId>, q: Path)
    ensures EntryAt(LoseConnection(s, p, id), q) ==
      if p.Same(q) then EntryAfter(EntryAt(s, q), Lost(p, id)) else EntryAt(s, q)
  {
    LossCandidateView(s, p, id, q);
    LossIdsView(s, p, id, q);
  }

  lemma EstablishedView(s: PathState, p: Path, d: Details, id: Option<ConnId>, q: Path)
    ensures var op := Established(p, d, id);
      EntryAt(Do(s, op), q) == if p.Same(q) then EntryAfter(EntryAt(s, q), op) else EntryAt(s, q)
  {
    SameLookup(s.candidates, s.inventories, p, q);
    RecordView(s.inventories, p, id, q);
    RecordView(s.inventories, p, id, p);
    var ids := TrackedAt(RecordId(s.inventories, p, id), p);
    PutCandidateView(s.candidates, p, EstablishedCandidate(CandidateAt(s.candidates, p), p, d, id, ids), q);
  }

  /**
   The vectors refine a table of entries: an operation changes the entry of each path it touches as
   `EntryAfter` says, and leaves the entry of every other path, of the same peer or not, untouched.
   */
  lemma OperationActsOnItsPath(s: PathState, op: Op, q: Path)
    ensures EntryAt(Do(s, op), q) == if Touches(op, q) then EntryAfter(EntryAt(s, q), op) else EntryAt(s, q)
  {
    match op
    case Upsert(c) => PutCandidateView(s.candidates, PathOf(c), c, q);
    case Established(p, d, id) => EstablishedView(s, p, d, id, q);
    case Unconfirmed(p, d) =>
      SameLookup(s.candidates, s.inventories, p, q);
      PutCandidateView(s.candidates, p, UnconfirmedCandidate(CandidateAt(s.candidates, p), p, d), q);
    case Lost(p, id) => LossView(s, p, id, q);
    case MarkUnhealthy(p) =>
      EditView(s.candidates, p, Demote, q);
      ClearView(s.inventories, p, q);
    case Rtt(p, rtt) => EditView(s.candidates, p, Measure(rtt), q);
    case StreamRtt(p, id, rtt) =>
      SameLookup(s.candidates, s.inventories, p, q);
      EditView(s.candidates, p, Measure(rtt), q);
    case LowerMtu(p, mtu) => EditView(s.candidates, p, Lower(mtu), q);
    case RaiseMtu(p, mtu, ceiling) => EditView(s.candidates, p, Raise(Min(mtu, ceiling)), q);
    case ForgetPeer(peer) =>
      OthersView(s.candidates, peer, q);
      OtherInventoriesView(s.inventories, peer, q);
    case Invalidate => InvalidateView(s.candidates, q);
  }

  // Agreement of a candidate with its inventory

  ghost predicate Agrees(e: Entry) {
    match e.candidate
    case None => e.ids == []
    case Some(c) =>
      && (c.healthy <==> e.ids != [])
      && c.connections == |e.ids|
      && c.latestId == Last(e.ids)
  }

  /**
   The operations that keep an agreeing entry in agreement. Events with a connection id always do; an
   event without one bypasses the inventory, a plain RTT revives a path without connections, and an upsert
   must bring the health, the count and the latest id of the tracked connections.
   */
  ghost predicate KeepsAgreement(e: Entry, op: Op) {
    match op
    case Upsert(c) => (c.healthy <==> e.ids != []) && c.connections == |e.ids| && c.latestId == Last(e.ids)
    case Established(_, _, id) => id.Some?
    case Unconfirmed(_, _) => false
    case Lost(_, id) => id.Some? || |e.ids| <= 1
    case Rtt(_, _) => e.candidate.None? || e.ids != []
    case _ => true
  }

  /** Exactly the operations above keep the agreement. */
  lemma AgreementKeptExactly(e: Entry, op: Op)
    requires |e.ids| <= MAX_TRACKED && Agrees(e)
    ensures Agrees(EntryAfter(e, op)) <==> KeepsAgreement(e, op)
  {}

  /** Events that carry a connection id, and the operations that reset or only measure a path. */
  predicate CarriesId(op: Op) {
    match op
    case Established(_, _, id) => id.Some?
    case Lost(_, id) => id.Some?
    case Upsert(_) => false
    case Unconfirmed(_, _) => false
    case Rtt(_, _) => false
    case _ => true
  }

  function RunOps(s: PathState, ops: seq<Op>): PathState {
    if ops == [] then s else Do(RunOps(s, ops[..|ops| - 1]), ops[|ops| - 1])
  }

  /**
   In every run in which the events on a path carry connection ids, the path is healthy exactly when it
   has tracked connections, its count is their number and its latest id is the last of them,
   whatever happens on other paths.
   */
  lemma {:induction false} AgreementOverRuns(s: PathState, ops: seq<Op>, q: Path)
    requires Agrees(EntryAt(s, q))
    requires forall op :: op in ops && Touches(op, q) ==> CarriesId(op)
    ensures Agrees(EntryAt(RunOps(s, ops), q))
  {
    if ops != [] {
      var front, op := ops[..|ops| - 1], ops[|ops| - 1];
      assert op in ops && forall x :: x in front ==> x in ops;
      AgreementOverRuns(s, front, q);
      OperationActsOnItsPath(RunOps(s, front), op, q);
      AgreementKeptExactly(EntryAt(RunOps(s, front), q), op);
    }
  }

  // The inventory against the connections that are really open

  /** The connection events of one path in a run. */
  function ConnEvents(ops: seq<Op>, q: Path): seq<ConnEvent> {
    if ops == [] then []
    else ConnEvents(ops[..|ops| - 1], q) + ConnEventOf(ops[|ops| - 1], q)
  }

  function ConnEventOf(op: Op, q: Path): seq<ConnEvent> {
    if !Touches(op, q) then []
    else match op
      case Established(_, _, Some(id)) => [Opened(id)]
      case Lost(_, Some(id)) => [ClosedConn(id)]
      case MarkUnhealthy(_) => [ClosedAll]
      case ForgetPeer(_) => [ClosedAll]
      case Invalidate => [ClosedAll]
      case _ => []
  }

  lemma IdsFollowEvent(e: Entry, op: Op, q: Path, events: seq<ConnEvent>)
    requires |e.ids| <= MAX_TRACKED && Agrees(e) && e.ids == Tracked(events)
    requires Touches(op, q) && CarriesId(op)
    ensures EntryAfter(e, op).ids == Tracked(events + ConnEventOf(op, q))
  {
    assert events + [] == events;
    match op
    case Established(_, _, id) =>
      assert (events + [Opened(id.value)])[..|events|] == events;
    case Lost(_, id) =>
      assert (events + [ClosedConn(id.value)])[..|events|] == events;
    case _ =>
  }

  lemma {:induction false} InventoryFollowsConnections(ops: seq<Op>, q: Path)
    requires forall op :: op in ops && Touches(op, q) ==> CarriesId(op)
    ensures EntryAt(RunOps(NO_PATHS, ops), q).ids == Tracked(ConnEvents(ops, q))
  {
    if ops != [] {
      var front, op := ops[..|ops| - 1], ops[|ops| - 1];
      assert op in ops && forall x :: x in front ==> x in ops;
      InventoryFollowsConnections(front, q);
      var e := EntryAt(RunOps(NO_PATHS, front), q);
      OperationActsOnItsPath(RunOps(NO_PATHS, front), op, q);
      AgreementOverRuns(NO_PATHS, front, q);
      if Touches(op, q) {
        IdsFollowEvent(e, op, q, ConnEvents(front, q));
      } else {
        assert ConnEvents(front, q) + [] == ConnEvents(front, q);
      }
    }
  }

  /**
   While at most eight connections of a path were ever open at once, the path set knows them exactly: the
   tracked ids are the open connections by most recent establishment, the path is healthy exactly when
   one is open, and its connection count is their number.
   */
  lemma ConnectionsAreCounted(ops: seq<Op>, q: Path)
    requires forall op :: op in ops && Touches(op, q) ==> CarriesId(op)
    requires NeverCrowded(ConnEvents(ops, q))
    ensures var e, open := EntryAt(RunOps(NO_PATHS, ops), q), OpenIds(ConnEvents(ops, q));
      && IdSet(e.ids) == open && ByEstablishment(ConnEvents(ops, q), e.ids)
      && (open != {} ==> e.candidate.Some?)
      && (e.candidate.Some? ==>
            (e.candidate.value.healthy <==> open != {}) && e.candidate.value.connections == |open|)
  {
    var events := ConnEvents(ops, q);
    var e := EntryAt(RunOps(NO_PATHS, ops), q);
    InventoryFollowsConnections(ops, q);
    AgreementOverRuns(NO_PATHS, ops, q);
    TrackedAreOpen(events);
    TracksExactlyOpen(events);
    DistinctSize(e.ids);
    if e.ids != [] {
      assert e.ids[0] in IdSet(e.ids);
    }
  }

  // Uniqueness

  ghost predicate UniqueCandidates(cs: seq<Candidate>) {
    forall i, j :: 0 <= i < j < |cs| ==> !PathOf(cs[i]).Same(PathOf(cs[j]))
  }

  ghost predicate UniqueInventories(inv: seq<Inventory>) {
    forall i, j :: 0 <= i < j < |inv| ==> !PathOfInventory(inv[i]).Same(PathOfInventory(inv[j]))
  }

  ghost predicate TidySlots(slots: Slots) {
    Distinct(Flatten(slots)) && slots == Fill(Flatten(slots))
  }

  /** Every inventory is packed and free of duplicates. */
  ghost predicate Tidy(inv: seq<Inventory>) {
    forall i :: 0 <= i < |inv| ==> TidySlots(inv[i].slots)
  }

  /** One candidate and one inventory per path, each inventory packed and free of duplicates. */
  ghost predicate WellKept(s: PathState) {
    UniqueCandidates(s.candidates) && UniqueInventories(s.inventories) && Tidy(s.inventories)
  }

  lemma PutKeepsUnique(cs: seq<Candidate>, p: Path, c: Candidate)
    requires UniqueCandidates(cs) && p.Same(PathOf(c))
    ensures UniqueCandidates(PutCandidate(cs, p, c))
  {
    var n := FindCandidate(cs, p);
    if n < |cs| {
      assert PathOf(cs[n]).Same(PathOf(c));
    }
  }

  lemma EditKeepsUnique(cs: seq<Candidate>, p: Path, edit: Edit)
    requires UniqueCandidates(cs)
    ensures UniqueCandidates(EditCandidate(cs, p, edit))
  {
    match CandidateAt(cs, p)
    case None =>
    case Some(c) => PutKeepsUnique(cs, p, Edited(c, edit));
  }

  lemma {:induction false} OthersAreUnique(cs: seq<Candidate>, peer: Peer)
    requires UniqueCandidates(cs)
    ensures UniqueCandidates(OtherCandidates(cs, peer))
    ensures forall c :: c in OtherCandidates(cs, peer) ==> c in cs
  {
    if cs != [] {
      OthersAreUnique(cs[1..], peer);
      assert forall c :: c in cs[1..] ==> !PathOf(cs[0]).Same(PathOf(c));
    }
  }

  lemma {:induction false} RemoveStaysDistinct(ids: seq<ConnId>, id: ConnId)
    requires Distinct(ids)
    ensures Distinct(Remove(ids, id))
  {
    if ids != [] {
      var front, last := ids[..|ids| - 1], ids[|ids| - 1];
      RemoveStaysDistinct(front, id);
      var kept := Remove(front, id);
      forall i | 0 <= i < |kept|
        ensures kept[i] != last
      {
        assert kept[i] in front;
      }
    }
  }

  lemma FilledIsTidy(ids: seq<ConnId>)
    requires |ids| <= MAX_TRACKED && Distinct(ids)
    ensures TidySlots(Fill(ids))
  {
    FlattenFill(ids);
  }

  lemma TrackedIsDistinct(inv: seq<Inventory>, p: Path)
    requires Tidy(inv)
    ensures Distinct(TrackedAt(inv, p))
  {}

  lemma PutSlotsKeeps(inv: seq<Inventory>, p: Path, slots: Slots)
    requires UniqueInventories(inv) && Tidy(inv) && TidySlots(slots)
    ensures UniqueInventories(PutSlots(inv, p, slots)) && Tidy(PutSlots(inv, p, slots))
  {
    var n := FindInventory(inv, p);
    if n < |inv| {
      assert PathOfInventory(inv[n].(slots := slots)) == PathOfInventory(inv[n]);
    }
  }

  lemma {:induction false} ClearKeeps(inv: seq<Inventory>, p: Path)
    requires UniqueInventories(inv) && Tidy(inv)
    ensures UniqueInventories(ClearInventory(inv, p)) && Tidy(ClearInventory(inv, p))
    ensures forall i :: i in ClearInventory(inv, p) ==> i in inv
  {
    if inv != [] {
      ClearKeeps(inv[1..], p);
      assert forall i :: i in inv[1..] ==> !PathOfInventory(inv[0]).Same(PathOfInventory(i));
    }
  }

  lemma {:induction false} OtherInventoriesKeep(inv: seq<Inventory>, peer: Peer)
    requires UniqueInventories(inv) && Tidy(inv)
    ensures UniqueInventories(OtherInventories(inv, peer)) && Tidy(OtherInventories(inv, peer))
    ensures forall i :: i in OtherInventories(inv, peer) ==> i in inv
  {
    if inv != [] {
      OtherInventoriesKeep(inv[1..], peer);
      assert forall i :: i in inv[1..] ==> !PathOfInventory(inv[0]).Same(PathOfInventory(i));
    }
  }

  lemma RecordKeeps(inv: seq<Inventory>, p: Path, id: Option<ConnId>)
    requires UniqueInventories(inv) && Tidy(inv)
    ensures UniqueInventories(RecordId(inv, p, id)) && Tidy(RecordId(inv, p, id))
  {
    match id
    case None =>
      FilledIsTidy([]);
      PutSlotsKeeps(inv, p, Fill([]));
    case Some(x) =>
      TrackedIsDistinct(inv, p);
      RemoveStaysDistinct(TrackedAt(inv, p), x);
      FilledIsTidy(MoveToBack(TrackedAt(inv, p), x));
      PutSlotsKeeps(inv, p, Fill(MoveToBack(TrackedAt(inv, p), x)));
  }

  lemma ForgetKeeps(inv: seq<Inventory>, p: Path, id: Option<ConnId>)
    requires UniqueInventories(inv) && Tidy(inv)
    ensures UniqueInventories(ForgetId(inv, p, id)) && Tidy(ForgetId(inv, p, id))
  {
    if id.Some? {
      TrackedIsDistinct(inv, p);
      RemoveStaysDistinct(TrackedAt(inv, p), id.value);
      FilledIsTidy(Remove(TrackedAt(inv, p), id.value));
      PutSlotsKeeps(inv, p, Fill(Remove(TrackedAt(inv, p), id.value)));
    }
  }

  lemma EstablishedKeeps(s: PathState, p: Path, d: Details, id: Option<ConnId>)
    requires WellKept(s)
    ensures WellKept(Do(s, Established(p, d, id)))
  {
    RecordKeeps(s.inventories, p, id);
    var ids := TrackedAt(RecordId(s.inventories, p, id), p);
    PutKeepsUnique(s.candidates, p, EstablishedCandidate(CandidateAt(s.candidates, p), p, d, id, ids));
  }

  lemma LossKeeps(s: PathState, p: Path, id: Option<ConnId>)
    requires WellKept(s)
    ensures WellKept(LoseConnection(s, p, id))
  {
    LossCandidates(s, p, id);
    ForgetKeeps(s.inventories, p, id);
    ClearKeeps(ForgetId(s.inventories, p, id), p);
    if CandidateAt(s.candidates, p).Some? {
      PutKeepsUnique(s.candidates, p, LostAt(EntryAt(s, p), id).value);
    }
  }

  lemma OperationKeeps(s: PathState, op: Op)
    requires WellKept(s)
    ensures WellKept(Do(s, op))
  {
    match op
    case Upsert(c) => PutKeepsUnique(s.candidates, PathOf(c), c);
    case Established(p, d, id) => EstablishedKeeps(s, p, d, id);
    case Unconfirmed(p, d) =>
      PutKeepsUnique(s.candidates, p, UnconfirmedCandidate(CandidateAt(s.candidates, p), p, d));
    case Lost(p, id) => LossKeeps(s, p, id);
    case MarkUnhealthy(p) =>
      EditKeepsUnique(s.candidates, p, Demote);
      ClearKeeps(s.inventories, p);
    case Rtt(p, rtt) => EditKeepsUnique(s.candidates, p, Measure(rtt));
    case StreamRtt(p, id, rtt) => EditKeepsUnique(s.candidates, p, Measure(rtt));
    case LowerMtu(p, mtu) => EditKeepsUnique(s.candidates, p, Lower(mtu));
    case RaiseMtu(p, mtu, ceiling) => EditKeepsUnique(s.candidates, p, Raise(Min(mtu, ceiling)));
    case ForgetPeer(peer) =>
      OthersAreUnique(s.candidates, peer);
      OtherInventoriesKeep(s.inventories, peer);
    case Invalidate => InvalidateKeepsUnique(s.candidates);
  }

  lemma InvalidateKeepsUnique(cs: seq<Candidate>)
    requires UniqueCandidates(cs)
    ensures UniqueCandidates(InvalidateAll(cs))
  {
    assert forall i :: 0 <= i < |cs| ==> PathOf(InvalidateAll(cs)[i]) == PathOf(cs[i]);
  }

  /** Over any run at all, each path has at most one candidate and one packed, duplicate-free inventory. */
  lemma {:induction false} RunKeeps(s: PathState, ops: seq<Op>)
    requires WellKept(s)
    ensures WellKept(RunOps(s, ops))
  {
    if ops != [] {
      RunKeeps(s, ops[..|ops| - 1]);
      OperationKeeps(RunOps(s, ops[..|ops| - 1]), ops[|ops| - 1]);
    }
  }
}
