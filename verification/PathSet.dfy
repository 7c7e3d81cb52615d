/** The mutable path set. Each method is tied to the operation of module `Paths` that it performs. */
module PathSets {
  import opened Prelude
  import opened Records
  import opened Connections
  import opened Paths
  import opened PathViews

  /** What a lost connection leaves of its path. */
  datatype ConnectionFailure = ConnectionFailure(
    selectionChange: Option<Change>,
    connectionWasTracked: bool,
    remainingConnections: nat,
    latestId: Option<ConnId>,
    pathHealthy: bool)

  class PathSet {
    var candidates: seq<Candidate>
    var inventories: seq<Inventory>

    function State(): PathState
      reads this
    {
      PathState(candidates, inventories)
    }

    ghost predicate Valid()
      reads this
    {
      WellKept(State())
    }

    constructor ()
      ensures State() == NO_PATHS && Valid()
    {
      candidates, inventories := [], [];
    }

    method IndexOf(p: Path) returns (n: nat)
      ensures n == FindCandidate(candidates, p)
    {
      n := 0;
      while n < |candidates| && !p.MatchesCandidate(candidates[n])
        invariant n <= |candidates|
        invariant forall i :: 0 <= i < n ==> !p.MatchesCandidate(candidates[i])
      {
        n := n + 1;
      }
    }

    method IndexOfInventory(p: Path) returns (n: nat)
      ensures n == FindInventory(inventories, p)
    {
      n := 0;
      while n < |inventories| && !p.MatchesInventory(inventories[n])
        invariant n <= |inventories|
        invariant forall i :: 0 <= i < n ==> !p.MatchesInventory(inventories[i])
      {
        n := n + 1;
      }
    }

    method BestSupportedFor(peer: Peer, support: Support) returns (best: Option<Candidate>)
      ensures best == BestSupported(candidates, peer, support)
    {
      best := None;
      for i := 0 to |candidates|
        invariant best == BestSupported(candidates[..i], peer, support)
      {
        assert candidates[..i + 1][..i] == candidates[..i];
        var c := candidates[i];
        if Eligible(c, peer, support) && (best.Some? ==> best.value.Score() <= c.Score()) {
          best := Some(c);
        }
      }
      assert candidates[..|candidates|] == candidates;
    }

    method BestFor(peer: Peer) returns (best: Option<Candidate>)
      ensures best == Best(candidates, peer)
    {
      best := BestSupportedFor(peer, EVERYTHING);
    }

    method ChangeSince(peer: Peer, previous: Option<Candidate>) returns (change: Option<Change>)
      ensures change ==
        if IdentityOf(previous) == IdentityOf(Best(candidates, peer)) then None
        else Some(Change(peer, previous, Best(candidates, peer)))
    {
      var current := BestFor(peer);
      change := if IdentityOf(previous) == IdentityOf(current) then None else Some(Change(peer, previous, current));
    }

    method Upsert(c: Candidate)
      requires Valid()
      modifies this
      ensures State() == Do(old(State()), Op.Upsert(c)) && Valid()
    {
      OperationKeeps(State(), Op.Upsert(c));
      var n := IndexOf(PathOf(c));
      if n < |candidates| {
        candidates := candidates[n := c];
      } else {
        candidates := candidates + [c];
      }
    }

    method RecordConnectionInventory(p: Path, id: Option<ConnId>) returns (u: InventoryUpdate)
      modifies this`inventories
      ensures inventories == RecordId(old(inventories), p, id)
      ensures u == UpdateOf(TrackedAt(inventories, p), id.Some?)
    {
      RecordView(inventories, p, id, p);
      var n := IndexOfInventory(p);
      if n < |inventories| {
        var inv := inventories[n];
        var slots := new Option<ConnId>[MAX_TRACKED](i requires 0 <= i < MAX_TRACKED => inv.slots[i]);
        assert slots[..] == inv.slots;
        u := RecordConnectionId(slots, id);
        assert id.None? ==> inv.(slots := slots[..]) == inv;
        inventories := inventories[n := inv.(slots := slots[..])];
      } else {
        var slots := new Option<ConnId>[MAX_TRACKED](_ => None);
        assert slots[..] == Fill([]);
        FlattenFill([]);
        u := RecordConnectionId(slots, id);
        inventories := inventories + [Inventory(p.peer, p.kind, p.relayPeer, slots[..])];
      }
    }

    method ForgetConnectionInventory(p: Path, id: Option<ConnId>) returns (u: InventoryUpdate)
      modifies this`inventories
      ensures inventories == ForgetId(old(inventories), p, id)
      ensures u == UpdateOf(TrackedAt(inventories, p), id.Some? && id.value in TrackedAt(old(inventories), p))
    {
      ForgetView(inventories, p, id, p);
      var n := IndexOfInventory(p);
      if n == |inventories| {
        return InventoryUpdate(None, 0, false);
      }
      var inv := inventories[n];
      var slots := new Option<ConnId>[MAX_TRACKED](i requires 0 <= i < MAX_TRACKED => inv.slots[i]);
      assert slots[..] == inv.slots;
      u := ForgetConnectionId(slots, id);
      assert id.None? ==> inv.(slots := slots[..]) == inv;
      inventories := inventories[n := inv.(slots := slots[..])];
    }

    method ClearConnectionInventory(p: Path)
      modifies this`inventories
      ensures inventories == ClearInventory(old(inventories), p)
    {
      var kept: seq<Inventory> := [];
      for i := 0 to |inventories|
        invariant inventories == old(inventories)
        invariant ClearInventory(inventories, p) == kept + ClearInventory(inventories[i..], p)
      {
        assert inventories[i..][0] == inventories[i] && inventories[i..][1..] == inventories[i + 1..];
        if !p.MatchesInventory(inventories[i]) {
          kept := kept + [inventories[i]];
        }
      }
      inventories := kept;
    }

    method StoreCandidate(p: Path, c: Candidate)
      modifies this`candidates
      ensures candidates == PutCandidate(old(candidates), p, c)
    {
      var n := IndexOf(p);
      if n < |candidates| {
        candidates := candidates[n := c];
      } else {
        candidates := candidates + [c];
      }
    }

    /** The candidate of a path after an establishment, given the inventory after it. */
    method EstablishOne(p: Path, d: Details, id: Option<ConnId>, update: InventoryUpdate, ghost ids: seq<ConnId>)
      returns (c: Candidate)
      requires update == UpdateOf(ids, update.wasTracked)
      ensures c == EstablishedCandidate(CandidateAt(candidates, p), p, d, id, ids)
    {
      var n := IndexOf(p);
      var base := if n < |candidates| then candidates[n] else NewCandidate(p.peer, p.kind);
      var connections :=
        if id.Some? then update.tracked
        else if n < |candidates| then Min(base.connections + 1, U32_MAX) else 1;
      c := base.(
        healthy := true,
        relayPeer := p.relayPeer,
        mtu := if d.mtu.Some? then d.mtu else base.mtu,
        origin := d.origin,
        role := d.role,
        establishedAsRelayed := d.asRelayed,
        latestId := update.latest,
        firstSeen := if base.firstSeen.None? then d.now else base.firstSeen,
        lastEstablished := d.now,
        connections := connections);
    }

    method RecordEstablished(p: Path, d: Details, id: Option<ConnId>) returns (change: Option<Change>)
      requires Valid()
      modifies this
      ensures State() == Do(old(State()), Established(p, d, id)) && Valid()
      ensures change == Reported(old(State()), Established(p, d, id))
    {
      OperationKeeps(State(), Established(p, d, id));
      var previous := BestFor(p.peer);
      var update := RecordConnectionInventory(p, id);
      var c := EstablishOne(p, d, id, update, TrackedAt(inventories, p));
      StoreCandidate(p, c);
      change := ChangeSince(p.peer, previous);
    }

    method RecordUnconfirmed(p: Path, d: Details) returns (change: Option<Change>)
      requires Valid()
      modifies this
      ensures State() == Do(old(State()), Unconfirmed(p, d)) && Valid()
      ensures change == Reported(old(State()), Unconfirmed(p, d))
    {
      OperationKeeps(State(), Unconfirmed(p, d));
      var previous := BestFor(p.peer);
      var n := IndexOf(p);
      var base := if n < |candidates| then candidates[n] else NewCandidate(p.peer, p.kind);
      var c := base.(
        healthy := false,
        relayPeer := p.relayPeer,
        mtu := if d.mtu.Some? then d.mtu else base.mtu,
        origin := d.origin,
        establishedAsRelayed := d.asRelayed,
        latestId := None,
        firstSeen := if base.firstSeen.None? then d.now else base.firstSeen,
        lastEstablished := d.now,
        connections := 1);
      StoreCandidate(p, c);
      change := ChangeSince(p.peer, previous);
    }

    /** The candidate of a path after it lost a connection, given the inventory after it. */
    static method LoseOne(candidate: Candidate, id: Option<ConnId>, update: InventoryUpdate, ghost ids: seq<ConnId>)
      returns (c: Candidate)
      requires update == UpdateOf(ids, update.wasTracked) && (update.wasTracked ==> id.Some?)
      ensures c == LostCandidate(candidate, id, ids, update.wasTracked)
    {
      c := candidate;
      if id.None? {
        c := c.(connections := if c.connections == 0 then 0 else c.connections - 1);
      } else if update.wasTracked {
        c := c.(connections := update.tracked);
      }
      if id.None? || update.wasTracked {
        c := c.(latestId := update.latest);
      }
      if c.connections == 0 {
        c := c.(healthy := false, latestId := None);
      }
    }

    /** Takes a lost connection off the path, and the path's inventory with its last connection. */
    method DropConnection(p: Path, id: Option<ConnId>) returns (wasTracked: bool, lost: Option<Candidate>)
      modifies this
      ensures State() == Do(old(State()), Lost(p, id))
      ensures wasTracked <==> id.Some? && id.value in TrackedAt(old(inventories), p)
      ensures lost == LostAt(EntryAt(old(State()), p), id)
    {
      ghost var s := State();
      ForgetView(s.inventories, p, id, p);
      var update := ForgetConnectionInventory(p, id);
      var n := IndexOf(p);
      if n == |candidates| {
        return update.wasTracked, None;
      }
      var c := LoseOne(candidates[n], id, update, TrackedAt(inventories, p));
      if c.connections == 0 {
        ClearConnectionInventory(p);
      }
      candidates := candidates[n := c];
      return update.wasTracked, Some(c);
    }

    method RecordConnectionLost(p: Path, id: Option<ConnId>) returns (failure: ConnectionFailure)
      requires Valid()
      modifies this
      ensures State() == Do(old(State()), Lost(p, id)) && Valid()
      ensures failure.selectionChange == Reported(old(State()), Lost(p, id))
      ensures failure.connectionWasTracked <==> id.None? || id.value in TrackedAt(old(inventories), p)
      ensures match CandidateAt(candidates, p)
        case None => failure.remainingConnections == 0 && failure.latestId.None? && !failure.pathHealthy
        case Some(c) =>
          && failure.remainingConnections == c.connections
          && failure.latestId == c.latestId
          && failure.pathHealthy == c.healthy
    {
      OperationKeeps(State(), Lost(p, id));
      LossCandidateView(State(), p, id, p);
      var previous := BestFor(p.peer);
      var wasTracked, lost := DropConnection(p, id);
      var change := ChangeSince(p.peer, previous);
      failure := match lost
        case None => ConnectionFailure(change, id.None? || wasTracked, 0, None, false)
        case Some(c) => ConnectionFailure(change, id.None? || wasTracked, c.connections, c.latestId, c.healthy);
    }

    method MarkPathUnhealthy(p: Path) returns (change: Option<Change>)
      requires Valid()
      modifies this
      ensures State() == Do(old(State()), MarkUnhealthy(p)) && Valid()
      ensures change == Reported(old(State()), MarkUnhealthy(p))
    {
      OperationKeeps(State(), MarkUnhealthy(p));
      var previous := BestFor(p.peer);
      var n := IndexOf(p);
      if n < |candidates| {
        candidates := candidates[n := DemotedCandidate(candidates[n])];
      }
      ClearConnectionInventory(p);
      change := ChangeSince(p.peer, previous);
    }

    method RecordRtt(p: Path, rtt: nat) returns (change: Option<Change>)
      requires Valid()
      modifies this
      ensures State() == Do(old(State()), Rtt(p, rtt)) && Valid()
      ensures change == Reported(old(State()), Rtt(p, rtt))
    {
      OperationKeeps(State(), Rtt(p, rtt));
      var previous := BestFor(p.peer);
      var n := IndexOf(p);
      if n == |candidates| {
        return None;
      }
      candidates := candidates[n := MeasuredCandidate(candidates[n], rtt)];
      change := ChangeSince(p.peer, previous);
    }

    /** Only a connection that the path still tracks may confirm it. */
    method RecordStreamRtt(p: Path, id: ConnId, rtt: nat) returns (change: Option<Change>)
      requires Valid()
      modifies this
      ensures State() == Do(old(State()), StreamRtt(p, id, rtt)) && Valid()
      ensures change == Reported(old(State()), StreamRtt(p, id, rtt))
    {
      var n := IndexOfInventory(p);
      if n == |inventories| || id !in Flatten(inventories[n].slots) {
        return None;
      }
      change := RecordRtt(p, rtt);
    }

    method LowerPathMtu(p: Path, mtu: nat) returns (changed: bool)
      requires Valid()
      modifies this
      ensures State() == Do(old(State()), LowerMtu(p, mtu)) && Valid()
      ensures changed <==> State() != old(State())
    {
      OperationKeeps(State(), LowerMtu(p, mtu));
      var n := IndexOf(p);
      if n < |candidates| && candidates[n].healthy
         && (candidates[n].mtu.None? || mtu < candidates[n].mtu.value) {
        ghost var before := candidates[n];
        candidates := candidates[n := candidates[n].(mtu := Some(mtu))];
        assert candidates[n] != before;
        return true;
      }
      return false;
    }

    method RaisePathMtu(p: Path, mtu: nat, ceiling: nat) returns (changed: bool)
      requires Valid()
      modifies this
      ensures State() == Do(old(State()), RaiseMtu(p, mtu, ceiling)) && Valid()
      ensures changed <==> State() != old(State())
    {
      OperationKeeps(State(), RaiseMtu(p, mtu, ceiling));
      var n := IndexOf(p);
      var bounded := Min(mtu, ceiling);
      if n < |candidates| && candidates[n].healthy && candidates[n].mtu.Some? && bounded > candidates[n].mtu.value {
        ghost var before := candidates[n];
        candidates := candidates[n := candidates[n].(mtu := Some(bounded))];
        assert candidates[n] != before;
        return true;
      }
      return false;
    }

    method DropCandidates(peer: Peer)
      modifies this`candidates
      ensures candidates == OtherCandidates(old(candidates), peer)
    {
      var kept: seq<Candidate> := [];
      for i := 0 to |candidates|
        invariant candidates == old(candidates)
        invariant OtherCandidates(candidates, peer) == kept + OtherCandidates(candidates[i..], peer)
      {
        assert candidates[i..][0] == candidates[i] && candidates[i..][1..] == candidates[i + 1..];
        if candidates[i].peer != peer {
          kept := kept + [candidates[i]];
        }
      }
      candidates := kept;
    }

    method DropInventories(peer: Peer)
      modifies this`inventories
      ensures inventories == OtherInventories(old(inventories), peer)
    {
      var kept: seq<Inventory> := [];
      for i := 0 to |inventories|
        invariant inventories == old(inventories)
        invariant OtherInventories(inventories, peer) == kept + OtherInventories(inventories[i..], peer)
      {
        assert inventories[i..][0] == inventories[i] && inventories[i..][1..] == inventories[i + 1..];
        if inventories[i].peer != peer {
          kept := kept + [inventories[i]];
        }
      }
      inventories := kept;
    }

    method ForgetPeerPaths(peer: Peer)
      requires Valid()
      modifies this
      ensures State() == Do(old(State()), ForgetPeer(peer)) && Valid()
    {
      OperationKeeps(State(), ForgetPeer(peer));
      DropCandidates(peer);
      DropInventories(peer);
    }

    /** Counts the candidates that were healthy or connected, and resets all of them. */
    method InvalidateConnections() returns (invalidated: nat)
      requires Valid()
      modifies this
      ensures State() == Do(old(State()), Invalidate) && Valid()
      ensures invalidated == LiveCount(old(candidates))
    {
      OperationKeeps(State(), Invalidate);
      invalidated := 0;
      ghost var was := candidates;
      for i := 0 to |candidates|
        invariant |candidates| == |was| && inventories == old(inventories)
        invariant forall k :: 0 <= k < i ==> candidates[k] == InvalidatedCandidate(was[k])
        invariant forall k :: i <= k < |was| ==> candidates[k] == was[k]
        invariant invalidated == LiveCount(was[..i])
      {
        assert was[..i + 1][..i] == was[..i];
        if candidates[i].healthy || candidates[i].connections > 0 {
          invalidated := invalidated + 1;
        }
        candidates := candidates[i := InvalidatedCandidate(candidates[i])];
      }
      assert was[..|was|] == was;
      assert candidates == InvalidateAll(was);
      inventories := [];
    }
  }

  /** How many candidates are healthy or connected. */
  function LiveCount(cs: seq<Candidate>): nat {
    if cs == [] then 0
    else
      var c := cs[|cs| - 1];
      LiveCount(cs[..|cs| - 1]) + if c.healthy || c.connections > 0 then 1 else 0
  }
}
