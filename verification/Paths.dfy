/**
 Path candidates and connection inventories as values: what each operation of the path set does to
 the two vectors, which path is selected, and what is reported about it.
 */
module Paths {
  import opened Prelude
  import opened Records
  import opened Connections

  const PATH_FAILURE_PENALTY_STEP := 50
  const PATH_FAILURE_PENALTY_MAX := PATH_FAILURE_PENALTY_STEP
  const PATH_FAILURE_PENALTY_RECOVERY_STEP := 10
  const U16_MAX := 0xFFFF
  const U32_MAX := 0xFFFF_FFFF

  datatype PathKind = DirectUdpDatagram | DirectQuicDatagram | DirectQuicStream | DirectTcpStream | CircuitRelay {
    function DefaultScore(): int {
      match this
      case DirectUdpDatagram => 95
      case DirectQuicDatagram => 100
      case DirectQuicStream => 75
      case DirectTcpStream => 40
      case CircuitRelay => 30
    }
  }

  datatype Origin = Unknown | Configured | Mdns | Kademlia | Identify | RelayedOrigin | Dcutr | PacketPlaneNegotiation

  datatype ConnRole = UnknownRole | Dialer | Listener

  datatype Candidate = Candidate(
    peer: Peer,
    kind: PathKind,
    relayPeer: Option<Peer>,
    rtt: Option<nat>,
    mtu: Option<nat>,
    penalty: nat,
    relay: bool,
    healthy: bool,
    connections: nat,
    origin: Origin,
    role: ConnRole,
    establishedAsRelayed: bool,
    latestId: Option<ConnId>,
    firstSeen: Option<nat>,
    lastEstablished: Option<nat>)
  {
    /** Only healthy candidates are ever scored; the program scores others as the least integer. */
    function Score(): int {
      kind.DefaultScore() - (if rtt.Some? then rtt.value / 10 else 0) - penalty
    }
  }

  function NewCandidate(peer: Peer, kind: PathKind): Candidate {
    Candidate(peer, kind, None, None, None, 0, kind.CircuitRelay?, true, 0, Unknown, UnknownRole,
              kind.CircuitRelay?, None, None, None)
  }

  datatype Inventory = Inventory(peer: Peer, kind: PathKind, relayPeer: Option<Peer>, slots: Slots)

  datatype PathState = PathState(candidates: seq<Candidate>, inventories: seq<Inventory>)

  const NO_PATHS := PathState([], [])

  /** A path is named by its peer and kind, and by its relay when it is relayed. */
  datatype Path = Path(peer: Peer, kind: PathKind, relayPeer: Option<Peer>) {
    predicate MatchesCandidate(c: Candidate) {
      c.peer == peer && c.kind == kind && (kind.CircuitRelay? ==> c.relayPeer == relayPeer)
    }

    predicate MatchesInventory(i: Inventory) {
      i.peer == peer && i.kind == kind && (kind.CircuitRelay? ==> i.relayPeer == relayPeer)
    }

    predicate Same(other: Path) {
      peer == other.peer && kind == other.kind && (kind.CircuitRelay? ==> relayPeer == other.relayPeer)
    }
  }

  function PathOf(c: Candidate): Path {
    Path(c.peer, c.kind, c.relayPeer)
  }

  function PathOfInventory(i: Inventory): Path {
    Path(i.peer, i.kind, i.relayPeer)
  }

  // Looking up and storing by path

  function FindCandidate(cs: seq<Candidate>, p: Path): (n: nat)
    ensures n <= |cs|
    ensures n < |cs| ==> p.MatchesCandidate(cs[n])
    ensures forall i :: 0 <= i < n ==> !p.MatchesCandidate(cs[i])
  {
    if cs == [] || p.MatchesCandidate(cs[0]) then 0 else 1 + FindCandidate(cs[1..], p)
  }

  function CandidateAt(cs: seq<Candidate>, p: Path): Option<Candidate> {
    var n := FindCandidate(cs, p);
    if n < |cs| then Some(cs[n]) else None
  }

  function PutCandidate(cs: seq<Candidate>, p: Path, c: Candidate): seq<Candidate> {
    var n := FindCandidate(cs, p);
    if n < |cs| then cs[n := c] else cs + [c]
  }

  function FindInventory(inv: seq<Inventory>, p: Path): (n: nat)
    ensures n <= |inv|
    ensures n < |inv| ==> p.MatchesInventory(inv[n])
    ensures forall i :: 0 <= i < n ==> !p.MatchesInventory(inv[i])
  {
    if inv == [] || p.MatchesInventory(inv[0]) then 0 else 1 + FindInventory(inv[1..], p)
  }

  function TrackedAt(inv: seq<Inventory>, p: Path): (ids: seq<ConnId>)
    ensures |ids| <= MAX_TRACKED
  {
    var n := FindInventory(inv, p);
    if n < |inv| then Flatten(inv[n].slots) else []
  }

  function PutSlots(inv: seq<Inventory>, p: Path, slots: Slots): seq<Inventory> {
    var n := FindInventory(inv, p);
    if n < |inv| then inv[n := inv[n].(slots := slots)] else inv + [Inventory(p.peer, p.kind, p.relayPeer, slots)]
  }

  function ClearInventory(inv: seq<Inventory>, p: Path): seq<Inventory> {
    if inv == [] then []
    else (if p.MatchesInventory(inv[0]) then [] else [inv[0]]) + ClearInventory(inv[1..], p)
  }

  /** `None` records no id but still creates the inventory. */
  function RecordId(inv: seq<Inventory>, p: Path, id: Option<ConnId>): seq<Inventory> {
    match id
    case Some(x) => PutSlots(inv, p, Fill(MoveToBack(TrackedAt(inv, p), x)))
    case None => if FindInventory(inv, p) < |inv| then inv else PutSlots(inv, p, Fill([]))
  }

  function ForgetId(inv: seq<Inventory>, p: Path, id: Option<ConnId>): seq<Inventory> {
    if FindInventory(inv, p) == |inv| || id.None? then inv
    else PutSlots(inv, p, Fill(Remove(TrackedAt(inv, p), id.value)))
  }

  // Selection

  datatype Support = Support(udpDatagrams: bool, quicDatagrams: bool) {
    predicate Supports(kind: PathKind) {
      match kind
      case DirectUdpDatagram => udpDatagrams
      case DirectQuicDatagram => quicDatagrams
      case _ => true
    }
  }

  const EVERYTHING := Support(true, true)

  predicate Eligible(c: Candidate, peer: Peer, support: Support) {
    c.peer == peer && c.healthy && support.Supports(c.kind)
  }

  /** The last of the highest-scoring eligible candidates. */
  function BestSupported(cs: seq<Candidate>, peer: Peer, support: Support): (r: Option<Candidate>)
    ensures r.Some? ==> Eligible(r.value, peer, support)
  {
    if cs == [] then None else
    var earlier, c := BestSupported(cs[..|cs| - 1], peer, support), cs[|cs| - 1];
    if Eligible(c, peer, support) && (earlier.Some? ==> earlier.value.Score() <= c.Score()) then Some(c) else earlier
  }

  function Best(cs: seq<Candidate>, peer: Peer): Option<Candidate> {
    BestSupported(cs, peer, EVERYTHING)
  }

  type Identity = (PathKind, Option<Peer>)

  function IdentityOf(c: Option<Candidate>): Option<Identity> {
    if c.Some? then Some((c.value.kind, c.value.relayPeer)) else None
  }

  datatype Change = Change(peer: Peer, previous: Option<Candidate>, current: Option<Candidate>)

  function SelectionChange(before: seq<Candidate>, after: seq<Candidate>, peer: Peer): Option<Change> {
    if IdentityOf(Best(before, peer)) == IdentityOf(Best(after, peer)) then None
    else Some(Change(peer, Best(before, peer), Best(after, peer)))
  }

  // The operations

  /** What is known about an establishment besides its path. */
  datatype Details = Details(mtu: Option<nat>, origin: Origin, role: ConnRole, asRelayed: bool, now: Option<nat>)

  datatype Op =
    | Upsert(candidate: Candidate)
    | Established(path: Path, details: Details, id: Option<ConnId>)
    | Unconfirmed(path: Path, details: Details)
    | Lost(path: Path, id: Option<ConnId>)
    | MarkUnhealthy(path: Path)
    | Rtt(path: Path, rtt: nat)
    | StreamRtt(path: Path, connection: ConnId, rtt: nat)
    | LowerMtu(path: Path, mtu: nat)
    | RaiseMtu(path: Path, mtu: nat, ceiling: nat)
    | ForgetPeer(peer: Peer)
    | Invalidate

  function Min(a: nat, b: nat): nat {
    if a <= b then a else b
  }

  function EstablishedCandidate(existing: Option<Candidate>, p: Path, d: Details, id: Option<ConnId>, ids: seq<ConnId>)
    : Candidate
  {
    var base := if existing.Some? then existing.value else NewCandidate(p.peer, p.kind);
    base.(healthy := true,
          relayPeer := p.relayPeer,
          mtu := if d.mtu.Some? then d.mtu else base.mtu,
          origin := d.origin,
          role := d.role,
          establishedAsRelayed := d.asRelayed,
          latestId := Last(ids),
          firstSeen := if base.firstSeen.None? then d.now else base.firstSeen,
          lastEstablished := d.now,
          connections :=
            if id.Some? then |ids|
            else if existing.Some? then Min(base.connections + 1, U32_MAX) else 1)
  }

  function UnconfirmedCandidate(existing: Option<Candidate>, p: Path, d: Details): Candidate {
    var base := if existing.Some? then existing.value else NewCandidate(p.peer, p.kind);
    base.(healthy := false,
          relayPeer := p.relayPeer,
          mtu := if d.mtu.Some? then d.mtu else base.mtu,
          origin := d.origin,
          establishedAsRelayed := d.asRelayed,
          latestId := None,
          firstSeen := if base.firstSeen.None? then d.now else base.firstSeen,
          lastEstablished := d.now,
          connections := 1)
  }

  /** `ids` are the tracked ids after the loss and `wasTracked` whether the lost id was among them. */
  function LostCandidate(c: Candidate, id: Option<ConnId>, ids: seq<ConnId>, wasTracked: bool): Candidate {
    var connections :=
      if id.None? then (if c.connections == 0 then 0 else c.connections - 1)
      else if wasTracked then |ids| else c.connections;
    var latest := if id.None? || wasTracked then Last(ids) else c.latestId;
    if connections == 0 then c.(connections := 0, healthy := false, latestId := None)
    else c.(connections := connections, latestId := latest)
  }

  function DemotedCandidate(c: Candidate): Candidate {
    c.(healthy := false, connections := 0, latestId := None,
       penalty := Min(Min(c.penalty + PATH_FAILURE_PENALTY_STEP, U16_MAX), PATH_FAILURE_PENALTY_MAX))
  }

  function MeasuredCandidate(c: Candidate, rtt: nat): Candidate {
    c.(healthy := true, rtt := Some(rtt),
       penalty := if c.penalty < PATH_FAILURE_PENALTY_RECOVERY_STEP then 0
                  else c.penalty - PATH_FAILURE_PENALTY_RECOVERY_STEP)
  }

  function InvalidatedCandidate(c: Candidate): Candidate {
    c.(healthy := false, connections := 0, latestId := None)
  }

  function InvalidateAll(cs: seq<Candidate>): seq<Candidate> {
    seq(|cs|, i requires 0 <= i < |cs| => InvalidatedCandidate(cs[i]))
  }

  function OtherCandidates(cs: seq<Candidate>, peer: Peer): seq<Candidate> {
    if cs == [] then [] else (if cs[0].peer == peer then [] else [cs[0]]) + OtherCandidates(cs[1..], peer)
  }

  function OtherInventories(inv: seq<Inventory>, peer: Peer): seq<Inventory> {
    if inv == [] then [] else (if inv[0].peer == peer then [] else [inv[0]]) + OtherInventories(inv[1..], peer)
  }

  function LoweredMtu(c: Candidate, mtu: nat): Candidate {
    if c.healthy && (c.mtu.None? || mtu < c.mtu.value) then c.(mtu := Some(mtu)) else c
  }

  function RaisedMtu(c: Candidate, mtu: nat): Candidate {
    if c.healthy && c.mtu.Some? && mtu > c.mtu.value then c.(mtu := Some(mtu)) else c
  }

  /** A change to one candidate that exists already. */
  datatype Edit = Demote | Measure(rtt: nat) | Lower(mtu: nat) | Raise(mtu: nat)

  function Edited(c: Candidate, edit: Edit): Candidate {
    match edit
    case Demote => DemotedCandidate(c)
    case Measure(rtt) => MeasuredCandidate(c, rtt)
    case Lower(mtu) => LoweredMtu(c, mtu)
    case Raise(mtu) => RaisedMtu(c, mtu)
  }

  function EditCandidate(cs: seq<Candidate>, p: Path, edit: Edit): seq<Candidate> {
    match CandidateAt(cs, p)
    case None => cs
    case Some(c) => PutCandidate(cs, p, Edited(c, edit))
  }

  function LoseConnection(s: PathState, p: Path, id: Option<ConnId>): PathState {
    var inv := ForgetId(s.inventories, p, id);
    var wasTracked := id.Some? && id.value in TrackedAt(s.inventories, p);
    match CandidateAt(s.candidates, p)
    case None => PathState(s.candidates, inv)
    case Some(c) =>
      var lost := LostCandidate(c, id, TrackedAt(inv, p), wasTracked);
      PathState(PutCandidate(s.candidates, p, lost), if lost.connections == 0 then ClearInventory(inv, p) else inv)
  }

  function Do(s: PathState, op: Op): PathState {
    match op
    case Upsert(c) => s.(candidates := PutCandidate(s.candidates, PathOf(c), c))
    case Established(p, d, id) =>
      var inv := RecordId(s.inventories, p, id);
      var c := EstablishedCandidate(CandidateAt(s.candidates, p), p, d, id, TrackedAt(inv, p));
      PathState(PutCandidate(s.candidates, p, c), inv)
    case Unconfirmed(p, d) =>
      s.(candidates := PutCandidate(s.candidates, p, UnconfirmedCandidate(CandidateAt(s.candidates, p), p, d)))
    case Lost(p, id) => LoseConnection(s, p, id)
    case MarkUnhealthy(p) =>
      PathState(EditCandidate(s.candidates, p, Demote), ClearInventory(s.inventories, p))
    case Rtt(p, rtt) => s.(candidates := EditCandidate(s.candidates, p, Measure(rtt)))
    case StreamRtt(p, id, rtt) =>
      if id in TrackedAt(s.inventories, p)
      then s.(candidates := EditCandidate(s.candidates, p, Measure(rtt)))
      else s
    case LowerMtu(p, mtu) => s.(candidates := EditCandidate(s.candidates, p, Lower(mtu)))
    case RaiseMtu(p, mtu, ceiling) =>
      s.(candidates := EditCandidate(s.candidates, p, Raise(Min(mtu, ceiling))))
    case ForgetPeer(peer) =>
      PathState(OtherCandidates(s.candidates, peer), OtherInventories(s.inventories, peer))
    case Invalidate => PathState(InvalidateAll(s.candidates), [])
  }

  /** The operations that answer with a selection change. */
  predicate Reports(op: Op) {
    op.Established? || op.Unconfirmed? || op.Lost? || op.MarkUnhealthy? || op.Rtt? || op.StreamRtt?
  }

  function Reported(s: PathState, op: Op): Option<Change> {
    if Reports(op) then SelectionChange(s.candidates, Do(s, op).candidates, op.path.peer) else None
  }
}
