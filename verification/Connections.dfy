/**
 The bounded list of connection ids kept per path: an array of eight slots used as a move-to-back
 list that drops its oldest entry when full.
 */
module Connections {
  import opened Prelude
  import opened Sorting

  type ConnId = nat

  const MAX_TRACKED := 8

  type Slots = s: seq<Option<ConnId>> | |s| == MAX_TRACKED witness seq(MAX_TRACKED, _ => None)

  /** The ids in the slots, in slot order. */
  function Flatten(slots: seq<Option<ConnId>>): (ids: seq<ConnId>)
    ensures |ids| <= |slots|
  {
    if slots == [] then []
    else Flatten(slots[..|slots| - 1]) +
         (if slots[|slots| - 1].Some? then [slots[|slots| - 1].value] else [])
  }

  /** The packed slots that hold `ids`. */
  function Fill(ids: seq<ConnId>): Slots
    requires |ids| <= MAX_TRACKED
  {
    seq(MAX_TRACKED, i requires 0 <= i < MAX_TRACKED => if i < |ids| then Some(ids[i]) else None)
  }

  function Remove(ids: seq<ConnId>, id: ConnId): (r: seq<ConnId>)
    ensures |r| <= |ids|
    ensures forall x :: x in r <==> x in ids && x != id
    ensures id !in ids ==> r == ids
  {
    if ids == [] then []
    else
      assert ids == ids[..|ids| - 1] + [ids[|ids| - 1]];
      Remove(ids[..|ids| - 1], id) + (if ids[|ids| - 1] == id then [] else [ids[|ids| - 1]])
  }

  function DropOldest(ids: seq<ConnId>): seq<ConnId> {
    if |ids| == MAX_TRACKED then ids[1..] else ids
  }

  /** Remove the id, drop the oldest if that leaves no room, append the id. */
  function MoveToBack(ids: seq<ConnId>, id: ConnId): (r: seq<ConnId>)
    requires |ids| <= MAX_TRACKED
    ensures |r| <= MAX_TRACKED && r != [] && r[|r| - 1] == id
  {
    DropOldest(Remove(ids, id)) + [id]
  }

  function Last(ids: seq<ConnId>): Option<ConnId> {
    if ids == [] then None else Some(ids[|ids| - 1])
  }

  datatype InventoryUpdate = InventoryUpdate(latest: Option<ConnId>, tracked: nat, wasTracked: bool)

  function UpdateOf(ids: seq<ConnId>, wasTracked: bool): InventoryUpdate {
    InventoryUpdate(Last(ids), |ids|, wasTracked)
  }

  lemma {:induction false} FlattenPrefix(ids: seq<ConnId>, n: nat)
    requires |ids| <= MAX_TRACKED && n <= MAX_TRACKED
    ensures Flatten(Fill(ids)[..n]) == if n <= |ids| then ids[..n] else ids
  {
    if n > 0 {
      FlattenPrefix(ids, n - 1);
      assert Fill(ids)[..n][..n - 1] == Fill(ids)[..n - 1];
      if n <= |ids| {
        assert ids[..n] == ids[..n - 1] + [ids[n - 1]];
      }
    }
  }

  /** Packing loses nothing: reading the packed slots gives the ids back. */
  lemma FlattenFill(ids: seq<ConnId>)
    requires |ids| <= MAX_TRACKED
    ensures Flatten(Fill(ids)) == ids
  {
    FlattenPrefix(ids, MAX_TRACKED);
    assert Fill(ids)[..MAX_TRACKED] == Fill(ids);
    assert ids[..|ids|] == ids;
  }

  // The in-place operations

  /** What is kept of the first `n` slots. */
  ghost function Kept(slots: seq<Option<ConnId>>, n: nat, id: ConnId): (ids: seq<ConnId>)
    requires n <= |slots|
    ensures |ids| <= n
  {
    Remove(Flatten(slots[..n]), id)
  }

  lemma KeptStep(slots: seq<Option<ConnId>>, n: nat, id: ConnId)
    requires n < |slots|
    ensures Kept(slots, n + 1, id) ==
      Kept(slots, n, id) + if slots[n].Some? && slots[n].value != id then [slots[n].value] else []
  {
    assert slots[..n + 1][..n] == slots[..n];
    var before, after := Flatten(slots[..n]), Flatten(slots[..n + 1]);
    if slots[n].Some? {
      assert after == before + [slots[n].value] && after[..|before|] == before;
    } else {
      assert after == before;
    }
  }

  /** Copies the other ids to the front of a fresh array. */
  method CompactWithout(slots: array<Option<ConnId>>, id: ConnId)
    returns (compacted: array<Option<ConnId>>, len: nat)
    requires slots.Length == MAX_TRACKED
    ensures fresh(compacted) && compacted.Length == MAX_TRACKED
    ensures len == |Remove(Flatten(slots[..]), id)| && compacted[..] == Fill(Remove(Flatten(slots[..]), id))
  {
    compacted := new Option<ConnId>[MAX_TRACKED](_ => None);
    len := 0;
    ghost var s := slots[..];
    ghost var kept: seq<ConnId> := [];
    assert Kept(s, 0, id) == kept;
    for i := 0 to MAX_TRACKED
      invariant kept == Kept(s, i, id) && len == |kept| && len <= i
      invariant forall k :: 0 <= k < len ==> compacted[k] == Some(kept[k])
      invariant forall k :: len <= k < MAX_TRACKED ==> compacted[k] == None
    {
      KeptStep(s, i, id);
      assert slots[i] == s[i];
      if slots[i].Some? && slots[i].value != id {
        compacted[len] := slots[i];
        kept := kept + [slots[i].value];
        len := len + 1;
      }
    }
    FilledWith(compacted, kept);
    assert s[..MAX_TRACKED] == s;
  }

  method Contains(slots: array<Option<ConnId>>, id: ConnId) returns (found: bool)
    ensures found <==> id in Flatten(slots[..])
  {
    found := false;
    for i := 0 to slots.Length
      invariant found <==> id in Flatten(slots[..i])
    {
      assert slots[..i + 1][..i] == slots[..i];
      if slots[i] == Some(id) {
        found := true;
      }
    }
    assert slots[..slots.Length] == slots[..];
  }

  lemma FilledWith(slots: array<Option<ConnId>>, ids: seq<ConnId>)
    requires slots.Length == MAX_TRACKED && |ids| <= MAX_TRACKED
    requires forall k :: 0 <= k < |ids| ==> slots[k] == Some(ids[k])
    requires forall k :: |ids| <= k < MAX_TRACKED ==> slots[k] == None
    ensures slots[..] == Fill(ids)
  {}

  method Summarize(slots: array<Option<ConnId>>, wasTracked: bool) returns (u: InventoryUpdate)
    ensures u == UpdateOf(Flatten(slots[..]), wasTracked)
  {
    var latest, tracked := None, 0;
    for i := 0 to slots.Length
      invariant latest == Last(Flatten(slots[..i])) && tracked == |Flatten(slots[..i])|
    {
      assert slots[..i + 1][..i] == slots[..i];
      if slots[i].Some? {
        latest, tracked := slots[i], tracked + 1;
      }
    }
    assert slots[..slots.Length] == slots[..];
    u := InventoryUpdate(latest, tracked, wasTracked);
  }

  method CopyInto(target: array<Option<ConnId>>, source: array<Option<ConnId>>)
    requires target.Length == source.Length && target != source
    modifies target
    ensures target[..] == source[..]
  {
    forall i | 0 <= i < target.Length {
      target[i] := source[i];
    }
  }

  /** Makes room by shifting out the oldest id if need be, and appends. */
  method PushBack(slots: array<Option<ConnId>>, len: nat, id: ConnId, ghost kept: seq<ConnId>)
    requires slots.Length == MAX_TRACKED && len == |kept| <= MAX_TRACKED && slots[..] == Fill(kept)
    modifies slots
    ensures slots[..] == Fill(DropOldest(kept) + [id])
  {
    assert forall k :: 0 <= k < MAX_TRACKED ==> slots[k] == Fill(kept)[k];
    if len == MAX_TRACKED {
      forall i | 0 <= i < MAX_TRACKED - 1 {
        slots[i] := slots[i + 1];
      }
      slots[MAX_TRACKED - 1] := Some(id);
    } else {
      slots[len] := Some(id);
    }
  }

  method RecordConnectionId(slots: array<Option<ConnId>>, id: Option<ConnId>) returns (u: InventoryUpdate)
    requires slots.Length == MAX_TRACKED
    modifies slots
    ensures id.None? ==> slots[..] == old(slots[..]) && u == UpdateOf(Flatten(old(slots[..])), false)
    ensures id.Some? ==>
      var ids := MoveToBack(Flatten(old(slots[..])), id.value);
      slots[..] == Fill(ids) && u == UpdateOf(ids, true)
  {
    if id.None? {
      u := Summarize(slots, false);
      return;
    }
    ghost var ids := MoveToBack(Flatten(slots[..]), id.value);
    var compacted, len := CompactWithout(slots, id.value);
    PushBack(compacted, len, id.value, Remove(Flatten(slots[..]), id.value));
    CopyInto(slots, compacted);
    FlattenFill(ids);
    u := Summarize(slots, true);
  }

  method ForgetConnectionId(slots: array<Option<ConnId>>, id: Option<ConnId>) returns (u: InventoryUpdate)
    requires slots.Length == MAX_TRACKED
    modifies slots
    ensures id.None? ==> slots[..] == old(slots[..]) && u == UpdateOf(Flatten(old(slots[..])), false)
    ensures id.Some? ==>
      var ids := Remove(Flatten(old(slots[..])), id.value);
      slots[..] == Fill(ids) && u == UpdateOf(ids, id.value in Flatten(old(slots[..])))
  {
    if id.None? {
      u := Summarize(slots, false);
      return;
    }
    var found := Contains(slots, id.value);
    var compacted, len := CompactWithout(slots, id.value);
    ghost var ids := Remove(Flatten(slots[..]), id.value);
    CopyInto(slots, compacted);
    FlattenFill(ids);
    u := Summarize(slots, found);
  }

  // What the list says about a path's connections

  /** A connection opens or closes, or a reset of the path counts as closing all of its connections. */
  datatype ConnEvent = Opened(id: ConnId) | ClosedConn(id: ConnId) | ClosedAll

  /** The ids tracked after a path's connection events. */
  function Tracked(events: seq<ConnEvent>): (ids: seq<ConnId>)
    ensures |ids| <= MAX_TRACKED
  {
    if events == [] then []
    else match events[|events| - 1]
      case Opened(id) => MoveToBack(Tracked(events[..|events| - 1]), id)
      case ClosedConn(id) => Remove(Tracked(events[..|events| - 1]), id)
      case ClosedAll => []
  }

  /** The connections that are open after the events. */
  ghost function OpenIds(events: seq<ConnEvent>): set<ConnId> {
    if events == [] then {}
    else match events[|events| - 1]
      case Opened(id) => OpenIds(events[..|events| - 1]) + {id}
      case ClosedConn(id) => OpenIds(events[..|events| - 1]) - {id}
      case ClosedAll => {}
  }

  /** When a connection was last established. */
  function LastOpened(events: seq<ConnEvent>, id: ConnId): (n: int)
    ensures -1 <= n < |events|
  {
    if events == [] then -1
    else if events[|events| - 1] == Opened(id) then |events| - 1
    else LastOpened(events[..|events| - 1], id)
  }

  ghost predicate ByEstablishment(events: seq<ConnEvent>, ids: seq<ConnId>) {
    forall i, j :: 0 <= i < j < |ids| ==> LastOpened(events, ids[i]) < LastOpened(events, ids[j])
  }

  ghost function IdSet(ids: seq<ConnId>): set<ConnId> {
    set x | x in ids
  }

  lemma {:induction false} DistinctSize(ids: seq<ConnId>)
    requires Distinct(ids)
    ensures |IdSet(ids)| == |ids|
  {
    if ids != [] {
      var front, last := ids[..|ids| - 1], ids[|ids| - 1];
      DistinctSize(front);
      assert ids == front + [last];
      assert IdSet(ids) == IdSet(front) + {last};
      assert forall i :: 0 <= i < |front| ==> front[i] == ids[i] && ids[i] != last;
    }
  }

  /** Removing an id keeps the others in their order. */
  lemma {:induction false} RemoveKeepsOrder(events: seq<ConnEvent>, ids: seq<ConnId>, id: ConnId)
    requires ByEstablishment(events, ids)
    ensures ByEstablishment(events, Remove(ids, id))
  {
    if ids != [] {
      var front, last := ids[..|ids| - 1], ids[|ids| - 1];
      RemoveKeepsOrder(events, front, id);
      var kept := Remove(front, id);
      assert ids == front + [last];
      forall i | 0 <= i < |kept|
        ensures LastOpened(events, kept[i]) < LastOpened(events, last)
      {
        assert kept[i] in front;
      }
    }
  }

  lemma OrderIsDistinct(events: seq<ConnEvent>, ids: seq<ConnId>)
    requires ByEstablishment(events, ids)
    ensures Distinct(ids)
  {
    forall i, j | 0 <= i < j < |ids|
      ensures ids[i] != ids[j]
    {
      assert LastOpened(events, ids[i]) < LastOpened(events, ids[j]);
    }
  }

  lemma LastOpenedElsewhere(events: seq<ConnEvent>, ids: seq<ConnId>)
    requires events != [] && forall id :: id in ids ==> events[|events| - 1] != Opened(id)
    requires ByEstablishment(events[..|events| - 1], ids)
    ensures ByEstablishment(events, ids)
  {
    assert forall i :: 0 <= i < |ids| ==> ids[i] in ids;
  }

  lemma AppendNewest(events: seq<ConnEvent>, ids: seq<ConnId>, id: ConnId)
    requires events != [] && events[|events| - 1] == Opened(id) && id !in ids
    requires ByEstablishment(events[..|events| - 1], ids)
    ensures ByEstablishment(events, DropOldest(ids) + [id])
  {
    LastOpenedElsewhere(events, ids);
    var shift := if |ids| == MAX_TRACKED then 1 else 0;
    var after := DropOldest(ids) + [id];
    forall i, j | 0 <= i < j < |after|
      ensures LastOpened(events, after[i]) < LastOpened(events, after[j])
    {
      assert after[i] == ids[i + shift] && after[i] in ids;
      if j == |after| - 1 {
        assert LastOpened(events, after[i]) == LastOpened(events[..|events| - 1], after[i]);
      } else {
        assert after[j] == ids[j + shift];
      }
    }
  }

  /** Whatever happened, the tracked ids are open connections without duplicates, by most recent establishment. */
  lemma {:induction false} TrackedAreOpen(events: seq<ConnEvent>)
    ensures IdSet(Tracked(events)) <= OpenIds(events)
    ensures ByEstablishment(events, Tracked(events)) && Distinct(Tracked(events))
  {
    if events != [] {
      var front, event := events[..|events| - 1], events[|events| - 1];
      TrackedAreOpen(front);
      match event {
        case Opened(id) =>
          var kept := Remove(Tracked(front), id);
          RemoveKeepsOrder(front, Tracked(front), id);
          AppendNewest(events, kept, id);
          assert forall x :: x in DropOldest(kept) ==> x in kept;
        case ClosedConn(id) =>
          RemoveKeepsOrder(front, Tracked(front), id);
          LastOpenedElsewhere(events, Remove(Tracked(front), id));
        case ClosedAll =>
      }
      OrderIsDistinct(events, Tracked(events));
    }
  }

  /** At no time were more connections open than the list can hold. */
  ghost predicate NeverCrowded(events: seq<ConnEvent>) {
    |OpenIds(events)| <= MAX_TRACKED && (events != [] ==> NeverCrowded(events[..|events| - 1]))
  }

  lemma RoomForOneMore(kept: seq<ConnId>, id: ConnId)
    requires Distinct(kept) && id !in kept && |IdSet(kept) + {id}| <= MAX_TRACKED
    ensures DropOldest(kept) == kept && IdSet(kept + [id]) == IdSet(kept) + {id}
  {
    DistinctSize(kept);
    assert id !in IdSet(kept);
  }

  /** While no more than eight connections were ever open at once, exactly the open ones are tracked. */
  lemma {:induction false} TracksExactlyOpen(events: seq<ConnEvent>)
    requires NeverCrowded(events)
    ensures IdSet(Tracked(events)) == OpenIds(events)
  {
    if events != [] && !events[|events| - 1].ClosedAll? {
      var front, event := events[..|events| - 1], events[|events| - 1];
      TracksExactlyOpen(front);
      TrackedAreOpen(front);
      var kept := Remove(Tracked(front), event.id);
      RemoveKeepsOrder(front, Tracked(front), event.id);
      OrderIsDistinct(front, kept);
      assert IdSet(kept) == OpenIds(front) - {event.id};
      if event.Opened? {
        assert OpenIds(events) == IdSet(kept) + {event.id};
        RoomForOneMore(kept, event.id);
      }
    }
  }
}
