/** Lists that grew in order of issue can always be handed over. */
module Chronology {
  import opened Prelude
  import opened Records
  import opened Ledger
  import opened Replay
  import opened Sorting
  import opened Merge
  import opened Transfer
  import Deadline
  import History
  import Singles

  function EventsIn(records: seq<Record>): seq<Event> {
    seq(|records|, i requires 0 <= i < |records| => Event(i, records[i]))
  }

  ghost predicate OrdersAll(records: seq<Record>, ordered: seq<Event>) {
    SortedPermutation(EventsIn(records), ordered, EventLeq)
  }

  /** The ledger accepts every record of the list. */
  ghost predicate Whole(records: seq<Record>, roots: set<Peer>) {
    forall ordered, i ::
      OrdersAll(records, ordered) && 0 <= i < |records| ==> Accepts(ReplayFrom(EMPTY, ordered, roots), i)
  }

  lemma AllIssued(records: seq<Record>, now: nat)
    requires forall r :: r in records ==> r.issuedAt <= now
    ensures IssuedBy(records, now) == EventsIn(records)
  {
    Singles.IssuedAll(records, now);
  }

  function LatestIssue(records: seq<Record>): (t: nat)
    ensures forall r :: r in records ==> r.issuedAt <= t
    ensures records == [] || exists r :: r in records && r.issuedAt == t
  {
    if records == [] then 0
    else
      var front, last := records[..|records| - 1], records[|records| - 1];
      assert records == front + [last];
      var t := LatestIssue(front);
      if front == [] || t < last.issuedAt then last.issuedAt else t
  }

  /** Whatever is appended was issued after everything stored. */
  ghost predicate InOrder(records: seq<Record>, after: seq<Record>) {
    && records <= after
    && forall i, j :: 0 <= i < |records| <= j < |after| ==> records[i].issuedAt < after[j].issuedAt
  }

  lemma {:induction false} LaterNotIssued(records: seq<Record>, after: seq<Record>, now: nat)
    requires records <= after && forall j :: |records| <= j < |after| ==> after[j].issuedAt > now
    ensures IssuedBy(after, now) == IssuedBy(records, now)
    decreases |after|
  {
    if |after| == |records| {
      assert after == records;
    } else {
      LaterNotIssued(records, after[..|after| - 1], now);
    }
  }

  /** In an order of the longer list the shorter list comes first. */
  lemma StoredFirst(records: seq<Record>, after: seq<Record>, ordered: seq<Event>) returns (n: nat)
    requires InOrder(records, after) && records != [] && OrdersAll(after, ordered)
    ensures History.Boundary(ordered, n) && OrdersAll(records, ordered[..n])
  {
    var t, now := LatestIssue(records), LatestIssue(after);
    AllIssued(after, now);
    AllIssued(records, t);
    assert forall r :: r in records ==> r in after;
    forall j | |records| <= j < |after|
      ensures after[j].issuedAt > t
    {
      var r :| r in records && r.issuedAt == t;
      var i :| 0 <= i < |records| && records[i] == r;
    }
    LaterNotIssued(records, after, t);
    n := History.IssuedPrefix(ordered, t);
    History.PrefixIsOrder(after, t, now, ordered);
  }

  lemma StillAccepted(ordered: seq<Event>, n: nat, roots: set<Peer>, i: nat)
    requires History.Boundary(ordered, n) && Accepts(ReplayFrom(EMPTY, ordered[..n], roots), i)
    ensures Accepts(ReplayFrom(EMPTY, ordered, roots), i)
  {
    var early := ReplayFrom(EMPTY, ordered[..n], roots);
    History.ReplaySplits(EMPTY, ordered, n, roots);
    Deadline.ReplayGrows(early, ordered[n..], roots);
    var k :| 0 <= k < |early.accepted| && early.accepted[k].event.index == i;
    assert ReplayFrom(EMPTY, ordered, roots).accepted[k] == early.accepted[k];
  }

  lemma NewAccepted(records: seq<Record>, after: seq<Record>, roots: set<Peer>, now: nat, e: Evaluation,
                    ordered: seq<Event>, i: nat)
    requires VersionUnique(after) && Distinct(after) && forall r :: r in after ==> r.issuedAt <= now
    requires IsEvaluation(after, roots, now, e) && i < |after| && Accepts(e, i) && OrdersAll(after, ordered)
    ensures Accepts(ReplayFrom(EMPTY, ordered, roots), i)
  {
    AllIssued(after, now);
    UniqueIsTieless(after);
    var f := Evaluate(ordered, roots, now);
    EvaluationIsOne(after, roots, now, e, f);
    var k :| 0 <= k < |e.accepted| && e.accepted[k].event.index == i;
    assert ReplayFrom(EMPTY, ordered, roots).accepted == f.accepted;
  }

  lemma GrowsWhole(records: seq<Record>, after: seq<Record>, roots: set<Peer>, now: nat, e: Evaluation)
    requires Whole(records, roots) && InOrder(records, after) && VersionUnique(after) && Distinct(after)
    requires forall r :: r in after ==> r.issuedAt <= now
    requires IsEvaluation(after, roots, now, e) && forall i :: |records| <= i < |after| ==> Accepts(e, i)
    ensures Whole(after, roots)
  {
    forall ordered, i | OrdersAll(after, ordered) && 0 <= i < |after|
      ensures Accepts(ReplayFrom(EMPTY, ordered, roots), i)
    {
      if i < |records| {
        var n := StoredFirst(records, after, ordered);
        StillAccepted(ordered, n, roots, i);
      } else {
        NewAccepted(records, after, roots, now, e, ordered, i);
      }
    }
  }

  /** What every replica keeps that receives its records in order of issue. */
  ghost predicate Orderly(records: seq<Record>, roots: set<Peer>, network: string, signed: Record -> bool) {
    && Whole(records, roots) && VersionUnique(records) && Distinct(records)
    && CheckRecords(records, network, signed).Pass?
  }

  lemma MergeStaysOrderly(records: seq<Record>, d: Delivery, network: string, signed: Record -> bool,
                          result: Result<MergeStats, RecordError>, after: seq<Record>)
    requires IsMerge(records, d, network, signed, result, after) && InOrder(records, after)
    requires Orderly(records, d.roots, network, signed)
    ensures Orderly(after, d.roots, network, signed)
  {
    if after != records {
      var e :| IsEvaluation(after, d.roots, Horizon(d.now), e) && Concludes(records, d, after, e, result, after);
      MergeIsAtomicAppend(records, d, network, signed, result, after);
      MergedPassesChecks(records, d, network, signed);
      IssuedByHorizon(records, after, d);
      GrowsWhole(records, after, d.roots, Horizon(d.now), e);
    }
  }

  lemma IssuedByHorizon(records: seq<Record>, after: seq<Record>, d: Delivery)
    requires Extends(records, d, after) && InOrder(records, after) && after != records
    ensures forall r :: r in after ==> r.issuedAt <= Horizon(d.now)
  {
    assert |after| > |records|;
    forall i | 0 <= i < |after|
      ensures after[i].issuedAt <= Horizon(d.now)
    {
      if i < |records| {
        assert records[i].issuedAt < after[|records|].issuedAt;
      }
    }
  }

  /** A merge of only newer records. */
  ghost predicate Appends(records: seq<Record>, d: Delivery, network: string, signed: Record -> bool, after: seq<Record>) {
    InOrder(records, after) && exists result :: IsMerge(records, d, network, signed, result, after)
  }

  /** Deliveries merged one after the other under fixed roots, each bringing only newer records. */
  ghost predicate Chronicle(lists: seq<seq<Record>>, deliveries: seq<Delivery>, roots: set<Peer>,
                            network: string, signed: Record -> bool)
  {
    && |lists| == |deliveries| + 1 && lists[0] == []
    && forall k :: 0 <= k < |deliveries| ==>
      deliveries[k].roots == roots && Appends(lists[k], deliveries[k], network, signed, lists[k + 1])
  }

  lemma AppendStaysOrderly(records: seq<Record>, d: Delivery, network: string, signed: Record -> bool, after: seq<Record>)
    requires Appends(records, d, network, signed, after) && Orderly(records, d.roots, network, signed)
    ensures Orderly(after, d.roots, network, signed)
  {
    var result :| IsMerge(records, d, network, signed, result, after);
    MergeStaysOrderly(records, d, network, signed, result, after);
  }

  lemma NothingIsOrderly(roots: set<Peer>, network: string, signed: Record -> bool)
    ensures Orderly([], roots, network, signed)
  {}

  lemma {:induction false} ChronicleIsOrderly(lists: seq<seq<Record>>, deliveries: seq<Delivery>, roots: set<Peer>,
                                              network: string, signed: Record -> bool, k: nat)
    requires Chronicle(lists, deliveries, roots, network, signed) && k <= |deliveries|
    ensures Orderly(lists[k], roots, network, signed)
  {
    if k == 0 {
      NothingIsOrderly(roots, network, signed);
    } else {
      ChronicleIsOrderly(lists, deliveries, roots, network, signed, k - 1);
      AppendStaysOrderly(lists[k - 1], deliveries[k - 1], network, signed, lists[k]);
    }
  }

  /**
   A list that grew in order of issue under fixed roots is taken over whole by an empty replica with these roots
   exactly when it fits and is not ahead of the receiver's clock by more than the skew.
   */
  lemma OrderlyListTransfers(lists: seq<seq<Record>>, deliveries: seq<Delivery>, roots: set<Peer>,
                             d: Delivery, network: string, signed: Record -> bool,
                             result: Result<MergeStats, RecordError>, after: seq<Record>)
    requires Chronicle(lists, deliveries, roots, network, signed)
    requires d.incoming == lists[|deliveries|] && d.roots == roots && IsMerge([], d, network, signed, result, after)
    ensures result.Ok? <==> |d.incoming| <= d.capacity && Timely(d.incoming, 0, d.now)
    ensures after == if result.Ok? then d.incoming else []
  {
    var x := d.incoming;
    ChronicleIsOrderly(lists, deliveries, roots, network, signed, |deliveries|);
    TransferIsExact(x, d, network, signed, result, after);
    if Timely(x, 0, d.now) {
      WholeIsAccepted(x, roots, Horizon(d.now));
    }
  }

  lemma WholeIsAccepted(x: seq<Record>, roots: set<Peer>, now: nat)
    requires Whole(x, roots) && forall i :: 0 <= i < |x| ==> x[i].issuedAt <= now
    ensures forall i :: 0 <= i < |x| ==> Accepts(EvaluationOf(x, roots, now), i)
  {
    AllIssued(x, now);
    var e := EvaluationOf(x, roots, now);
    assert IsEvaluation(x, roots, now, e);
    var ordered: seq<Event> :| IsEventOrder(x, now, ordered) && e == Evaluate(ordered, roots, now);
    var last := ReplayFrom(EMPTY, ordered, roots);
    assert OrdersAll(x, ordered) && last.accepted == e.accepted;
    forall i | 0 <= i < |x|
      ensures Accepts(e, i)
    {
      assert Accepts(last, i);
      var k :| 0 <= k < |last.accepted| && last.accepted[k].event.index == i;
    }
  }
}
