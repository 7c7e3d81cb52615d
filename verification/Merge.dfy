/** Merging received records into the stored list. */
module Merge {
  import opened Prelude
  import opened Records
  import opened Ledger
  import opened Replay
  import opened Anchors
  import opened Sorting
  import Conservation
  import Convergence
  import opened Safety
  import Versions

  datatype MergeStats = MergeStats(accepted: nat, ignored: nat)

  /** One delivery of records: what arrived, when, and the receiver's roots and capacity at that time. */
  datatype Delivery = Delivery(incoming: seq<Record>, now: U64, roots: set<Peer>, capacity: nat)

  predicate Slotted(records: seq<Record>, r: Record) {
    exists i :: 0 <= i < |records| && SameSlot(records[i], r)
  }

  /** The append loop: what `incoming` adds to `merged`, or the first error. */
  function Absorb(merged: seq<Record>, d: Delivery): Result<seq<Record>, RecordError>
    decreases |d.incoming|
  {
    if d.incoming == [] then Ok(merged) else
    var r, rest := d.incoming[0], d.(incoming := d.incoming[1..]);
    if r in merged then Absorb(merged, rest)
    else if Slotted(merged, r) then Err(Versions.ConflictError(r))
    else if r.issuedAt > Horizon(d.now) then Err(IssuedInFuture)
    else if |merged| >= d.capacity then Err(TooManyRecords(d.capacity, |merged| + 1))
    else Absorb(merged + [r], rest)
  }

  /** The checks before the append loop and its outcome. */
  function Prepare(records: seq<Record>, d: Delivery, network: string, signed: Record -> bool)
    : Result<seq<Record>, RecordError>
  {
    if CheckRecords(records, network, signed).Fail? then Err(CheckRecords(records, network, signed).error)
    else if Versions.Latest(records).Err? then Err(Versions.Latest(records).error)
    else if CheckRecords(d.incoming, network, signed).Fail? then Err(CheckRecords(d.incoming, network, signed).error)
    else match Absorb(records, d)
      case Err(error) => Err(error)
      case Ok(merged) =>
        if |merged| > d.capacity then Err(TooManyRecords(d.capacity, |merged|))
        else if Versions.Latest(merged).Err? then Err(Versions.Latest(merged).error)
        else Ok(merged)
  }

  predicate Accepts(e: Evaluation, i: nat) {
    exists k :: 0 <= k < |e.accepted| && e.accepted[k].event.index == i
  }

  /** What a merge may answer and leave behind. */
  ghost predicate IsMerge(records: seq<Record>, d: Delivery, network: string, signed: Record -> bool,
                          result: Result<MergeStats, RecordError>, after: seq<Record>)
  {
    match Prepare(records, d, network, signed)
    case Err(error) => result == Err(error) && after == records
    case Ok(merged) =>
      exists e :: IsEvaluation(merged, d.roots, Horizon(d.now), e) && Concludes(records, d, merged, e, result, after)
  }

  /** The new records stay only if the ledger accepts every one of them. */
  ghost predicate Concludes(records: seq<Record>, d: Delivery, merged: seq<Record>, e: Evaluation,
                            result: Result<MergeStats, RecordError>, after: seq<Record>)
  {
    if forall i :: |records| <= i < |merged| ==> Accepts(e, i)
    then
      && after == merged
      && result.Ok? && result.value.accepted == |merged| - |records|
      && result.value.accepted + result.value.ignored == |d.incoming|
    else
      && after == records
      && exists i: nat :: FirstUnaccepted(e, |records|, |merged|, i) && result == Err(UntrustedIssuer(merged[i].issuer))
  }

  ghost predicate FirstUnaccepted(e: Evaluation, low: nat, high: nat, i: nat) {
    low <= i < high && !Accepts(e, i) && forall j :: low <= j < i ==> Accepts(e, j)
  }

  method AppendNew(records: seq<Record>, d: Delivery) returns (result: Result<seq<Record>, RecordError>, stats: MergeStats)
    ensures result == Absorb(records, d)
    ensures result.Ok? ==> |result.value| - |records| == stats.accepted && stats.accepted + stats.ignored == |d.incoming|
  {
    var merged := records;
    stats := MergeStats(0, 0);
    for i := 0 to |d.incoming|
      invariant Absorb(records, d) == Absorb(merged, d.(incoming := d.incoming[i..]))
      invariant |merged| - |records| == stats.accepted && stats.accepted + stats.ignored == i
    {
      var r := d.incoming[i];
      assert d.incoming[i..][0] == r && d.incoming[i..][1..] == d.incoming[i + 1..];
      if r in merged {
        stats := stats.(ignored := stats.ignored + 1);
        continue;
      }
      if exists j :: 0 <= j < |merged| && SameSlot(merged[j], r) {
        return Err(Versions.ConflictError(r)), stats;
      }
      if r.issuedAt > Horizon(d.now) {
        return Err(IssuedInFuture), stats;
      }
      if |merged| >= d.capacity {
        return Err(TooManyRecords(d.capacity, |merged| + 1)), stats;
      }
      merged := merged + [r];
      stats := stats.(accepted := stats.accepted + 1);
    }
    return Ok(merged), stats;
  }

  method MergeRecords(records: seq<Record>, d: Delivery, network: string, signed: Record -> bool)
    returns (result: Result<MergeStats, RecordError>, after: seq<Record>)
    ensures IsMerge(records, d, network, signed, result, after)
  {
    after := records;
    var stored := CheckRecords(records, network, signed);
    if stored.Fail? {
      return Err(stored.error), after;
    }
    var versions := Versions.LatestRecords(records);
    if versions.Err? {
      return Err(versions.error), after;
    }
    var received := CheckRecords(d.incoming, network, signed);
    if received.Fail? {
      return Err(received.error), after;
    }
    var absorbed, stats := AppendNew(records, d);
    if absorbed.Err? {
      return Err(absorbed.error), after;
    }
    var merged := absorbed.value;
    if |merged| > d.capacity {
      return Err(TooManyRecords(d.capacity, |merged|)), after;
    }
    var evaluation := EvaluateLedger(merged, d.roots, Horizon(d.now));
    if evaluation.Err? {
      return Err(evaluation.error), after;
    }
    var e := evaluation.value;
    for i := |records| to |merged|
      invariant forall k :: |records| <= k < i ==> Accepts(e, k)
    {
      if !Accepts(e, i) {
        assert FirstUnaccepted(e, |records|, |merged|, i);
        assert Concludes(records, d, merged, e, Err(UntrustedIssuer(merged[i].issuer)), records);
        return Err(UntrustedIssuer(merged[i].issuer)), after;
      }
    }
    after := merged;
    assert Concludes(records, d, merged, e, Ok(stats), merged);
    return Ok(stats), after;
  }

  // What the append loop guarantees

  ghost predicate Extends(records: seq<Record>, d: Delivery, merged: seq<Record>) {
    && records <= merged
    && (|merged| <= d.capacity || merged == records)
    && (forall r :: r in d.incoming ==> r in merged)
    && (forall i :: |records| <= i < |merged| ==> merged[i] in d.incoming && merged[i].issuedAt <= Horizon(d.now))
    && (VersionUnique(records) ==> VersionUnique(merged))
    && (Distinct(records) ==> Distinct(merged))
  }

  lemma {:induction false} AbsorbExtends(records: seq<Record>, d: Delivery)
    requires Absorb(records, d).Ok?
    ensures Extends(records, d, Absorb(records, d).value)
    decreases |d.incoming|
  {
    if d.incoming != [] {
      var r, rest := d.incoming[0], d.(incoming := d.incoming[1..]);
      var next := if r in records then records else records + [r];
      assert forall x :: x in d.incoming <==> x == r || x in rest.incoming;
      AbsorbExtends(next, rest);
      assert r in next;
      assert VersionUnique(records) ==> VersionUnique(next);
      assert Distinct(records) ==> Distinct(next);
    }
  }

  lemma {:induction false} AbsorbKnown(records: seq<Record>, d: Delivery)
    requires forall r :: r in d.incoming ==> r in records
    ensures Absorb(records, d) == Ok(records)
    decreases |d.incoming|
  {
    if d.incoming != [] {
      assert d.incoming[0] in d.incoming;
      AbsorbKnown(records, d.(incoming := d.incoming[1..]));
    }
  }

  /** An error leaves the stored list untouched; a success only appends, within capacity, and accounts for every record. */
  lemma MergeIsAtomicAppend(records: seq<Record>, d: Delivery, network: string, signed: Record -> bool,
                            result: Result<MergeStats, RecordError>, after: seq<Record>)
    requires IsMerge(records, d, network, signed, result, after)
    ensures result.Err? ==> after == records
    ensures result.Ok? ==>
      && Extends(records, d, after) && |after| <= d.capacity
      && result.value.accepted == |after| - |records|
      && result.value.accepted + result.value.ignored == |d.incoming|
  {
    if Prepare(records, d, network, signed).Ok? {
      AbsorbExtends(records, d);
    }
  }

  /** Every record from position `start` on was accepted. */
  ghost predicate AcceptedFrom(e: Evaluation, records: seq<Record>, start: nat) {
    forall i :: start <= i < |records| ==> Logged(e.accepted, Event(i, records[i]))
  }

  lemma AcceptsLogged(records: seq<Record>, roots: set<Peer>, now: nat, e: Evaluation, i: nat)
    requires IsEvaluation(records, roots, now, e) && i < |records| && Accepts(e, i)
    ensures Logged(e.accepted, Event(i, records[i]))
  {
    var k :| 0 <= k < |e.accepted| && e.accepted[k].event.index == i;
    Conservation.AcceptedFromList(records, roots, now, e, k);
    assert e.accepted[k].event == Event(i, records[i]);
  }

  /** A success appends only records that the ledger accepts at the clock-skew horizon. */
  lemma MergeAppendsAccepted(records: seq<Record>, d: Delivery, network: string, signed: Record -> bool,
                             stats: MergeStats, after: seq<Record>)
    requires IsMerge(records, d, network, signed, Ok(stats), after)
    ensures exists e :: IsEvaluation(after, d.roots, Horizon(d.now), e) && AcceptedFrom(e, after, |records|)
  {
    var e :| IsEvaluation(after, d.roots, Horizon(d.now), e) && Concludes(records, d, after, e, Ok(stats), after);
    forall i | |records| <= i < |after|
      ensures Logged(e.accepted, Event(i, after[i]))
    {
      AcceptsLogged(after, d.roots, Horizon(d.now), e, i);
    }
    assert AcceptedFrom(e, after, |records|);
  }

  lemma MergedPassesChecks(records: seq<Record>, d: Delivery, network: string, signed: Record -> bool)
    requires Prepare(records, d, network, signed).Ok?
    ensures CheckRecords(Prepare(records, d, network, signed).value, network, signed).Pass?
  {
    var merged := Prepare(records, d, network, signed).value;
    AbsorbExtends(records, d);
    forall i | 0 <= i < |merged|
      ensures CheckRecord(merged[i], network, signed).Pass?
    {
      if i < |records| {
        assert merged[i] == records[i];
      } else {
        var j :| 0 <= j < |d.incoming| && d.incoming[j] == merged[i];
      }
    }
  }

  lemma PrepareAgain(records: seq<Record>, d: Delivery, again: Delivery, network: string, signed: Record -> bool)
    requires Prepare(records, d, network, signed).Ok?
    requires again.incoming == d.incoming && d.capacity <= again.capacity
    ensures var merged := Prepare(records, d, network, signed).value;
      Prepare(merged, again, network, signed) == Ok(merged)
  {
    var merged := Prepare(records, d, network, signed).value;
    MergedPassesChecks(records, d, network, signed);
    AbsorbExtends(records, d);
    AbsorbKnown(merged, again);
  }

  /**
   Idempotence: merging the same records again succeeds, accepts nothing and changes nothing, whatever
   the time and the receiver's roots are by then.
   */
  lemma MergeIsIdempotent(records: seq<Record>, d: Delivery, again: Delivery, network: string, signed: Record -> bool,
                          stats: MergeStats, after: seq<Record>,
                          result: Result<MergeStats, RecordError>, afterwards: seq<Record>)
    requires IsMerge(records, d, network, signed, Ok(stats), after)
    requires again.incoming == d.incoming && d.capacity <= again.capacity
    requires IsMerge(after, again, network, signed, result, afterwards)
    ensures result == Ok(MergeStats(0, |d.incoming|)) && afterwards == after
  {
    PrepareAgain(records, d, again, network, signed);
    var e :| IsEvaluation(after, again.roots, Horizon(again.now), e)
      && Concludes(after, again, after, e, result, afterwards);
  }

  // Replicas

  /** A replica's life: deliveries merged one after the other, failed ones included. */
  ghost predicate MergeRun(records: seq<Record>, deliveries: seq<Delivery>, network: string, signed: Record -> bool,
                           final: seq<Record>)
    decreases |deliveries|
  {
    if deliveries == [] then final == records
    else exists result, after ::
      IsMerge(records, deliveries[0], network, signed, result, after)
      && MergeRun(after, deliveries[1..], network, signed, final)
  }

  /** A stored list stays free of duplicates and of conflicting versions. */
  lemma {:induction false} RunKeepsUnique(records: seq<Record>, deliveries: seq<Delivery>, network: string,
                                          signed: Record -> bool, final: seq<Record>)
    requires MergeRun(records, deliveries, network, signed, final)
    requires VersionUnique(records) && Distinct(records)
    ensures VersionUnique(final) && Distinct(final) && records <= final
    decreases |deliveries|
  {
    if deliveries != [] {
      var result, after :|
        IsMerge(records, deliveries[0], network, signed, result, after)
        && MergeRun(after, deliveries[1..], network, signed, final);
      MergeIsAtomicAppend(records, deliveries[0], network, signed, result, after);
      RunKeepsUnique(after, deliveries[1..], network, signed, final);
    }
  }

  /**
   Replicas converge: two replicas that started empty and hold the same records, however those were
   batched, ordered, repeated or interleaved with failed deliveries, derive the same anchors and agree on
   every member at every time.
   */
  lemma ReplicasConverge(a: seq<Delivery>, b: seq<Delivery>, network: string, signed: Record -> bool,
                         x: seq<Record>, y: seq<Record>, now: nat, e: Evaluation, f: Evaluation)
    requires MergeRun([], a, network, signed, x) && MergeRun([], b, network, signed, y)
    requires forall r :: r in x <==> r in y
    requires IsEvaluation(x, AnchorsOf(x), now, e) && IsEvaluation(y, AnchorsOf(y), now, f)
    ensures AnchorsOf(x) == AnchorsOf(y)
    ensures Convergence.Agree(e, f)
  {
    RunKeepsUnique([], a, network, signed, x);
    RunKeepsUnique([], b, network, signed, y);
    SameSetPermutes(x, y);
    Convergence.AnchorsConverge(x, y);
    UniqueIsTieless(x);
    Convergence.LedgerConverges(x, y, AnchorsOf(x), now, e, f);
  }
}
