/**
 The latest record of each (issuer, member) pair, and the equal-version conflict check that rides on
 the same loop. The check compares a record only with the latest one before it, so whether it finds a
 conflict can depend on the order of the list.
 */
module Versions {
  import opened Prelude
  import opened Records
  import opened Sorting

  type Pair = (Peer, Peer)

  function PairOf(r: Record): Pair {
    (r.issuer, r.member)
  }

  function ConflictError(r: Record): RecordError {
    ConflictingRecordVersion(r.issuer, r.member, r.epoch, r.sequence)
  }

  /** The latest record of each pair, or the first conflict met. */
  function Latest(records: seq<Record>): Result<map<Pair, Record>, RecordError> {
    if records == [] then Ok(map[]) else
    var earlier := Latest(records[..|records| - 1]);
    if earlier.Err? then earlier else Extend(earlier.value, records[|records| - 1])
  }

  function Extend(latest: map<Pair, Record>, r: Record): Result<map<Pair, Record>, RecordError> {
    if PairOf(r) !in latest || NewerVersion(r, latest[PairOf(r)]) then Ok(latest[PairOf(r) := r])
    else if CompareVersions(r, latest[PairOf(r)]) == 0 && r != latest[PairOf(r)] then Err(ConflictError(r))
    else Ok(latest)
  }

  method LatestRecords(records: seq<Record>) returns (result: Result<map<Pair, Record>, RecordError>)
    ensures result == Latest(records)
  {
    var latest: map<Pair, Record> := map[];
    for i := 0 to |records|
      invariant Latest(records[..i]) == Ok(latest)
    {
      var r := records[i];
      assert records[..i + 1][..i] == records[..i];
      if PairOf(r) !in latest {
        latest := latest[PairOf(r) := r];
        continue;
      }
      var existing := latest[PairOf(r)];
      if CompareVersions(r, existing) > 0 {
        latest := latest[PairOf(r) := r];
      } else if CompareVersions(r, existing) == 0 && r != existing {
        LatestKeepsError(records, i + 1);
        return Err(ConflictError(r));
      }
    }
    assert records[..|records|] == records;
    return Ok(latest);
  }

  lemma {:induction false} LatestKeepsError(records: seq<Record>, n: nat)
    requires n <= |records| && Latest(records[..n]).Err?
    ensures Latest(records) == Latest(records[..n])
  {
    if n == |records| {
      assert records[..n] == records;
    } else {
      var shorter := records[..|records| - 1];
      assert shorter[..n] == records[..n];
      LatestKeepsError(shorter, n);
    }
  }

  /** What a passing check yields: for each pair, the only record of the pair's newest version. */
  ghost predicate IsLatest(records: seq<Record>, latest: map<Pair, Record>) {
    && (forall k :: k in latest ==> latest[k] in records && PairOf(latest[k]) == k)
    && (forall r :: r in records ==>
          && PairOf(r) in latest
          && !NewerVersion(r, latest[PairOf(r)])
          && (CompareVersions(r, latest[PairOf(r)]) == 0 ==> r == latest[PairOf(r)]))
  }

  lemma {:induction false} LatestIsLatest(records: seq<Record>)
    requires Latest(records).Ok?
    ensures IsLatest(records, Latest(records).value)
  {
    if records != [] {
      var earlier := records[..|records| - 1];
      LatestIsLatest(earlier);
      assert forall r :: r in records <==> r in earlier || r == records[|records| - 1];
    }
  }

  // When the check passes, for every order of the list

  lemma {:induction false} UniquePasses(records: seq<Record>)
    requires VersionUnique(records)
    ensures Latest(records).Ok?
  {
    if records != [] {
      var earlier, r := records[..|records| - 1], records[|records| - 1];
      UniquePasses(earlier);
      LatestIsLatest(earlier);
      var latest := Latest(earlier).value;
      if PairOf(r) in latest {
        var i :| 0 <= i < |earlier| && earlier[i] == latest[PairOf(r)];
        assert records[i] == latest[PairOf(r)];
      }
    }
  }

  lemma VersionUniquePermutes(records: seq<Record>, shuffled: seq<Record>)
    requires multiset(records) == multiset(shuffled) && VersionUnique(records)
    ensures VersionUnique(shuffled)
  {
    SameElements(records, shuffled);
    forall i, j | 0 <= i < |shuffled| && 0 <= j < |shuffled| && SameSlot(shuffled[i], shuffled[j])
      ensures shuffled[i] == shuffled[j]
    {
      assert shuffled[i] in records && shuffled[j] in records;
    }
  }

  /** The list with its `i`-th and `j`-th records moved to the front. */
  lemma ConflictFirst(records: seq<Record>, i: nat, j: nat) returns (shuffled: seq<Record>)
    requires i < j < |records| && SameSlot(records[i], records[j]) && records[i] != records[j]
    ensures multiset(shuffled) == multiset(records) && Latest(shuffled).Err?
  {
    var a, b := records[i], records[j];
    var rest := records[..i] + records[i + 1..j] + records[j + 1..];
    assert records == records[..i] + [a] + records[i + 1..j] + [b] + records[j + 1..];
    shuffled := [a, b] + rest;
    assert shuffled[..2] == [a, b] && [a, b][..1] == [a] && [a][..0] == [];
    assert Latest([a]) == Ok(map[PairOf(a) := a]);
    assert Latest([a, b]).Err?;
    LatestKeepsError(shuffled, 2);
  }

  /** Two different records share the newest version of one pair. */
  ghost predicate TopConflict(records: seq<Record>) {
    exists a, b :: a in records && b in records && a != b && IsTop(records, a) && SameSlot(a, b)
  }

  ghost predicate IsTop(records: seq<Record>, a: Record) {
    forall r :: r in records && PairOf(r) == PairOf(a) ==> !NewerVersion(r, a)
  }

  lemma TopConflictFails(records: seq<Record>, shuffled: seq<Record>)
    requires multiset(records) == multiset(shuffled) && TopConflict(records)
    ensures Latest(shuffled).Err?
  {
    SameElements(records, shuffled);
    if Latest(shuffled).Ok? {
      LatestIsLatest(shuffled);
    }
  }

  lemma {:induction false} OldestRecord(records: seq<Record>) returns (i: nat)
    requires records != []
    ensures i < |records| && forall r :: r in records ==> !NewerVersion(records[i], r)
  {
    i := 0;
    if |records| > 1 {
      var k := OldestRecord(records[1..]);
      assert forall r :: r in records <==> r == records[0] || r in records[1..];
      i := if NewerVersion(records[0], records[k + 1]) then k + 1 else 0;
    }
  }

  /** Newest versions first: an order in which older conflicts go unnoticed. */
  lemma {:induction false} PassingOrder(records: seq<Record>) returns (shuffled: seq<Record>)
    requires !TopConflict(records)
    ensures multiset(shuffled) == multiset(records) && Latest(shuffled).Ok?
    decreases |records|
  {
    shuffled := [];
    if records != [] {
      var i := OldestRecord(records);
      var r, rest := records[i], records[..i] + records[i + 1..];
      assert records == records[..i] + [r] + records[i + 1..];
      assert forall x :: x in records <==> x == r || x in rest;
      forall a, b | a in rest && b in rest && a != b && SameSlot(a, b)
        ensures !IsTop(rest, a)
      {
        assert !IsTop(records, a);
      }
      var front := PassingOrder(rest);
      shuffled := front + [r];
      assert shuffled[..|front|] == front;
      SameElements(front, rest);
      LatestIsLatest(front);
      var latest := Latest(front).value;
      if PairOf(r) in latest && CompareVersions(r, latest[PairOf(r)]) == 0 {
        var top := latest[PairOf(r)];
        assert top in records && IsTop(records, top) && SameSlot(top, r);
      }
    }
  }

  /** The check passes on every order of a list exactly when the list is version-unique. */
  lemma PassesInEveryOrder(records: seq<Record>)
    ensures (forall shuffled :: multiset(shuffled) == multiset(records) ==> Latest(shuffled).Ok?)
      <==> VersionUnique(records)
  {
    if VersionUnique(records) {
      forall shuffled | multiset(shuffled) == multiset(records)
        ensures Latest(shuffled).Ok?
      {
        VersionUniquePermutes(records, shuffled);
        UniquePasses(shuffled);
      }
    } else {
      var i, j :| 0 <= i < |records| && 0 <= j < |records| && SameSlot(records[i], records[j]) && records[i] != records[j];
      var shuffled := ConflictFirst(records, if i < j then i else j, if i < j then j else i);
    }
  }

  /**
   The check fails on every order exactly when two records conflict at the newest version of a pair. So
   the verdict depends on the order of the list exactly when it holds only older conflicts.
   */
  lemma FailsInEveryOrder(records: seq<Record>)
    ensures (forall shuffled :: multiset(shuffled) == multiset(records) ==> Latest(shuffled).Err?)
      <==> TopConflict(records)
  {
    if TopConflict(records) {
      forall shuffled | multiset(shuffled) == multiset(records)
        ensures Latest(shuffled).Err?
      {
        TopConflictFails(records, shuffled);
      }
    } else {
      var shuffled := PassingOrder(records);
    }
  }

  const OLD := Record(1, "lab", 1, 2, 1, 1, false, None, [OverlayMember], [], 10, None, 0)
  const RIVAL := OLD.(signature := 1)
  const NEWER := OLD.(sequence := 2, signature := 2)

  /** Two records conflict below a third: the check fails if it meets them first and passes if it meets the third first. */
  lemma CheckDependsOnOrder()
    ensures multiset([OLD, RIVAL, NEWER]) == multiset([NEWER, OLD, RIVAL])
    ensures Latest([OLD, RIVAL, NEWER]).Err? && Latest([NEWER, OLD, RIVAL]).Ok?
  {
    assert [OLD, RIVAL, NEWER][..2] == [OLD, RIVAL] && [OLD, RIVAL][..1] == [OLD] && [OLD][..0] == [];
    assert Latest([OLD]) == Ok(map[PairOf(OLD) := OLD]);
    assert Latest([OLD, RIVAL]).Err?;
    assert [NEWER, OLD, RIVAL][..2] == [NEWER, OLD] && [NEWER, OLD][..1] == [NEWER] && [NEWER][..0] == [];
    assert Latest([NEWER]) == Ok(map[PairOf(NEWER) := NEWER]);
    assert Latest([NEWER, OLD]) == Latest([NEWER]);
  }
}
