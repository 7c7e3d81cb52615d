/**
 The chain of admissions from a trust anchor to an active member. The program walks authorizers
 backwards and guards against a cycle; acceptance order makes the walk well founded, so the guard
 never fires.
 */
module TrustPath {
  import opened Prelude
  import opened Records
  import opened Ledger
  import opened Replay
  import opened Safety
  import opened Anchors
  import Authority
  import Conservation

  /** The place of an event in the acceptance order. */
  function Rank(log: seq<Acceptance>, ev: Event): (n: nat)
    ensures n <= |log|
    ensures n < |log| ==> log[n].event == ev
    ensures forall k :: 0 <= k < n ==> log[k].event != ev
  {
    if log == [] || log[0].event == ev then 0 else 1 + Rank(log[1..], ev)
  }

  function AuthorizerOf(log: seq<Acceptance>, ev: Event): Option<Event> {
    var n := Rank(log, ev);
    if n < |log| then log[n].authorizer else None
  }

  lemma AuthorizerRanksBelow(log: seq<Acceptance>, roots: set<Peer>, ev: Event)
    requires LogSound(log, roots) && Logged(log, ev) && ev.record.IsAdmission()
    ensures match AuthorizerOf(log, ev)
      case None => ev.record.issuer in roots
      case Some(b) =>
        && Logged(log, b) && Rank(log, b) < Rank(log, ev)
        && b.record.IsAdmission() && b.record.member == ev.record.issuer
        && b.record.issuedAt <= ev.record.issuedAt
  {
    var n := Rank(log, ev);
    Authority.JustifiedAt(log, roots, n);
    match AuthorizerOf(log, ev)
    case None =>
    case Some(b) =>
      var k :| 0 <= k < n && log[..n][k].event == b;
      assert log[k].event == b;
      LogInOrder(log, roots, k, n);
  }

  lemma {:induction false} LogInOrder(log: seq<Acceptance>, roots: set<Peer>, j: nat, k: nat)
    requires LogSound(log, roots) && j < k < |log|
    ensures log[j].event.record.issuedAt <= log[k].event.record.issuedAt
  {
    if k < |log| - 1 {
      LogInOrder(log[..|log| - 1], roots, j, k);
    }
  }

  /** From the anchor's first delegation to `ev`. */
  ghost function Chain(log: seq<Acceptance>, roots: set<Peer>, ev: Event): seq<Record>
    requires LogSound(log, roots) && Logged(log, ev) && ev.record.IsAdmission()
    decreases Rank(log, ev)
  {
    AuthorizerRanksBelow(log, roots, ev);
    match AuthorizerOf(log, ev)
    case None => [ev.record]
    case Some(b) => Chain(log, roots, b) + [ev.record]
  }

  /** A chain of admissions, each issued by the subject of the one before, in time order, from a root. */
  ghost predicate Delegates(path: seq<Record>, roots: set<Peer>) {
    && path != []
    && path[0].issuer in roots
    && (forall i :: 0 <= i < |path| ==> path[i].IsAdmission())
    && (forall i :: 0 < i < |path| ==> path[i].issuer == path[i - 1].member && path[i - 1].issuedAt <= path[i].issuedAt)
  }

  lemma {:induction false} ChainDelegates(log: seq<Acceptance>, roots: set<Peer>, ev: Event)
    requires LogSound(log, roots) && Logged(log, ev) && ev.record.IsAdmission()
    ensures var path := Chain(log, roots, ev);
      && Delegates(path, roots) && path[|path| - 1] == ev.record
      && (forall r :: r in path ==> exists k :: 0 <= k < |log| && log[k].event.record == r)
    decreases Rank(log, ev)
  {
    AuthorizerRanksBelow(log, roots, ev);
    match AuthorizerOf(log, ev)
    case None =>
    case Some(b) =>
      ChainDelegates(log, roots, b);
      assert Chain(log, roots, ev) == Chain(log, roots, b) + [ev.record];
  }

  /** The chain to the current record of an active member. */
  ghost function PathIn(e: Evaluation, roots: set<Peer>, member: Peer): Option<seq<Record>>
    requires LogSound(e.accepted, roots) && StatesSound(e.states, e.accepted)
  {
    if member in e.states && e.states[member].active
    then Some(Chain(e.accepted, roots, e.states[member].event))
    else None
  }

  /** What the walk may return for `member`. */
  ghost predicate IsTrustPath(records: seq<Record>, member: Peer, now: nat, path: Option<seq<Record>>) {
    exists e :: WalksIn(records, e, member, now, path)
  }

  ghost predicate WalksIn(records: seq<Record>, e: Evaluation, member: Peer, now: nat, path: Option<seq<Record>>) {
    var roots := AnchorsOf(records);
    && IsEvaluation(records, roots, now, e)
    && Sound(At(now, e), roots)
    && path == PathIn(e, roots, member)
  }

  ghost function TrustPathOf(records: seq<Record>, member: Peer, now: nat): (path: Option<seq<Record>>)
    ensures IsTrustPath(records, member, now, path)
  {
    var e := EvaluationOf(records, AnchorsOf(records), now);
    EvaluationSound(records, AnchorsOf(records), now, e);
    var path := PathIn(e, AnchorsOf(records), member);
    assert WalksIn(records, e, member, now, path);
    path
  }

  function NetworkOf(records: seq<Record>): string {
    if records == [] then "" else records[0].network
  }

  function Reverse<T>(s: seq<T>): (r: seq<T>)
    ensures |r| == |s|
    ensures forall i :: 0 <= i < |s| ==> r[i] == s[|s| - 1 - i]
  {
    seq(|s|, i requires 0 <= i < |s| => s[|s| - 1 - i])
  }

  lemma StepBack(log: seq<Acceptance>, roots: set<Peer>, ev: Event, trail: seq<Record>)
    requires LogSound(log, roots) && Logged(log, ev) && ev.record.IsAdmission()
    ensures match AuthorizerOf(log, ev)
      case None => Chain(log, roots, ev) + Reverse(trail) == Reverse(trail + [ev.record])
      case Some(b) =>
        && Logged(log, b) && b.record.IsAdmission() && Rank(log, b) < Rank(log, ev)
        && Chain(log, roots, ev) + Reverse(trail) == Chain(log, roots, b) + Reverse(trail + [ev.record])
  {
    AuthorizerRanksBelow(log, roots, ev);
    assert Reverse(trail + [ev.record]) == [ev.record] + Reverse(trail);
  }

  method WalkBack(log: seq<Acceptance>, ghost roots: set<Peer>, start: Event) returns (path: seq<Record>)
    requires LogSound(log, roots) && Logged(log, start) && start.record.IsAdmission()
    ensures path == Chain(log, roots, start)
  {
    var trail: seq<Record> := [];
    var visited: set<Event> := {};
    var current := Some(start);
    while current.Some?
      invariant current.Some? ==>
        && Logged(log, current.value) && current.value.record.IsAdmission()
        && (forall v :: v in visited ==> Rank(log, current.value) < Rank(log, v))
        && Chain(log, roots, start) == Chain(log, roots, current.value) + Reverse(trail)
      invariant current.None? ==> Chain(log, roots, start) == Reverse(trail)
      decreases if current.Some? then 1 + Rank(log, current.value) else 0
    {
      var ev := current.value;
      if ev in visited {
        assert false;  // the program reports an untrusted issuer here
      }
      visited := visited + {ev};
      StepBack(log, roots, ev, trail);
      trail := trail + [ev.record];
      current := AuthorizerOf(log, ev);
    }
    path := Reverse(trail);
  }

  method OverlayTrustPath(records: seq<Record>, member: Peer, now: nat, signed: Record -> bool)
    returns (result: Result<Option<seq<Record>>, RecordError>)
    ensures match HistoryCheck(records, NetworkOf(records), signed)
      case Fail(error) => result == Err(error)
      case Pass => result == Ok(TrustPathOf(records, member, now))
  {
    var anchors := TrustAnchors(records, NetworkOf(records), signed);
    if anchors.Err? {
      return Err(anchors.error);
    }
    var evaluation := EvaluateLedger(records, anchors.value, now);
    var e := evaluation.value;
    EvaluationSound(records, anchors.value, now, e);
    if member !in e.states || !e.states[member].active {
      return Ok(None);
    }
    var path := WalkBack(e.accepted, anchors.value, e.states[member].event);
    return Ok(Some(path));
  }

  /**
   Trust paths are well founded: a returned path consists of stored admissions, each issued by the
   subject of the one before and no earlier, from a trust anchor down to the member.
   */
  lemma TrustPathDelegates(records: seq<Record>, member: Peer, now: nat, path: seq<Record>)
    requires IsTrustPath(records, member, now, Some(path))
    ensures Delegates(path, AnchorsOf(records))
    ensures path[|path| - 1].member == member
    ensures forall r :: r in path ==> r in records && r.issuedAt <= now
  {
    var e :| WalksIn(records, e, member, now, Some(path));
    var start := ActiveStart(records, e, member, now, path);
    ChainDelegates(e.accepted, AnchorsOf(records), start);
    forall r | r in path
      ensures r in records && r.issuedAt <= now
    {
      ChainFromList(records, AnchorsOf(records), now, e, path, r);
    }
  }

  lemma ActiveStart(records: seq<Record>, e: Evaluation, member: Peer, now: nat, path: seq<Record>) returns (start: Event)
    requires WalksIn(records, e, member, now, Some(path))
    ensures LogSound(e.accepted, AnchorsOf(records)) && Logged(e.accepted, start) && start.record.IsAdmission()
    ensures path == Chain(e.accepted, AnchorsOf(records), start) && start.record.member == member
  {
    start := e.states[member].event;
  }

  lemma ChainFromList(records: seq<Record>, roots: set<Peer>, now: nat, e: Evaluation, path: seq<Record>, r: Record)
    requires IsEvaluation(records, roots, now, e)
    requires exists k :: 0 <= k < |e.accepted| && e.accepted[k].event.record == r
    ensures r in records && r.issuedAt <= now
  {
    var k :| 0 <= k < |e.accepted| && e.accepted[k].event.record == r;
    Conservation.AcceptedFromList(records, roots, now, e, k);
  }
}
