/**
 The membership proof of an active member: the worklist that gathers its current record and, for
 every gathered record, the record's authorizer and the current record of the record's subject.
 */
module Proof {
  import opened Prelude
  import opened Records
  import opened Ledger
  import opened Replay
  import opened Safety
  import opened Anchors
  import opened Sorting
  import opened TrustPath
  import Authority
  import Conservation
  import opened Convergence

  /** The authorizer of an event and the current event of its subject. */
  ghost function Successors(e: Evaluation, ev: Event): set<Event> {
    (if AuthorizerOf(e.accepted, ev).Some? then {AuthorizerOf(e.accepted, ev).value} else {})
    + (if ev.record.member in e.states then {e.states[ev.record.member].event} else {})
  }

  ghost predicate Closed(e: Evaluation, events: set<Event>) {
    forall ev :: ev in events ==> Successors(e, ev) <= events
  }

  /** The least set that holds `start` and is closed. */
  ghost predicate LeastClosed(e: Evaluation, start: Event, events: set<Event>) {
    && start in events && Closed(e, events)
    && (forall other :: start in other && Closed(e, other) ==> events <= other)
  }

  /** Everything the worklist can meet: the accepted events. Authorizers of accepted events are accepted. */
  ghost predicate AuthorizersLogged(log: seq<Acceptance>) {
    forall k :: 0 <= k < |log| && log[k].authorizer.Some? ==> Logged(log, log[k].authorizer.value)
  }

  lemma SoundLogsAuthorizers(log: seq<Acceptance>, roots: set<Peer>)
    requires LogSound(log, roots)
    ensures AuthorizersLogged(log)
  {
    forall k | 0 <= k < |log| && log[k].authorizer.Some?
      ensures Logged(log, log[k].authorizer.value)
    {
      Authority.JustifiedAt(log, roots, k);
      var j :| 0 <= j < k && log[..k][j].event == log[k].authorizer.value;
      assert log[j].event == log[k].authorizer.value;
    }
  }

  ghost function LoggedSet(log: seq<Acceptance>): set<Event> {
    set k | 0 <= k < |log| :: log[k].event
  }

  /** Everything found so far is needed, and every successor of a finished event has been found. */
  ghost predicate Exploring(e: Evaluation, start: Event, included: set<Event>, found: set<Event>) {
    && start in found && included <= found <= LoggedSet(e.accepted)
    && (forall ev :: ev in included ==> Successors(e, ev) <= found)
    && (forall other :: start in other && Closed(e, other) ==> found <= other)
  }

  lemma Explore(e: Evaluation, start: Event, included: set<Event>, found: set<Event>, ev: Event)
    requires StatesSound(e.states, e.accepted) && AuthorizersLogged(e.accepted)
    requires Exploring(e, start, included, found) && ev in found
    ensures Exploring(e, start, included + {ev}, found + Successors(e, ev))
  {}

  /** What finishing an event pushes: its authorizer, then the current event of its subject if that differs. */
  function Pushes(e: Evaluation, ev: Event): seq<Event> {
    var authorizer, subject := AuthorizerOf(e.accepted, ev), ev.record.member;
    (if authorizer.Some? then [authorizer.value] else [])
    + (if subject in e.states && e.states[subject].event != ev then [e.states[subject].event] else [])
  }

  lemma PushesSuccessors(e: Evaluation, ev: Event)
    ensures Elements(Pushes(e, ev)) + {ev} == Successors(e, ev) + {ev}
  {}

  lemma PopAndPush(e: Evaluation, start: Event, included: set<Event>, rest: seq<Event>, ev: Event)
    requires StatesSound(e.states, e.accepted) && AuthorizersLogged(e.accepted)
    requires Exploring(e, start, included, included + Elements(rest + [ev]))
    ensures ev in LoggedSet(e.accepted)
    ensures ev in included ==> Exploring(e, start, included, included + Elements(rest))
    ensures Exploring(e, start, included + {ev}, (included + {ev}) + Elements(rest + Pushes(e, ev)))
  {
    var found := included + Elements(rest + [ev]);
    ElementsConcat(rest, [ev]);
    assert Elements([ev]) == {ev} && ev in found;
    if ev in included {
      assert found == included + Elements(rest);
    }
    Explore(e, start, included, found, ev);
    PushesSuccessors(e, ev);
    ElementsConcat(rest, Pushes(e, ev));
    assert found + Successors(e, ev) == (included + {ev}) + Elements(rest + Pushes(e, ev));
  }

  method Gather(e: Evaluation, start: Event) returns (included: set<Event>)
    requires StatesSound(e.states, e.accepted) && AuthorizersLogged(e.accepted) && Logged(e.accepted, start)
    ensures LeastClosed(e, start, included)
  {
    included := {};
    var pending := [start];
    while pending != []
      invariant Exploring(e, start, included, included + Elements(pending))
      decreases LoggedSet(e.accepted) - included, |pending|
    {
      var rest, ev := pending[..|pending| - 1], pending[|pending| - 1];
      assert pending == rest + [ev];
      PopAndPush(e, start, included, rest, ev);
      if ev in included {
        pending := rest;
      } else {
        pending := rest + Pushes(e, ev);
        included := included + {ev};
      }
    }
    assert included + Elements(pending) == included;
  }

  lemma {:induction false} ChainInClosed(e: Evaluation, roots: set<Peer>, ev: Event, events: set<Event>)
    requires LogSound(e.accepted, roots) && Logged(e.accepted, ev) && ev.record.IsAdmission()
    requires ev in events && Closed(e, events)
    ensures forall r :: r in Chain(e.accepted, roots, ev) ==> exists x :: x in events && x.record == r
    decreases Rank(e.accepted, ev)
  {
    AuthorizerRanksBelow(e.accepted, roots, ev);
    match AuthorizerOf(e.accepted, ev)
    case None =>
    case Some(b) => ChainInClosed(e, roots, b, events);
  }

  /** A proof: the records of the least closed set around the member's current record, in replay order. */
  ghost predicate IsProof(records: seq<Record>, member: Peer, now: nat, proof: Option<seq<Event>>) {
    exists e :: ProofIn(records, e, member, now, proof)
  }

  ghost predicate ProofIn(records: seq<Record>, e: Evaluation, member: Peer, now: nat, proof: Option<seq<Event>>) {
    && IsEvaluation(records, AnchorsOf(records), now, e)
    && if member in e.states && e.states[member].active
       then
         && proof.Some? && SortedBy(proof.value, EventLeq)
         && Distinct(proof.value)
         && LeastClosed(e, e.states[member].event, Elements(proof.value))
       else proof == None
  }

  method SetToSeq(s: set<Event>) returns (xs: seq<Event>)
    ensures Distinct(xs) && Elements(xs) == s
  {
    xs := [];
    var rest := s;
    while rest != {}
      invariant rest <= s && Distinct(xs) && Elements(xs) == s - rest
      decreases rest
    {
      var x :| x in rest;
      assert x !in Elements(xs);
      ElementsConcat(xs, [x]);
      rest := rest - {x};
      xs := xs + [x];
    }
  }

  method SortedClosure(e: Evaluation, start: Event) returns (proof: seq<Event>)
    requires StatesSound(e.states, e.accepted) && AuthorizersLogged(e.accepted) && Logged(e.accepted, start)
    ensures SortedBy(proof, EventLeq) && Distinct(proof) && LeastClosed(e, start, Elements(proof))
  {
    var included := Gather(e, start);
    var listed := SetToSeq(included);
    EventLeqIsTotal();
    proof := Sort(listed, EventLeq);
    SameElements(listed, proof);
    DistinctPermutes(listed, proof);
    assert Elements(proof) == included;
  }

  method OverlayMembershipProof(records: seq<Record>, member: Peer, now: nat, signed: Record -> bool)
    returns (result: Result<Option<seq<Event>>, RecordError>)
    ensures match HistoryCheck(records, NetworkOf(records), signed)
      case Fail(error) => result == Err(error)
      case Pass => result.Ok? && IsProof(records, member, now, result.value)
  {
    var anchors := TrustAnchors(records, NetworkOf(records), signed);
    if anchors.Err? {
      return Err(anchors.error);
    }
    var evaluation := EvaluateLedger(records, anchors.value, now);
    var e := evaluation.value;
    EvaluationSound(records, anchors.value, now, e);
    SoundLogsAuthorizers(e.accepted, anchors.value);
    if member !in e.states || !e.states[member].active {
      assert ProofIn(records, e, member, now, None);
      return Ok(None);
    }
    var proof := SortedClosure(e, e.states[member].event);
    assert ProofIn(records, e, member, now, Some(proof));
    return Ok(Some(proof));
  }

  /** A proof holds only accepted records of the list, and it holds the member's whole trust path. */
  lemma ProofHoldsTrustPath(records: seq<Record>, member: Peer, now: nat, e: Evaluation, proof: seq<Event>)
    requires ProofIn(records, e, member, now, Some(proof))
    ensures Sound(At(now, e), AnchorsOf(records))
    ensures member in e.states && e.states[member].active
    ensures forall ev :: ev in proof ==> Logged(e.accepted, ev)
    ensures forall r :: r in Chain(e.accepted, AnchorsOf(records), e.states[member].event) ==>
      exists ev :: ev in proof && ev.record == r
  {
    EvaluationSound(records, AnchorsOf(records), now, e);
    SoundLogsAuthorizers(e.accepted, AnchorsOf(records));
    var events := Elements(proof);
    ChainInClosed(e, AnchorsOf(records), e.states[member].event, events);
    LoggedIsClosed(e);
    assert events <= LoggedSet(e.accepted);
    forall ev | ev in proof
      ensures Logged(e.accepted, ev)
    {
      assert ev in events;
    }
  }

  lemma LoggedIsClosed(e: Evaluation)
    requires StatesSound(e.states, e.accepted) && AuthorizersLogged(e.accepted)
    ensures Closed(e, LoggedSet(e.accepted))
  {}

  // Replicas agree on proofs

  ghost function Image(ren: Renaming, events: set<Event>): set<Event> {
    set a | a in events && a in ren :: ren[a]
  }

  lemma SuccessorsRenamed(ren: Renaming, e: Evaluation, f: Evaluation, a: Event)
    requires KeepsRecords(ren) && Injective(ren) && RenamesEvaluation(ren, e, f) && a in ren
    ensures forall x :: x in Successors(e, a) ==> x in ren
    ensures Successors(f, ren[a]) == Image(ren, Successors(e, a))
  {
    RankRenamed(ren, e.accepted, f.accepted, a);
    var n := Rank(e.accepted, a);
    assert n < |e.accepted| ==> RenamesOption(ren, e.accepted[n].authorizer, f.accepted[n].authorizer);
    assert ren[a].record == a.record;
  }

  lemma ImageIsClosed(ren: Renaming, e: Evaluation, f: Evaluation, events: set<Event>)
    requires KeepsRecords(ren) && Injective(ren) && RenamesEvaluation(ren, e, f) && Closed(e, events)
    ensures Closed(f, Image(ren, events))
  {
    forall b | b in Image(ren, events)
      ensures Successors(f, b) <= Image(ren, events)
    {
      var a :| a in events && a in ren && ren[a] == b;
      SuccessorsRenamed(ren, e, f, a);
    }
  }

  ghost function Preimage(ren: Renaming, events: set<Event>, others: set<Event>): set<Event> {
    set a | a in events && a in ren && ren[a] in others
  }

  lemma PreimageIsClosed(ren: Renaming, e: Evaluation, f: Evaluation, events: set<Event>, others: set<Event>)
    requires KeepsRecords(ren) && Injective(ren) && RenamesEvaluation(ren, e, f)
    requires Closed(e, events) && Closed(f, others)
    ensures Closed(e, Preimage(ren, events, others))
  {
    forall a | a in Preimage(ren, events, others)
      ensures Successors(e, a) <= Preimage(ren, events, others)
    {
      SuccessorsRenamed(ren, e, f, a);
      forall x | x in Successors(e, a)
        ensures x in Preimage(ren, events, others)
      {
        assert ren[x] in Successors(f, ren[a]);
      }
    }
  }

  /** Renaming carries the least closed set over to the least closed set. */
  lemma LeastClosedRenamed(ren: Renaming, e: Evaluation, f: Evaluation, start: Event, events: set<Event>, others: set<Event>)
    requires KeepsRecords(ren) && Injective(ren) && RenamesEvaluation(ren, e, f) && start in ren
    requires LeastClosed(e, start, events) && LeastClosed(f, ren[start], others)
    ensures events <= ren.Keys && others == Image(ren, events)
  {
    ImageIsClosed(ren, e, f, events);
    assert ren[start] in Image(ren, events);
    assert others <= Image(ren, events);
    PreimageIsClosed(ren, e, f, events, others);
    assert start in Preimage(ren, events, others);
    assert events <= Preimage(ren, events, others);
  }

  ghost function Renamed(ren: Renaming, xs: seq<Event>): seq<Event>
    requires Elements(xs) <= ren.Keys
  {
    seq(|xs|, i requires 0 <= i < |xs| => assert xs[i] in Elements(xs); ren[xs[i]])
  }

  lemma RenamedProof(ren: Renaming, xs: seq<Event>, ys: seq<Event>)
    requires KeepsRecords(ren) && Injective(ren) && Distinct(xs) && Distinct(ys)
    requires Elements(xs) <= ren.Keys && Elements(ys) == Image(ren, Elements(xs))
    ensures multiset(RecordsOf(xs)) == multiset(RecordsOf(ys))
  {
    var zs := Renamed(ren, xs);
    forall i | 0 <= i < |xs|
      ensures xs[i] in ren && zs[i] == ren[xs[i]] && zs[i].record == xs[i].record
    {
      assert xs[i] in Elements(xs);
    }
    assert RecordsOf(zs) == RecordsOf(xs);
    forall y
      ensures y in zs <==> y in ys
    {
      assert y in ys <==> y in Elements(ys);
      if y in ys {
        var x :| x in Elements(xs) && x in ren && ren[x] == y;
        var i :| 0 <= i < |xs| && xs[i] == x;
        assert zs[i] == y;
      }
    }
    SameSetPermutes(zs, ys);
    RecordsPermute(zs, ys);
  }

  lemma ProofIsUntied(records: seq<Record>, member: Peer, now: nat, e: Evaluation, proof: seq<Event>, a: Record, b: Record)
    requires Tieless(records) && ProofIn(records, e, member, now, Some(proof))
    requires a in RecordsOf(proof) && b in RecordsOf(proof) && RecordLeq(a, b) && RecordLeq(b, a)
    ensures a == b
  {
    ProofHoldsTrustPath(records, member, now, e, proof);
    var x := StoredRecord(records, AnchorsOf(records), now, e, proof, a);
    var y := StoredRecord(records, AnchorsOf(records), now, e, proof, b);
    assert Tied(records[x], records[y]);
  }

  lemma StoredRecord(records: seq<Record>, roots: set<Peer>, now: nat, e: Evaluation, proof: seq<Event>, r: Record)
    returns (i: nat)
    requires IsEvaluation(records, roots, now, e) && r in RecordsOf(proof)
    requires forall ev :: ev in proof ==> Logged(e.accepted, ev)
    ensures i < |records| && records[i] == r
  {
    var j :| 0 <= j < |proof| && RecordsOf(proof)[j] == r;
    assert Logged(e.accepted, proof[j]);
    var k :| 0 <= k < |e.accepted| && e.accepted[k].event == proof[j];
    Conservation.AcceptedFromList(records, roots, now, e, k);
    i := proof[j].index;
  }

  /** Two proofs carry the same records in the same order, or there is none. */
  ghost predicate SameProof(proof: Option<seq<Event>>, other: Option<seq<Event>>) {
    if proof.Some? then other.Some? && RecordsOf(proof.value) == RecordsOf(other.value) else other.None?
  }

  /** Replicas with the same records, in whatever order, hand out the same proof for every member. */
  lemma ProofsConverge(records: seq<Record>, shuffled: seq<Record>, member: Peer, now: nat,
                       proof: Option<seq<Event>>, other: Option<seq<Event>>)
    requires multiset(records) == multiset(shuffled) && Tieless(records)
    requires IsProof(records, member, now, proof) && IsProof(shuffled, member, now, other)
    ensures SameProof(proof, other)
  {
    AnchorsConverge(records, shuffled);
    var e :| ProofIn(records, e, member, now, proof);
    var f :| ProofIn(shuffled, f, member, now, other);
    var ren := EvaluationsRenamed(records, shuffled, AnchorsOf(records), now, e, f);
    if proof.Some? {
      ProofsRenamed(records, member, now, e, f, ren, proof.value, other.value);
    }
  }

  lemma ProofsRenamed(records: seq<Record>, member: Peer, now: nat, e: Evaluation, f: Evaluation, ren: Renaming,
                      proof: seq<Event>, other: seq<Event>)
    requires Tieless(records) && ProofIn(records, e, member, now, Some(proof))
    requires KeepsRecords(ren) && Injective(ren) && RenamesEvaluation(ren, e, f)
    requires SortedBy(other, EventLeq) && Distinct(other)
    requires member in f.states && LeastClosed(f, f.states[member].event, Elements(other))
    ensures RecordsOf(proof) == RecordsOf(other)
  {
    LeastClosedRenamed(ren, e, f, e.states[member].event, Elements(proof), Elements(other));
    RenamedProof(ren, proof, other);
    forall a, b | a in RecordsOf(proof) && b in RecordsOf(proof) && RecordLeq(a, b) && RecordLeq(b, a)
      ensures a == b
    {
      ProofIsUntied(records, member, now, e, proof, a, b);
    }
    SortedIsUnique(RecordsOf(proof), RecordsOf(other), RecordLeq);
  }
}
