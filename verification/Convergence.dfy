/**
 Replicas that hold the same records in different orders compute the same membership: same anchors,
 same winning records and active flags, same admissions, same trust paths.
 */
module Convergence {
  import opened Prelude
  import opened Records
  import opened Ledger
  import opened Replay
  import opened Sorting
  import opened Safety
  import opened Anchors
  import opened TrustPath
  import Conservation

  // A renaming of list positions commutes with the whole replay

  type Renaming = map<Event, Event>

  ghost predicate KeepsRecords(ren: Renaming) {
    forall a :: a in ren ==> ren[a].record == a.record
  }

  ghost predicate Renames(ren: Renaming, a: Event, b: Event) {
    a in ren && ren[a] == b
  }

  ghost predicate RenamesList(ren: Renaming, xs: seq<Event>, ys: seq<Event>) {
    |xs| == |ys| && forall i :: 0 <= i < |xs| ==> Renames(ren, xs[i], ys[i])
  }

  ghost predicate RenamesOption(ren: Renaming, a: Option<Event>, b: Option<Event>) {
    if a.Some? then b.Some? && Renames(ren, a.value, b.value) else b.None?
  }

  ghost predicate RenamesLog(ren: Renaming, l: seq<Acceptance>, m: seq<Acceptance>) {
    |l| == |m| && forall k :: 0 <= k < |l| ==>
      Renames(ren, l[k].event, m[k].event) && RenamesOption(ren, l[k].authorizer, m[k].authorizer)
  }

  ghost predicate RenamesStates(ren: Renaming, s: States, t: States) {
    s.Keys == t.Keys
    && forall p :: p in s ==> s[p].active == t[p].active && Renames(ren, s[p].event, t[p].event)
  }

  ghost predicate RenamesMap(ren: Renaming, m: map<Peer, Event>, n: map<Peer, Event>) {
    m.Keys == n.Keys && forall p :: p in m ==> Renames(ren, m[p], n[p])
  }

  ghost predicate RenamesEvaluation(ren: Renaming, e: Evaluation, f: Evaluation) {
    && RenamesLog(ren, e.accepted, f.accepted)
    && RenamesStates(ren, e.states, f.states)
    && RenamesMap(ren, e.firstAdmissions, f.firstAdmissions)
    && RenamesMap(ren, e.currentAdmissions, f.currentAdmissions)
  }

  lemma ApplyRenamed(ren: Renaming, s: States, t: States, a: Event, b: Event)
    requires KeepsRecords(ren) && RenamesStates(ren, s, t) && Renames(ren, a, b)
    ensures RenamesStates(ren, Apply(s, a), Apply(t, b))
    ensures Replaces(s, a) == Replaces(t, b)
  {
    assert a.record == b.record;
    assert a.record.member in s <==> a.record.member in t;
  }

  lemma IssuerRenamed(ren: Renaming, s: States, t: States, r: Record, roots: set<Peer>)
    requires RenamesStates(ren, s, t)
    ensures IssuerActive(r, s, roots) == IssuerActive(r, t, roots)
    ensures IssuerActiveOrGenesis(r, s, roots) == IssuerActiveOrGenesis(r, t, roots)
    ensures RenamesOption(ren, CurrentEvent(s, r.issuer), CurrentEvent(t, r.issuer))
  {
    assert r.issuer in s <==> r.issuer in t;
  }

  lemma AcceptRenamed(ren: Renaming, e: Evaluation, f: Evaluation, a: Event, b: Event)
    requires KeepsRecords(ren) && RenamesEvaluation(ren, e, f) && Renames(ren, a, b)
    ensures RenamesEvaluation(ren, AcceptGrant(e, a), AcceptGrant(f, b))
    ensures RenamesEvaluation(ren, AcceptRevocation(e, a), AcceptRevocation(f, b))
  {
    assert a.record == b.record;
    ApplyRenamed(ren, e.states, f.states, a, b);
    IssuerRenamed(ren, e.states, f.states, a.record, {});
    assert a.record.member in e.states <==> a.record.member in f.states;
    assert a.record.member in e.firstAdmissions <==> a.record.member in f.firstAdmissions;
  }

  lemma ExpireRenamed(ren: Renaming, s: States, t: States, now: nat)
    requires KeepsRecords(ren) && RenamesStates(ren, s, t)
    ensures RenamesStates(ren, Expire(s, now), Expire(t, now))
  {}

  lemma {:induction false} ScanRenamed(ren: Renaming, e: Evaluation, f: Evaluation, xs: seq<Event>, ys: seq<Event>,
                                       roots: set<Peer>)
    requires KeepsRecords(ren) && RenamesEvaluation(ren, e, f) && RenamesList(ren, xs, ys)
    ensures RenamesEvaluation(ren, Scan(e, xs, roots).0, Scan(f, ys, roots).0)
    ensures RenamesList(ren, Scan(e, xs, roots).1, Scan(f, ys, roots).1)
    decreases |xs|
  {
    if xs != [] {
      assert xs[0].record == ys[0].record && RenamesList(ren, xs[1..], ys[1..]);
      IssuerRenamed(ren, e.states, f.states, xs[0].record, roots);
      if IssuerActiveOrGenesis(xs[0].record, e.states, roots) {
        AcceptRenamed(ren, e, f, xs[0], ys[0]);
        ScanRenamed(ren, AcceptGrant(e, xs[0]), AcceptGrant(f, ys[0]), xs[1..], ys[1..], roots);
      } else {
        ScanRenamed(ren, e, f, xs[1..], ys[1..], roots);
      }
    }
  }

  lemma {:induction false} GrantPhaseRenamed(ren: Renaming, e: Evaluation, f: Evaluation, xs: seq<Event>,
                                             ys: seq<Event>, roots: set<Peer>)
    requires KeepsRecords(ren) && RenamesEvaluation(ren, e, f) && RenamesList(ren, xs, ys)
    ensures RenamesEvaluation(ren, GrantPhase(e, xs, roots).0, GrantPhase(f, ys, roots).0)
    decreases |xs|
  {
    if xs != [] {
      ScanRenamed(ren, e, f, xs, ys, roots);
      var (e', rest) := Scan(e, xs, roots);
      var (f', rest') := Scan(f, ys, roots);
      if |rest| < |xs| {
        GrantPhaseRenamed(ren, e', f', rest, rest', roots);
      }
    }
  }

  lemma {:induction false} RevocationPhaseRenamed(ren: Renaming, e: Evaluation, f: Evaluation, xs: seq<Event>, ys: seq<Event>)
    requires KeepsRecords(ren) && RenamesEvaluation(ren, e, f) && RenamesList(ren, xs, ys)
    ensures RenamesEvaluation(ren, RevocationPhase(e, xs), RevocationPhase(f, ys))
    decreases |xs|
  {
    if xs != [] {
      assert RenamesList(ren, xs[1..], ys[1..]);
      AcceptRenamed(ren, e, f, xs[0], ys[0]);
      RevocationPhaseRenamed(ren, AcceptRevocation(e, xs[0]), AcceptRevocation(f, ys[0]), xs[1..], ys[1..]);
    }
  }

  lemma {:induction false} GrantsRenamed(ren: Renaming, xs: seq<Event>, ys: seq<Event>)
    requires KeepsRecords(ren) && RenamesList(ren, xs, ys)
    ensures RenamesList(ren, Grants(xs), Grants(ys))
    decreases |xs|
  {
    if xs != [] {
      assert xs[0].record == ys[0].record && RenamesList(ren, xs[1..], ys[1..]);
      GrantsRenamed(ren, xs[1..], ys[1..]);
    }
  }

  lemma {:induction false} RevocationsRenamed(ren: Renaming, xs: seq<Event>, ys: seq<Event>, s: States, t: States,
                                              roots: set<Peer>)
    requires KeepsRecords(ren) && RenamesList(ren, xs, ys) && RenamesStates(ren, s, t)
    ensures RenamesList(ren, AuthorizedRevocations(xs, s, roots), AuthorizedRevocations(ys, t, roots))
    decreases |xs|
  {
    if xs != [] {
      assert xs[0].record == ys[0].record && RenamesList(ren, xs[1..], ys[1..]);
      IssuerRenamed(ren, s, t, xs[0].record, roots);
      RevocationsRenamed(ren, xs[1..], ys[1..], s, t, roots);
    }
  }

  lemma SecondRenamed(ren: Renaming, e: Evaluation, f: Evaluation, now: nat, xs: seq<Event>, ys: seq<Event>, roots: set<Peer>)
    requires KeepsRecords(ren) && RenamesEvaluation(ren, e, f) && RenamesList(ren, xs, ys)
    ensures RenamesEvaluation(ren, ReplaySecond(e, now, xs, roots), ReplaySecond(f, now, ys, roots))
  {
    var e1, f1 := e.(states := Expire(e.states, now)), f.(states := Expire(f.states, now));
    ExpireRenamed(ren, e.states, f.states, now);
    GrantsRenamed(ren, xs, ys);
    GrantPhaseRenamed(ren, e1, f1, Grants(xs), Grants(ys), roots);
    var e2, f2 := GrantPhase(e1, Grants(xs), roots).0, GrantPhase(f1, Grants(ys), roots).0;
    RevocationsRenamed(ren, xs, ys, e2.states, f2.states, roots);
    RevocationPhaseRenamed(ren, e2, f2, AuthorizedRevocations(xs, e2.states, roots), AuthorizedRevocations(ys, f2.states, roots));
  }

  lemma SecondLengthRenamed(ren: Renaming, xs: seq<Event>, ys: seq<Event>, now: nat)
    requires KeepsRecords(ren) && RenamesList(ren, xs, ys)
    ensures SecondLength(xs, now) == SecondLength(ys, now)
  {
    assert forall i :: 0 <= i < |xs| ==> xs[i].record.issuedAt == ys[i].record.issuedAt;
  }

  lemma {:induction false} ReplayRenamed(ren: Renaming, e: Evaluation, f: Evaluation, xs: seq<Event>, ys: seq<Event>,
                                         roots: set<Peer>)
    requires KeepsRecords(ren) && RenamesEvaluation(ren, e, f) && RenamesList(ren, xs, ys)
    ensures RenamesEvaluation(ren, ReplayFrom(e, xs, roots), ReplayFrom(f, ys, roots))
    decreases |xs|
  {
    if xs != [] {
      assert xs[0].record == ys[0].record;
      var now := xs[0].record.issuedAt;
      var n := SecondLength(xs, now);
      SecondLengthRenamed(ren, xs, ys, now);
      SecondRenamed(ren, e, f, now, xs[..n], ys[..n], roots);
      ReplayRenamed(ren, ReplaySecond(e, now, xs[..n], roots), ReplaySecond(f, now, ys[..n], roots), xs[n..], ys[n..], roots);
    }
  }

  // Sorting records without ties leaves only one order

  function RecordsOf(events: seq<Event>): (rs: seq<Record>)
    ensures |rs| == |events|
    ensures forall i :: 0 <= i < |events| ==> rs[i] == events[i].record
  {
    seq(|events|, i requires 0 <= i < |events| => events[i].record)
  }

  predicate RecordLeq(a: Record, b: Record) {
    EventOrder(a, b) <= 0
  }

  function Without<T>(xs: seq<T>, i: nat): seq<T>
    requires i < |xs|
  {
    xs[..i] + xs[i + 1..]
  }

  lemma CutOut<T>(xs: seq<T>, i: nat)
    requires i < |xs|
    ensures multiset(xs) == multiset(Without(xs, i)) + multiset{xs[i]}
  {
    assert xs == xs[..i] + [xs[i]] + xs[i + 1..];
  }

  lemma CutOutRecord(xs: seq<Event>, i: nat)
    requires i < |xs|
    ensures RecordsOf(Without(xs, i)) == Without(RecordsOf(xs), i)
  {}

  lemma {:induction false} RecordsPermute(xs: seq<Event>, ys: seq<Event>)
    requires multiset(xs) == multiset(ys)
    ensures multiset(RecordsOf(xs)) == multiset(RecordsOf(ys))
    decreases |xs|
  {
    SameElements(xs, ys);
    if xs != [] {
      assert xs[0] in ys;
      var j :| 0 <= j < |ys| && ys[j] == xs[0];
      CutOut(xs, 0);
      CutOut(ys, j);
      assert multiset(Without(xs, 0)) == multiset(xs) - multiset{xs[0]};
      assert multiset(Without(ys, j)) == multiset(ys) - multiset{xs[0]};
      RecordsPermute(Without(xs, 0), Without(ys, j));
      CutOutRecord(xs, 0);
      CutOutRecord(ys, j);
      CutOut(RecordsOf(xs), 0);
      CutOut(RecordsOf(ys), j);
    }
  }

  lemma {:induction false} IssuedCount(records: seq<Record>, now: nat, r: Record)
    ensures multiset(RecordsOf(IssuedBy(records, now)))[r] == if r.issuedAt <= now then multiset(records)[r] else 0
  {
    if records != [] {
      var last := |records| - 1;
      var earlier := IssuedBy(records[..last], now);
      IssuedCount(records[..last], now, r);
      assert records == records[..last] + [records[last]];
      if records[last].issuedAt <= now {
        assert RecordsOf(IssuedBy(records, now)) == RecordsOf(earlier) + [records[last]];
      }
    }
  }

  lemma OrderedRecords(records: seq<Record>, shuffled: seq<Record>, now: nat, xs: seq<Event>, ys: seq<Event>)
    requires multiset(records) == multiset(shuffled)
    requires IsEventOrder(records, now, xs) && IsEventOrder(shuffled, now, ys)
    ensures multiset(RecordsOf(xs)) == multiset(RecordsOf(ys))
  {
    RecordsPermute(xs, IssuedBy(records, now));
    RecordsPermute(ys, IssuedBy(shuffled, now));
    forall r
      ensures multiset(RecordsOf(IssuedBy(records, now)))[r] == multiset(RecordsOf(IssuedBy(shuffled, now)))[r]
    {
      IssuedCount(records, now, r);
      IssuedCount(shuffled, now, r);
    }
  }

  lemma OrderIsUnique(records: seq<Record>, shuffled: seq<Record>, now: nat, xs: seq<Event>, ys: seq<Event>)
    requires multiset(records) == multiset(shuffled) && Tieless(records)
    requires IsEventOrder(records, now, xs) && IsEventOrder(shuffled, now, ys)
    ensures RecordsOf(xs) == RecordsOf(ys)
  {
    OrderedRecords(records, shuffled, now, xs, ys);
    forall a, b | a in RecordsOf(xs) && b in RecordsOf(xs) && RecordLeq(a, b) && RecordLeq(b, a)
      ensures a == b
    {
      var i :| 0 <= i < |xs| && xs[i].record == a;
      var j :| 0 <= j < |xs| && xs[j].record == b;
      OrderedMember(records, now, xs, xs[i]);
      OrderedMember(records, now, xs, xs[j]);
      assert Tied(a, b) && a == records[xs[i].index] && b == records[xs[j].index];
    }
    SortedIsUnique(RecordsOf(xs), RecordsOf(ys), RecordLeq);
  }

  lemma OrderIsDistinct(records: seq<Record>, now: nat, xs: seq<Event>)
    requires IsEventOrder(records, now, xs)
    ensures Distinct(xs)
  {
    forall ev
      ensures multiset(xs)[ev] <= 1
    {
      Conservation.IssuedOnce(records, now, ev);
    }
    AtMostOnceDistinct(xs);
  }

  ghost function PairUp(xs: seq<Event>, ys: seq<Event>): Renaming
    requires |xs| == |ys| && Distinct(xs)
  {
    map i | 0 <= i < |xs| :: xs[i] := ys[i]
  }

  ghost predicate Injective(ren: Renaming) {
    forall a, b :: a in ren && b in ren && ren[a] == ren[b] ==> a == b
  }

  lemma PairUpRenames(xs: seq<Event>, ys: seq<Event>) returns (ren: Renaming)
    requires Distinct(xs) && Distinct(ys) && RecordsOf(xs) == RecordsOf(ys)
    ensures KeepsRecords(ren) && Injective(ren) && RenamesList(ren, xs, ys)
  {
    assert |xs| == |RecordsOf(xs)| == |RecordsOf(ys)| == |ys|;
    assert forall i :: 0 <= i < |xs| ==> xs[i].record == RecordsOf(xs)[i] == RecordsOf(ys)[i] == ys[i].record;
    ren := PairUp(xs, ys);
  }

  /** Two replicas' evaluations are one evaluation up to list positions. */
  lemma EvaluationsRenamed(records: seq<Record>, shuffled: seq<Record>, roots: set<Peer>, now: nat, e: Evaluation,
                           f: Evaluation)
    returns (ren: Renaming)
    requires multiset(records) == multiset(shuffled) && Tieless(records)
    requires IsEvaluation(records, roots, now, e) && IsEvaluation(shuffled, roots, now, f)
    ensures KeepsRecords(ren) && Injective(ren) && RenamesEvaluation(ren, e, f)
  {
    var xs: seq<Event> :| IsEventOrder(records, now, xs) && e == Evaluate(xs, roots, now);
    var ys: seq<Event> :| IsEventOrder(shuffled, now, ys) && f == Evaluate(ys, roots, now);
    OrderIsUnique(records, shuffled, now, xs, ys);
    OrderIsDistinct(records, now, xs);
    OrderIsDistinct(shuffled, now, ys);
    ren := PairUpRenames(xs, ys);
    ReplayRenamed(ren, EMPTY, EMPTY, xs, ys, roots);
    ExpireRenamed(ren, ReplayFrom(EMPTY, xs, roots).states, ReplayFrom(EMPTY, ys, roots).states, now);
  }

  ghost predicate SameRecords(m: map<Peer, Event>, n: map<Peer, Event>) {
    m.Keys == n.Keys && forall p :: p in m ==> m[p].record == n[p].record
  }

  /** Agreement on everything an evaluation says about records. */
  ghost predicate Agree(e: Evaluation, f: Evaluation) {
    && RecordsOf(Conservation.EventsOf(e.accepted)) == RecordsOf(Conservation.EventsOf(f.accepted))
    && e.states.Keys == f.states.Keys
    && (forall p :: p in e.states ==>
          e.states[p].active == f.states[p].active && e.states[p].event.record == f.states[p].event.record)
    && SameRecords(e.firstAdmissions, f.firstAdmissions)
    && SameRecords(e.currentAdmissions, f.currentAdmissions)
  }

  /**
   Convergence: for any two orders of one record list without ties, every evaluation at any time
   accepts the same records and agrees on each member's record, active flag and admissions.
   */
  lemma LedgerConverges(records: seq<Record>, shuffled: seq<Record>, roots: set<Peer>, now: nat, e: Evaluation, f: Evaluation)
    requires multiset(records) == multiset(shuffled) && Tieless(records)
    requires IsEvaluation(records, roots, now, e) && IsEvaluation(shuffled, roots, now, f)
    ensures Agree(e, f)
  {
    var ren := EvaluationsRenamed(records, shuffled, roots, now, e, f);
    var xs, ys := RecordsOf(Conservation.EventsOf(e.accepted)), RecordsOf(Conservation.EventsOf(f.accepted));
    assert forall k :: 0 <= k < |xs| ==> Renames(ren, e.accepted[k].event, f.accepted[k].event) && xs[k] == ys[k];
  }

  lemma AnchorsConverge(records: seq<Record>, shuffled: seq<Record>)
    requires multiset(records) == multiset(shuffled)
    ensures AnchorsOf(records) == AnchorsOf(shuffled)
  {
    SameElements(records, shuffled);
    assert SelfIssuers(records) == SelfIssuers(shuffled);
    assert (set r | r in records :: r.issuer) == (set r | r in shuffled :: r.issuer);
  }

  // Trust paths

  lemma RankRenamed(ren: Renaming, l: seq<Acceptance>, m: seq<Acceptance>, a: Event)
    requires Injective(ren) && RenamesLog(ren, l, m) && a in ren
    ensures Rank(l, a) == Rank(m, ren[a])
  {
    var i, j := Rank(l, a), Rank(m, ren[a]);
    if i < |l| {
      assert Renames(ren, l[i].event, m[i].event);
    }
    if j < |m| {
      assert Renames(ren, l[j].event, m[j].event);
    }
  }

  lemma {:induction false} ChainRenamed(ren: Renaming, l: seq<Acceptance>, m: seq<Acceptance>, roots: set<Peer>, a: Event)
    requires KeepsRecords(ren) && Injective(ren) && RenamesLog(ren, l, m) && a in ren
    requires LogSound(l, roots) && Logged(l, a) && a.record.IsAdmission()
    requires LogSound(m, roots) && Logged(m, ren[a])
    ensures Chain(l, roots, a) == Chain(m, roots, ren[a])
    decreases Rank(l, a)
  {
    RankRenamed(ren, l, m, a);
    AuthorizerRanksBelow(l, roots, a);
    AuthorizerRanksBelow(m, roots, ren[a]);
    var n := Rank(l, a);
    assert RenamesOption(ren, l[n].authorizer, m[n].authorizer);
    match AuthorizerOf(l, a)
    case None =>
    case Some(b) => ChainRenamed(ren, l, m, roots, b);
  }

  /** Replicas also agree on every member's trust path. */
  lemma TrustPathsConverge(records: seq<Record>, shuffled: seq<Record>, member: Peer, now: nat,
                           path: Option<seq<Record>>, other: Option<seq<Record>>)
    requires multiset(records) == multiset(shuffled) && Tieless(records)
    requires IsTrustPath(records, member, now, path) && IsTrustPath(shuffled, member, now, other)
    ensures path == other
  {
    AnchorsConverge(records, shuffled);
    var roots := AnchorsOf(records);
    var e :| WalksIn(records, e, member, now, path);
    var f :| WalksIn(shuffled, f, member, now, other);
    var ren := EvaluationsRenamed(records, shuffled, roots, now, e, f);
    assert member in e.states <==> member in f.states;
    if path.Some? {
      ChainRenamed(ren, e.accepted, f.accepted, roots, e.states[member].event);
    }
  }
}
