/** The reverse index of a zone: which record answers for an address, and when that is determined. */
module ReverseRecords {
  import opened Net
  import opened Records
  import opened Sorting
  import opened DnsNames
  import opened Claims

  datatype RecordSet = RecordSet(
    name: string,
    fqdn: string,
    peer: Peer,
    addresses: set<IpAddr>,
    sources: set<Source>,
    fallback: bool)

  function FqdnOf(r: RecordSet): string {
    r.fqdn
  }

  // Which record of a peer is preferred

  /** The first friendly record of its peer, or the first one if it has no friendly record. */
  ghost predicate PreferredAt(records: seq<RecordSet>, i: int) {
    && 0 <= i < |records|
    && (forall j :: 0 <= j < i && records[j].peer == records[i].peer ==> records[j].fallback && !records[i].fallback)
    && (records[i].fallback ==> forall j :: 0 <= j < |records| && records[j].peer == records[i].peer ==> records[j].fallback)
  }

  ghost predicate Preferred(records: seq<RecordSet>, r: RecordSet) {
    exists i :: PreferredAt(records, i) && records[i] == r
  }

  lemma PreferredIsUnique(records: seq<RecordSet>, r: RecordSet, x: RecordSet)
    requires Preferred(records, r) && Preferred(records, x) && r.peer == x.peer
    ensures r == x
  {
    var i :| PreferredAt(records, i) && records[i] == r;
    var j :| PreferredAt(records, j) && records[j] == x;
    assert i == j;
  }

  lemma StaysPreferred(front: seq<RecordSet>, r: RecordSet, x: RecordSet)
    requires Preferred(front, x) && (r.peer == x.peer && x.fallback ==> r.fallback)
    ensures Preferred(front + [r], x)
  {
    var i :| PreferredAt(front, i) && front[i] == x;
    assert PreferredAt(front + [r], i);
  }

  lemma BecomesPreferred(front: seq<RecordSet>, r: RecordSet)
    requires forall x :: x in front && x.peer == r.peer ==> x.fallback && !r.fallback
    ensures Preferred(front + [r], r)
  {
    assert PreferredAt(front + [r], |front|);
  }

  lemma FallbackOnly(records: seq<RecordSet>, r: RecordSet)
    requires Preferred(records, r) && r.fallback
    ensures forall x :: x in records && x.peer == r.peer ==> x.fallback
  {
    var i :| PreferredAt(records, i) && records[i] == r;
  }

  lemma {:induction false} SomePreferred(records: seq<RecordSet>, r: RecordSet) returns (x: RecordSet)
    requires r in records
    ensures Preferred(records, x) && x.peer == r.peer
  {
    var front, last := records[..|records| - 1], records[|records| - 1];
    assert records == front + [last];
    if y :| y in front && y.peer == r.peer {
      x := SomePreferred(front, y);
      if last.peer == x.peer && x.fallback && !last.fallback {
        FallbackOnly(front, x);
        BecomesPreferred(front, last);
        x := last;
      } else {
        StaysPreferred(front, last, x);
      }
    } else {
      x := last;
      BecomesPreferred(front, last);
    }
  }

  ghost predicate Prefers(records: seq<RecordSet>, preferred: map<Peer, RecordSet>) {
    && (forall p :: p in preferred ==> preferred[p].peer == p && Preferred(records, preferred[p]))
    && (forall r :: r in records ==> r.peer in preferred)
  }

  function Prefer(preferred: map<Peer, RecordSet>, r: RecordSet): map<Peer, RecordSet> {
    if r.peer !in preferred || (preferred[r.peer].fallback && !r.fallback) then preferred[r.peer := r] else preferred
  }

  lemma PreferNext(front: seq<RecordSet>, preferred: map<Peer, RecordSet>, r: RecordSet)
    requires Prefers(front, preferred)
    ensures Prefers(front + [r], Prefer(preferred, r))
  {
    var after := Prefer(preferred, r);
    forall p | p in after
      ensures after[p].peer == p && Preferred(front + [r], after[p])
    {
      if p in preferred && after[p] == preferred[p] {
        StaysPreferred(front, r, preferred[p]);
      } else {
        if p in preferred {
          FallbackOnly(front, preferred[p]);
        }
        BecomesPreferred(front, r);
      }
    }
  }

  method PreferRecords(records: seq<RecordSet>) returns (preferred: map<Peer, RecordSet>)
    ensures Prefers(records, preferred)
  {
    preferred := map[];
    for i := 0 to |records|
      invariant Prefers(records[..i], preferred)
    {
      var r := records[i];
      assert records[..i + 1] == records[..i] + [r];
      PreferNext(records[..i], preferred, r);
      if r.peer !in preferred || (preferred[r.peer].fallback && !r.fallback) {
        preferred := preferred[r.peer := r];
      }
    }
    assert records[..|records|] == records;
  }

  // The index

  function ReverseNames(r: RecordSet): set<string> {
    set a | a in r.addresses :: ReverseName(a)
  }

  /** Entering a record takes over every address it has. */
  function Enter(reverse: map<string, string>, r: RecordSet): map<string, string> {
    map name | name in reverse.Keys + ReverseNames(r) :: if name in ReverseNames(r) then r.fqdn else reverse[name]
  }

  /** The index after visiting records in the given order. */
  function Via(order: seq<RecordSet>): map<string, string> {
    if order == [] then map[] else Enter(Via(order[..|order| - 1]), order[|order| - 1])
  }

  /** An order that visits each preferred record once. */
  ghost predicate Visits(records: seq<RecordSet>, order: seq<RecordSet>) {
    Distinct(order) && forall r :: r in order <==> Preferred(records, r)
  }

  /** What building the index may yield: the outcome of some visiting order. */
  ghost predicate IsReverse(records: seq<RecordSet>, reverse: map<string, string>) {
    exists order :: Visits(records, order) && reverse == Via(order)
  }

  method AddReverse(reverse: map<string, string>, r: RecordSet) returns (after: map<string, string>)
    ensures after == Enter(reverse, r)
  {
    after := reverse;
    var pending := r.addresses;
    while pending != {}
      invariant pending <= r.addresses
      invariant after == Enter(reverse, r.(addresses := r.addresses - pending))
      decreases pending
    {
      var a :| a in pending;
      EnterOne(reverse, r, r.addresses - pending, a);
      assert r.addresses - (pending - {a}) == r.addresses - pending + {a};
      after := after[ReverseName(a) := r.fqdn];
      pending := pending - {a};
    }
    assert r.(addresses := r.addresses - pending) == r;
  }

  lemma EnterOne(reverse: map<string, string>, r: RecordSet, done: set<IpAddr>, a: IpAddr)
    ensures Enter(reverse, r.(addresses := done + {a})) == Enter(reverse, r.(addresses := done))[ReverseName(a) := r.fqdn]
  {
    assert ReverseNames(r.(addresses := done + {a})) == ReverseNames(r.(addresses := done)) + {ReverseName(a)};
  }

  method BuildReverse(records: seq<RecordSet>) returns (reverse: map<string, string>)
    ensures IsReverse(records, reverse)
  {
    var preferred := PreferRecords(records);
    reverse := map[];
    var pending := preferred.Keys;
    ghost var order: seq<RecordSet> := [];
    while pending != {}
      invariant pending <= preferred.Keys && Distinct(order) && reverse == Via(order)
      invariant forall r :: r in order <==> r.peer in preferred.Keys - pending && preferred[r.peer] == r
      decreases pending
    {
      SomePeer(pending);
      var p :| p in pending;
      assert preferred[p].peer == p && preferred[p] !in order;
      reverse := AddReverse(reverse, preferred[p]);
      assert (order + [preferred[p]])[..|order|] == order;
      order := order + [preferred[p]];
      pending := pending - {p};
    }
    VisitsAll(records, preferred, order);
  }

  lemma VisitsAll(records: seq<RecordSet>, preferred: map<Peer, RecordSet>, order: seq<RecordSet>)
    requires Prefers(records, preferred) && Distinct(order)
    requires forall r :: r in order <==> r.peer in preferred && preferred[r.peer] == r
    ensures Visits(records, order)
  {
    forall r
      ensures r in order <==> Preferred(records, r)
    {
      if Preferred(records, r) {
        PreferredIsRecord(records, r);
        PreferredIsUnique(records, r, preferred[r.peer]);
      }
    }
  }

  lemma PreferredIsRecord(records: seq<RecordSet>, r: RecordSet)
    requires Preferred(records, r)
    ensures r in records
  {}

  // What every such index has in common

  /** A reverse entry names a preferred record that owns the address. */
  ghost predicate ReverseEntry(records: seq<RecordSet>, name: string, target: string) {
    exists r, a :: r in records && a in r.addresses && Preferred(records, r) && name == ReverseName(a) && target == r.fqdn
  }

  ghost predicate ReverseSound(records: seq<RecordSet>, reverse: map<string, string>) {
    forall name :: name in reverse ==> ReverseEntry(records, name, reverse[name])
  }

  ghost predicate ReverseComplete(records: seq<RecordSet>, reverse: map<string, string>) {
    forall r, a :: r in records && a in r.addresses ==> ReverseName(a) in reverse
  }

  /** All records of a peer carry that peer's addresses. */
  ghost predicate OneAddressSetPerPeer(records: seq<RecordSet>) {
    forall r, x :: r in records && x in records && r.peer == x.peer ==> r.addresses == x.addresses
  }

  /** The record that is visited last among those with a name decides its target. */
  ghost predicate Decides(order: seq<RecordSet>, i: int, name: string) {
    0 <= i < |order| && name in ReverseNames(order[i]) && forall j :: i < j < |order| ==> name !in ReverseNames(order[j])
  }

  lemma {:induction false} LastVisitedDecides(order: seq<RecordSet>, name: string)
    ensures name in Via(order) <==> exists r :: r in order && name in ReverseNames(r)
    ensures name in Via(order) ==> exists i :: Decides(order, i, name) && Via(order)[name] == order[i].fqdn
  {
    if order != [] {
      var front, last := order[..|order| - 1], order[|order| - 1];
      assert order == front + [last];
      LastVisitedDecides(front, name);
      if name in ReverseNames(last) {
        assert Decides(order, |front|, name);
      } else if name in Via(front) {
        var i :| Decides(front, i, name) && Via(front)[name] == front[i].fqdn;
        assert Decides(order, i, name) && order[i] == front[i];
      }
    }
  }

  lemma OneDecides(order: seq<RecordSet>, i: int, k: int, name: string)
    requires Decides(order, i, name) && Decides(order, k, name)
    ensures i == k
  {}

  lemma ReverseIsSound(records: seq<RecordSet>, reverse: map<string, string>)
    requires IsReverse(records, reverse)
    ensures ReverseSound(records, reverse)
  {
    var order: seq<RecordSet> :| Visits(records, order) && reverse == Via(order);
    forall name | name in reverse
      ensures ReverseEntry(records, name, reverse[name])
    {
      LastVisitedDecides(order, name);
      var i :| Decides(order, i, name) && Via(order)[name] == order[i].fqdn;
      var a :| a in order[i].addresses && ReverseName(a) == name;
      assert order[i] in order;
      PreferredIsRecord(records, order[i]);
    }
  }

  lemma ReverseIsComplete(records: seq<RecordSet>, reverse: map<string, string>)
    requires IsReverse(records, reverse) && OneAddressSetPerPeer(records)
    ensures ReverseComplete(records, reverse)
  {
    var order: seq<RecordSet> :| Visits(records, order) && reverse == Via(order);
    forall r, a | r in records && a in r.addresses
      ensures ReverseName(a) in reverse
    {
      var x := SomePreferred(records, r);
      PreferredIsRecord(records, x);
      assert x in order && ReverseName(a) in ReverseNames(x);
      LastVisitedDecides(order, ReverseName(a));
    }
  }

  /** Addresses with the same owners are answered by the same record. */
  lemma SameOwnersSameTarget(records: seq<RecordSet>, reverse: map<string, string>, a: IpAddr, b: IpAddr)
    requires IsReverse(records, reverse)
    requires forall r :: Preferred(records, r) ==> (a in r.addresses <==> b in r.addresses)
    ensures ReverseName(a) in reverse <==> ReverseName(b) in reverse
    ensures ReverseName(a) in reverse ==> reverse[ReverseName(a)] == reverse[ReverseName(b)]
  {
    var order: seq<RecordSet> :| Visits(records, order) && reverse == Via(order);
    forall i | 0 <= i < |order|
      ensures ReverseName(a) in ReverseNames(order[i]) <==> ReverseName(b) in ReverseNames(order[i])
    {
      assert order[i] in order;
      NameOfAddress(order[i], a);
      NameOfAddress(order[i], b);
    }
    LastVisitedDecides(order, ReverseName(a));
    LastVisitedDecides(order, ReverseName(b));
    if ReverseName(a) in reverse {
      var i :| Decides(order, i, ReverseName(a)) && Via(order)[ReverseName(a)] == order[i].fqdn;
      var k :| Decides(order, k, ReverseName(b)) && Via(order)[ReverseName(b)] == order[k].fqdn;
      OneDecides(order, i, k, ReverseName(a));
    }
  }

  lemma NameOfAddress(r: RecordSet, a: IpAddr)
    ensures ReverseName(a) in ReverseNames(r) <==> a in r.addresses
  {
    if ReverseName(a) in ReverseNames(r) {
      var b :| b in r.addresses && ReverseName(b) == ReverseName(a);
      ReverseNameIsInjective(a, b);
    }
  }

  // When the index is determined

  /** Whether two peers' records carry one address. */
  ghost predicate SharesAddress(records: seq<RecordSet>) {
    exists r, x, a :: r in records && x in records && r.peer != x.peer && a in r.addresses && a in x.addresses
  }

  lemma TargetIsUnique(records: seq<RecordSet>, name: string, target: string, other: string)
    requires !SharesAddress(records) && ReverseEntry(records, name, target) && ReverseEntry(records, name, other)
    ensures target == other
  {
    var r, a :| r in records && a in r.addresses && Preferred(records, r) && name == ReverseName(a) && target == r.fqdn;
    var x, b :| x in records && b in x.addresses && Preferred(records, x) && name == ReverseName(b) && other == x.fqdn;
    ReverseNameIsInjective(a, b);
    PreferredIsUnique(records, r, x);
  }

  lemma ReverseNamesAgree(records: seq<RecordSet>, y: map<string, string>, z: map<string, string>)
    requires IsReverse(records, y) && IsReverse(records, z)
    ensures y.Keys == z.Keys
  {
    var order: seq<RecordSet> :| Visits(records, order) && y == Via(order);
    var other: seq<RecordSet> :| Visits(records, other) && z == Via(other);
    forall name
      ensures name in y <==> name in z
    {
      LastVisitedDecides(order, name);
      LastVisitedDecides(other, name);
    }
  }

  lemma ReverseIsUnique(records: seq<RecordSet>, y: map<string, string>, z: map<string, string>)
    requires !SharesAddress(records) && IsReverse(records, y) && IsReverse(records, z)
    ensures y == z
  {
    ReverseNamesAgree(records, y, z);
    ReverseIsSound(records, y);
    ReverseIsSound(records, z);
    forall name | name in y
      ensures y[name] == z[name]
    {
      TargetIsUnique(records, name, y[name], z[name]);
    }
  }

  lemma LastIsEntered(order: seq<RecordSet>, r: RecordSet, a: IpAddr)
    requires a in r.addresses
    ensures var index := Via(order + [r]); ReverseName(a) in index && index[ReverseName(a)] == r.fqdn
  {
    assert (order + [r])[..|order|] == order;
  }

  lemma MovedLast(order: seq<RecordSet>, i: nat)
    requires Distinct(order) && i < |order|
    ensures var moved := order[..i] + order[i + 1..] + [order[i]];
      Distinct(moved) && forall r :: r in moved <==> r in order
  {
    var moved := order[..i] + order[i + 1..] + [order[i]];
    assert forall k :: 0 <= k < |moved| ==> moved[k] == order[if k < i then k else if k < |order| - 1 then k + 1 else i];
    forall r | r in order
      ensures r in moved
    {
      var k :| 0 <= k < |order| && order[k] == r;
      assert moved[if k < i then k else if k > i then k - 1 else |order| - 1] == r;
    }
  }

  lemma VisitedLast(records: seq<RecordSet>, order: seq<RecordSet>, r: RecordSet) returns (rest: seq<RecordSet>)
    requires Visits(records, order) && Preferred(records, r)
    ensures Visits(records, rest + [r])
  {
    assert r in order;
    var i :| 0 <= i < |order| && order[i] == r;
    rest := order[..i] + order[i + 1..];
    MovedLast(order, i);
  }

  /** Every preferred owner of an address is its answer in the index of some visiting order. */
  lemma VisitLast(records: seq<RecordSet>, reverse: map<string, string>, r: RecordSet, a: IpAddr)
    returns (other: map<string, string>)
    requires IsReverse(records, reverse) && Preferred(records, r) && a in r.addresses
    ensures IsReverse(records, other) && ReverseName(a) in other && other[ReverseName(a)] == r.fqdn
  {
    var order: seq<RecordSet> :| Visits(records, order) && reverse == Via(order);
    var rest := VisitedLast(records, order, r);
    LastIsEntered(rest, r, a);
    other := Via(rest + [r]);
  }

  /** If two peers' records share an address, two visiting orders give it different answers. */
  lemma SharedAddressIsAmbiguous(records: seq<RecordSet>, reverse: map<string, string>)
    returns (other: map<string, string>)
    requires SharesAddress(records) && OneAddressSetPerPeer(records) && StrictlySorted(KeysOf(records, FqdnOf))
    requires IsReverse(records, reverse)
    ensures IsReverse(records, other) && other != reverse
  {
    var r, x, a :| r in records && x in records && r.peer != x.peer && a in r.addresses && a in x.addresses;
    var first := SomePreferred(records, r);
    var second := SomePreferred(records, x);
    PreferredIsRecord(records, first);
    PreferredIsRecord(records, second);
    DifferentPeersDifferentNames(records, first, second);
    var y := VisitLast(records, reverse, first, a);
    var z := VisitLast(records, reverse, second, a);
    other := if y == reverse then z else y;
  }

  lemma DifferentPeersDifferentNames(records: seq<RecordSet>, r: RecordSet, x: RecordSet)
    requires StrictlySorted(KeysOf(records, FqdnOf)) && r in records && x in records && r.peer != x.peer
    ensures r.fqdn != x.fqdn
  {
    StrictlyKeyed(records, FqdnOf);
    var i, j :| 0 <= i < |records| && 0 <= j < |records| && records[i] == r && records[j] == x;
  }
}
