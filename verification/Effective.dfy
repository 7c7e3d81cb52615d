/** The effective membership projected from an evaluation. */
module Effective {
  import opened Prelude
  import opened Net
  import opened Records
  import opened Ledger
  import opened Replay
  import opened Anchors
  import Convergence

  datatype EffectiveMember = EffectiveMember(
    peer: Peer,
    epoch: nat,
    sequence: nat,
    effectiveInviter: Option<Peer>,
    originalInviter: Option<Peer>,
    admittedAt: nat,
    originalAdmittedAt: nat,
    hostnames: seq<string>,
    roles: seq<Role>,
    routes: seq<Route>)
  {
    predicate IsOverlay() {
      OverlayMember in roles
    }
  }

  datatype EffectiveMembership = EffectiveMembership(
    members: map<Peer, EffectiveMember>,
    governed: set<Peer>,
    checkpointAuthoritative: bool)
  {
    /** Configuration decides until a peer has signed history; then only an active overlay grant does. */
    predicate AuthorizesConfigured(p: Peer) {
      || (!checkpointAuthoritative && p !in governed)
      || (p in members && members[p].IsOverlay())
    }
  }

  function InviterOf(r: Record): Option<Peer> {
    if r.SelfIssued() then None else Some(r.issuer)
  }

  function MemberFrom(r: Record, current: Record, original: Record): EffectiveMember {
    EffectiveMember(
      r.member, r.epoch, r.sequence, InviterOf(current), InviterOf(original), current.issuedAt, original.issuedAt,
      match r.hostname
        case None => []
        case Some(name) => (match CanonicalLabel(name) case Ok(canonical) => [canonical] case Err(_) => []),
      r.roles, r.routes)
  }

  function AdmissionOr(admissions: map<Peer, Event>, p: Peer, default: Record): Record {
    if p in admissions then admissions[p].record else default
  }

  function Project(e: Evaluation): EffectiveMembership {
    EffectiveMembership(
      map p | p in e.states && e.states[p].active ::
        var r := e.states[p].event.record;
        MemberFrom(r, AdmissionOr(e.currentAdmissions, p, r), AdmissionOr(e.firstAdmissions, p, r)),
      e.states.Keys,
      false)
  }

  ghost predicate IsEffective(records: seq<Record>, now: nat, membership: EffectiveMembership) {
    exists e :: IsEvaluation(records, AnchorsOf(records), now, e) && membership == Project(e)
  }

  method EffectiveMembershipAt(records: seq<Record>, network: string, now: nat, signed: Record -> bool)
    returns (result: Result<EffectiveMembership, RecordError>)
    ensures match HistoryCheck(records, network, signed)
      case Fail(error) => result == Err(error)
      case Pass => result.Ok? && IsEffective(records, now, result.value)
  {
    var anchors := TrustAnchors(records, network, signed);
    if anchors.Err? {
      return Err(anchors.error);
    }
    var evaluation := EvaluateLedger(records, anchors.value, now);
    return Ok(Project(evaluation.value));
  }

  /** Replicas project the same effective membership. */
  lemma EffectiveConverges(records: seq<Record>, shuffled: seq<Record>, now: nat,
                           membership: EffectiveMembership, other: EffectiveMembership)
    requires multiset(records) == multiset(shuffled) && Tieless(records)
    requires IsEffective(records, now, membership) && IsEffective(shuffled, now, other)
    ensures membership == other
  {
    Convergence.AnchorsConverge(records, shuffled);
    var e :| IsEvaluation(records, AnchorsOf(records), now, e) && membership == Project(e);
    var f :| IsEvaluation(shuffled, AnchorsOf(records), now, f) && other == Project(f);
    Convergence.LedgerConverges(records, shuffled, AnchorsOf(records), now, e, f);
    ProjectionsAgree(e, f);
  }

  lemma ProjectionsAgree(e: Evaluation, f: Evaluation)
    requires Convergence.Agree(e, f)
    ensures Project(e) == Project(f)
  {
    var m, n := Project(e).members, Project(f).members;
    assert e.states.Keys == f.states.Keys;
    assert m.Keys == n.Keys;
    forall p | p in m
      ensures m[p] == n[p]
    {
      assert p in e.currentAdmissions.Keys <==> p in f.currentAdmissions.Keys;
      assert p in e.firstAdmissions.Keys <==> p in f.firstAdmissions.Keys;
    }
  }
}
