/** The validation of a stored history and the trust anchors derived from it. */
module Anchors {
  import opened Prelude
  import opened Records
  import Versions

  function HistoryCheck(records: seq<Record>, network: string, signed: Record -> bool): (o: Outcome<RecordError>)
    ensures o.Pass? ==> forall r :: r in records ==> OutlivesIssue(r)
  {
    if |records| > MAX_MEMBERSHIP_RECORDS then Fail(TooManyRecords(MAX_MEMBERSHIP_RECORDS, |records|))
    else if CheckRecords(records, network, signed).Fail? then CheckRecords(records, network, signed)
    else match Versions.Latest(records)
      case Ok(_) => Pass
      case Err(error) => Fail(error)
  }

  function SelfIssuers(records: seq<Record>): set<Peer> {
    set r | r in records && r.SelfIssued() :: r.issuer
  }

  /** The self-issuers if there are any, otherwise every issuer. */
  function AnchorsOf(records: seq<Record>): set<Peer> {
    if SelfIssuers(records) != {} then SelfIssuers(records) else set r | r in records :: r.issuer
  }

  /** The program looks only at the latest record of each pair; the anchors are those of the whole list. */
  method TrustAnchors(records: seq<Record>, network: string, signed: Record -> bool)
    returns (result: Result<set<Peer>, RecordError>)
    ensures match HistoryCheck(records, network, signed)
      case Fail(error) => result == Err(error)
      case Pass => result == Ok(AnchorsOf(records))
  {
    var check := HistoryCheck(records, network, signed);
    if check.Fail? {
      return Err(check.error);
    }
    var latest := Versions.LatestRecords(records);
    Versions.LatestIsLatest(records);
    var canonical := latest.value.Values;
    var selfIssuers := set r | r in canonical && r.SelfIssued() :: r.issuer;
    var issuers := set r | r in canonical :: r.issuer;
    forall r | r in records
      ensures latest.value[Versions.PairOf(r)] in canonical && r.issuer in issuers
      ensures r.SelfIssued() ==> r.issuer in selfIssuers
    {
      var newest := latest.value[Versions.PairOf(r)];
      assert newest in canonical && Versions.PairOf(newest) == Versions.PairOf(r);
    }
    assert selfIssuers == SelfIssuers(records);
    assert issuers == set r | r in records :: r.issuer;
    if selfIssuers != {} {
      return Ok(selfIssuers);
    }
    return Ok(issuers);
  }
}
