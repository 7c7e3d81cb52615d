/** Addresses, routes and DNS labels: the leaf values that records and zones carry. */
module Net {
  import opened Prelude

  type Octet = x: int | 0 <= x < 256

  type Ipv6Octets = s: seq<Octet> | |s| == 16 witness seq(16, _ => 0)

  datatype IpAddr = V4(a: Octet, b: Octet, c: Octet, d: Octet) | V6(octets: Ipv6Octets)

  /** A route after its prefix has been parsed. */
  datatype Route = Route(address: IpAddr, prefixLen: nat) {
    predicate IsHostRoute() {
      (address.V4? && prefixLen == 32) || (address.V6? && prefixLen == 128)
    }
  }

  const MAX_LABEL_LENGTH := 63

  datatype NameError = Empty | TooLong | LeadingHyphen | TrailingHyphen | InvalidCharacter

  predicate IsUpper(c: char) { 'A' <= c <= 'Z' }

  predicate IsLabelChar(c: char) {
    IsUpper(c) || 'a' <= c <= 'z' || '0' <= c <= '9' || c == '-'
  }

  function LowerChar(c: char): (r: char)
    ensures !IsUpper(r)
    ensures IsLabelChar(c) ==> IsLabelChar(r)
    ensures r == '-' <==> c == '-'
    ensures !IsUpper(c) ==> r == c
  {
    if IsUpper(c) then ((c as int) - ('A' as int) + ('a' as int)) as char else c
  }

  function Lower(s: string): (r: string)
    ensures |r| == |s|
    ensures forall i :: 0 <= i < |s| ==> r[i] == LowerChar(s[i])
  {
    if s == "" then "" else [LowerChar(s[0])] + Lower(s[1..])
  }

  predicate IsCanonicalLabel(s: string) {
    && 0 < |s| <= MAX_LABEL_LENGTH
    && s[0] != '-' && s[|s| - 1] != '-'
    && (forall c :: c in s ==> IsLabelChar(c) && !IsUpper(c))
  }

  /** Strings are byte strings here, so lengths are byte lengths. */
  function CanonicalLabel(name: string): (r: Result<string, NameError>)
    ensures r.Ok? ==> IsCanonicalLabel(r.value) && r.value == Lower(name)
  {
    if name == "" then Err(Empty)
    else if |name| > MAX_LABEL_LENGTH then Err(TooLong)
    else if name[0] == '-' then Err(LeadingHyphen)
    else if name[|name| - 1] == '-' then Err(TrailingHyphen)
    else if exists c :: c in name && !IsLabelChar(c) then Err(InvalidCharacter)
    else Ok(Lower(name))
  }

  lemma {:induction false} LowerFixed(s: string)
    requires forall c :: c in s ==> !IsUpper(c)
    ensures Lower(s) == s
  {
    assert forall i :: 0 <= i < |s| ==> s[i] in s && Lower(s)[i] == s[i];
  }

  /** The canonical labels are exactly the labels that canonicalisation leaves alone. */
  lemma CanonicalLabelIdempotent(name: string)
    ensures IsCanonicalLabel(name) <==> CanonicalLabel(name) == Ok(name)
  {
    if IsCanonicalLabel(name) {
      LowerFixed(name);
    }
  }
}
