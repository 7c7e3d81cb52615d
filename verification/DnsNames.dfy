/** The text of DNS names: their order, full names, and the reverse-lookup names of addresses. */
module DnsNames {
  import opened Prelude
  import opened Net
  import opened Sorting

  // Byte-wise order

  predicate LexLeq(a: string, b: string) {
    if a == "" then true
    else if b == "" then false
    else if a[0] != b[0] then a[0] < b[0]
    else LexLeq(a[1..], b[1..])
  }

  lemma {:induction false} LexTotal(a: string, b: string)
    ensures LexLeq(a, b) || LexLeq(b, a)
    ensures LexLeq(a, b) && LexLeq(b, a) ==> a == b
  {
    if a != "" && b != "" && a[0] == b[0] {
      LexTotal(a[1..], b[1..]);
      assert a == [a[0]] + a[1..] && b == [b[0]] + b[1..];
    }
  }

  lemma {:induction false} LexTransitive(a: string, b: string, c: string)
    requires LexLeq(a, b) && LexLeq(b, c)
    ensures LexLeq(a, c)
  {
    if a != "" && b != "" && c != "" && a[0] == b[0] && b[0] == c[0] {
      LexTransitive(a[1..], b[1..], c[1..]);
    }
  }

  ghost predicate StrictlySorted(keys: seq<string>) {
    forall i, j :: 0 <= i < j < |keys| ==> LexLeq(keys[i], keys[j]) && keys[i] != keys[j]
  }

  function KeysOf<T>(xs: seq<T>, key: T -> string): (keys: seq<string>)
    ensures |keys| == |xs| && forall i :: 0 <= i < |xs| ==> keys[i] == key(xs[i])
  {
    seq(|xs|, i requires 0 <= i < |xs| => key(xs[i]))
  }

  /** Only one sequence sorted by distinct keys has a given set of elements. */
  lemma KeyedSetIsUnique<T(!new)>(xs: seq<T>, ys: seq<T>, key: T -> string)
    requires StrictlySorted(KeysOf(xs, key)) && StrictlySorted(KeysOf(ys, key)) && forall x :: x in xs <==> x in ys
    ensures xs == ys
  {
    var leq := (a: T, b: T) => LexLeq(key(a), key(b));
    StrictlyKeyed(xs, key);
    StrictlyKeyed(ys, key);
    forall i, j | 0 <= i < |xs| && 0 <= j < |xs| && leq(xs[i], xs[j]) && leq(xs[j], xs[i])
      ensures xs[i] == xs[j]
    {
      LexTotal(key(xs[i]), key(xs[j]));
    }
    SortedSetIsUnique(xs, ys, leq);
  }

  lemma StrictlyKeyed<T>(xs: seq<T>, key: T -> string)
    requires StrictlySorted(KeysOf(xs, key))
    ensures Distinct(xs)
    ensures forall i, j :: 0 <= i < j < |xs| ==> key(xs[i]) != key(xs[j]) && LexLeq(key(xs[i]), key(xs[j]))
  {
    var keys := KeysOf(xs, key);
    assert forall i, j :: 0 <= i < j < |xs| ==> keys[i] != keys[j] && LexLeq(keys[i], keys[j]);
  }

  /** Binary search finds a key exactly when a linear search would. */
  method Search(keys: seq<string>, key: string) returns (found: Option<nat>)
    requires StrictlySorted(keys)
    ensures match found
      case Some(i) => i < |keys| && keys[i] == key
      case None => key !in keys
  {
    var low, high := 0, |keys|;
    while low < high
      invariant 0 <= low <= high <= |keys|
      invariant forall i :: 0 <= i < low ==> keys[i] != key
      invariant forall i :: high <= i < |keys| ==> keys[i] != key
    {
      var mid := (low + high) / 2;
      if keys[mid] == key {
        return Some(mid);
      }
      LexTotal(keys[mid], key);
      if LexLeq(keys[mid], key) {
        forall i | low <= i <= mid
          ensures keys[i] != key
        {
          LexTotal(keys[i], keys[mid]);
        }
        low := mid + 1;
      } else {
        forall i | mid <= i < high
          ensures keys[i] != key
        {
          LexTotal(keys[mid], keys[i]);
        }
        high := mid;
      }
    }
    return None;
  }

  // Full names

  const DNS_PRIVATE_SUFFIX := "p2p-vpn.internal"

  function CanonicalFqdn(name: string): string {
    var lower := Lower(name);
    if lower != "" && lower[|lower| - 1] == '.' then lower else lower + "."
  }

  function ZoneName(network: string): string {
    network + "." + DNS_PRIVATE_SUFFIX + "."
  }

  function Fqdn(name: string, zone: string): string {
    name + "." + zone
  }

  lemma FqdnIsInjective(a: string, b: string, zone: string)
    ensures Fqdn(a, zone) == Fqdn(b, zone) <==> a == b
  {
    if Fqdn(a, zone) == Fqdn(b, zone) {
      assert |a| == |b|;
      assert Fqdn(a, zone)[..|a|] == a && Fqdn(b, zone)[..|b|] == b;
    }
  }

  /** Full names are stored in the form that lookups are canonicalised to. */
  lemma FqdnIsCanonical(name: string, network: string)
    requires IsCanonicalLabel(name) && IsCanonicalLabel(network)
    ensures CanonicalFqdn(Fqdn(name, ZoneName(network))) == Fqdn(name, ZoneName(network))
  {
    var full := Fqdn(name, ZoneName(network));
    assert full == name + "." + network + "." + DNS_PRIVATE_SUFFIX + ".";
    forall c | c in full
      ensures !IsUpper(c)
    {
      assert c in name || c in network || c == '.' || c in DNS_PRIVATE_SUFFIX;
    }
    LowerFixed(full);
    assert full[|full| - 1] == '.';
  }

  // Reverse names

  function Digit(n: int): char
    requires 0 <= n < 16
  {
    if n < 10 then ('0' as int + n) as char else ('a' as int + (n - 10)) as char
  }

  function DigitValue(c: char): int {
    if c < 'a' then c as int - '0' as int else c as int - 'a' as int + 10
  }

  lemma DigitReadsBack(n: int)
    requires 0 <= n < 16
    ensures DigitValue(Digit(n)) == n && Digit(n) != '.'
  {}

  function Decimal(n: Octet): string {
    if n < 10 then [Digit(n)]
    else if n < 100 then [Digit(n / 10), Digit(n % 10)]
    else [Digit(n / 100), Digit(n / 10 % 10), Digit(n % 10)]
  }

  function ReadDecimal(s: string): int {
    if |s| == 1 then DigitValue(s[0])
    else if |s| == 2 then 10 * DigitValue(s[0]) + DigitValue(s[1])
    else if |s| == 3 then 100 * DigitValue(s[0]) + 10 * DigitValue(s[1]) + DigitValue(s[2])
    else 0
  }

  lemma DecimalReadsBack(n: Octet)
    ensures ReadDecimal(Decimal(n)) == n
  {
    DigitReadsBack(n % 10);
    DigitReadsBack(n / 10 % 10);
    DigitReadsBack(n / 100);
  }

  lemma DecimalHasNoDot(n: Octet)
    ensures '.' !in Decimal(n)
  {}

  /** The nibbles of the octets, last octet first, low nibble first. */
  function Nibbles(octets: seq<Octet>): (s: string)
    ensures |s| == 4 * |octets|
  {
    if octets == [] then ""
    else
      var last := octets[|octets| - 1];
      [Digit(last % 16), '.', Digit(last / 16), '.'] + Nibbles(octets[..|octets| - 1])
  }

  /** Section 3.5 of RFC 1035 and section 2.5 of RFC 3596. */
  function ReverseName(address: IpAddr): string {
    match address
    case V4(a, b, c, d) => Decimal(d) + "." + (Decimal(c) + "." + (Decimal(b) + "." + (Decimal(a) + "." + "in-addr.arpa.")))
    case V6(octets) => Nibbles(octets) + "ip6.arpa."
  }

  lemma FirstDot(s: string, u: string)
    requires '.' !in s
    ensures (s + "." + u)[|s|] == '.'
    ensures forall i :: 0 <= i < |s| ==> (s + "." + u)[i] != '.'
  {}

  lemma SplitAtDot(s: string, t: string, u: string, v: string)
    requires '.' !in s && '.' !in t && s + "." + u == t + "." + v
    ensures s == t && u == v
  {
    FirstDot(s, u);
    FirstDot(t, v);
    assert |s| == |t|;
    assert s == (s + "." + u)[..|s|] && t == (t + "." + v)[..|t|];
    assert u == (s + "." + u)[|s| + 1..] && v == (t + "." + v)[|t| + 1..];
  }

  lemma PeelOctet(m: Octet, n: Octet, u: string, v: string)
    requires Decimal(m) + "." + u == Decimal(n) + "." + v
    ensures m == n && u == v
  {
    DecimalHasNoDot(m);
    DecimalHasNoDot(n);
    SplitAtDot(Decimal(m), Decimal(n), u, v);
    DecimalReadsBack(m);
    DecimalReadsBack(n);
  }

  lemma {:induction false} NibblesAreInjective(a: seq<Octet>, b: seq<Octet>)
    requires |a| == |b| && Nibbles(a) == Nibbles(b)
    ensures a == b
  {
    if a != [] {
      var m, n := a[|a| - 1], b[|b| - 1];
      var u, v := Nibbles(a[..|a| - 1]), Nibbles(b[..|b| - 1]);
      assert Nibbles(a)[0] == Nibbles(b)[0] && Nibbles(a)[2] == Nibbles(b)[2];
      DigitReadsBack(m % 16);
      DigitReadsBack(n % 16);
      DigitReadsBack(m / 16);
      DigitReadsBack(n / 16);
      assert u == Nibbles(a)[4..] && v == Nibbles(b)[4..];
      NibblesAreInjective(a[..|a| - 1], b[..|b| - 1]);
      assert a == a[..|a| - 1] + [m] && b == b[..|b| - 1] + [n];
    }
  }

  /** Different addresses have different reverse names. */
  lemma ReverseNameIsInjective(x: IpAddr, y: IpAddr)
    requires ReverseName(x) == ReverseName(y)
    ensures x == y
  {
    match (x, y)
    case (V4(a, b, c, d), V4(a', b', c', d')) =>
      var s3, t3 := Decimal(a) + "." + "in-addr.arpa.", Decimal(a') + "." + "in-addr.arpa.";
      var s2, t2 := Decimal(b) + "." + s3, Decimal(b') + "." + t3;
      var s1, t1 := Decimal(c) + "." + s2, Decimal(c') + "." + t2;
      PeelOctet(d, d', s1, t1);
      PeelOctet(c, c', s2, t2);
      PeelOctet(b, b', s3, t3);
      PeelOctet(a, a', "in-addr.arpa.", "in-addr.arpa.");
    case (V6(o), V6(o')) =>
      assert Nibbles(o) == ReverseName(x)[..64] && Nibbles(o') == ReverseName(y)[..64];
      NibblesAreInjective(o, o');
    case (V4(_, _, _, _), V6(_)) => V4EndsDifferently(x, y);
    case (V6(_), V4(_, _, _, _)) => V4EndsDifferently(y, x);
  }

  lemma FromTheEnd(s: string, u: string, k: nat)
    requires 0 < k <= |u|
    ensures (s + u)[|s + u| - k] == u[|u| - k]
  {}

  lemma V4EndsDifferently(x: IpAddr, y: IpAddr)
    requires x.V4? && y.V6?
    ensures ReverseName(x) != ReverseName(y)
  {
    var s := "in-addr.arpa.";
    var s3 := Decimal(x.a) + "." + s;
    var s2 := Decimal(x.b) + "." + s3;
    var s1 := Decimal(x.c) + "." + s2;
    FromTheEnd(Decimal(x.a) + ".", s, 9);
    FromTheEnd(Decimal(x.b) + ".", s3, 9);
    FromTheEnd(Decimal(x.c) + ".", s2, 9);
    FromTheEnd(Decimal(x.d) + ".", s1, 9);
    FromTheEnd(Nibbles(y.octets), "ip6.arpa.", 9);
    assert s[4] == 'd' && "ip6.arpa."[0] == 'i';
  }
}
