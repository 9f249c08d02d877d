/**
 IPv4 addresses as text, and `range2ips` of
 assignment4/kubespray/contrib/inventory_builder/inventory.py. The text form is dotted decimal as
 in section 3.2.2 of RFC 3986 (IPv4address), so an octet has no leading zero.
 */
module Addresses {
  import opened Options
  import opened Decimal
  import opened Text

  const OCTET: nat := 256
  const ADDRESSES: nat := 0x1_0000_0000

  function ParseOctet(s: string): Option<nat> {
    if s != "" && AllDigits(s) && (s[0] == '0' ==> |s| == 1) && Value(s) < OCTET then Some(Value(s)) else None
  }

  function Combine(a: nat, b: nat, c: nat, d: nat): nat {
    ((a * OCTET + b) * OCTET + c) * OCTET + d
  }

  /** int(ip_address(s)), none for its ValueError. */
  function ParseAddress(s: string): Option<nat> {
    var parts := SplitAll(s, '.');
    if |parts| != 4 then None
    else
      var a :- ParseOctet(parts[0]);
      var b :- ParseOctet(parts[1]);
      var c :- ParseOctet(parts[2]);
      var d :- ParseOctet(parts[3]);
      Some(Combine(a, b, c, d))
  }

  /** ip_address(n).exploded */
  function AddressText(n: nat): string {
    Dotted(n / OCTET / OCTET / OCTET % OCTET, n / OCTET / OCTET % OCTET, n / OCTET % OCTET, n % OCTET)
  }

  function Dotted(a: nat, b: nat, c: nat, d: nat): string {
    Numeral(a) + ['.'] + (Numeral(b) + ['.'] + (Numeral(c) + ['.'] + Numeral(d)))
  }

  lemma OctetRoundTrip(n: nat)
    requires n < OCTET
    ensures ParseOctet(Numeral(n)) == Some(n)
  {
    ValueOfNumeral(n);
    NoLeadingZero(n);
  }

  lemma {:induction false} NoLeadingZero(n: nat)
    ensures Numeral(n)[0] == '0' ==> n == 0
  {
    if n >= 10 {
      NoLeadingZero(n / 10);
    }
  }

  lemma DottedParts(a: nat, b: nat, c: nat, d: nat)
    ensures SplitAll(Dotted(a, b, c, d), '.') == [Numeral(a), Numeral(b), Numeral(c), Numeral(d)]
  {
    NumeralIsFree(a, '.');
    NumeralIsFree(b, '.');
    NumeralIsFree(c, '.');
    NumeralIsFree(d, '.');
    SplitAllOfJoined(Numeral(a), '.', Numeral(b) + ['.'] + (Numeral(c) + ['.'] + Numeral(d)));
    SplitAllOfJoined(Numeral(b), '.', Numeral(c) + ['.'] + Numeral(d));
    SplitAllOfJoined(Numeral(c), '.', Numeral(d));
    SplitAllOfFree(Numeral(d), '.');
  }

  lemma CombineInverse(a: nat, b: nat, c: nat, d: nat)
    requires a < OCTET && b < OCTET && c < OCTET && d < OCTET
    ensures var n := Combine(a, b, c, d);
            && n < ADDRESSES
            && n % OCTET == d && n / OCTET % OCTET == c
            && n / OCTET / OCTET % OCTET == b && n / OCTET / OCTET / OCTET % OCTET == a
  {
    var x := a * OCTET + b;
    var y := x * OCTET + c;
    assert (y * OCTET + d) / OCTET == y && y / OCTET == x && x / OCTET == a;
  }

  lemma CombineOfDigits(n: nat)
    requires n < ADDRESSES
    ensures Combine(n / OCTET / OCTET / OCTET % OCTET, n / OCTET / OCTET % OCTET, n / OCTET % OCTET, n % OCTET) == n
  {
    var y := n / OCTET;
    var x := y / OCTET;
    assert n == y * OCTET + n % OCTET && y == x * OCTET + y % OCTET;
    assert x / OCTET < OCTET && x == x / OCTET * OCTET + x % OCTET;
  }

  /** The text of an address is its four octets in decimal, the most significant one first. */
  lemma TextOfOctets(n: nat, a: nat, b: nat, c: nat, d: nat)
    requires a < 256 && b < 256 && c < 256 && d < 256
    requires n == 0x100_0000 * a + 0x1_0000 * b + 0x100 * c + d
    ensures AddressText(n) == Numeral(a) + "." + Numeral(b) + "." + Numeral(c) + "." + Numeral(d)
  {
    CombineIsSum(a, b, c, d);
    TextOfCombined(n, a, b, c, d);
    DotsBetween(Numeral(a), Numeral(b), Numeral(c), Numeral(d));
  }

  lemma CombineIsSum(a: nat, b: nat, c: nat, d: nat)
    ensures Combine(a, b, c, d) == 0x100_0000 * a + 0x1_0000 * b + 0x100 * c + d
  {
  }

  lemma TextOfCombined(n: nat, a: nat, b: nat, c: nat, d: nat)
    requires a < OCTET && b < OCTET && c < OCTET && d < OCTET && n == Combine(a, b, c, d)
    ensures AddressText(n) == Dotted(a, b, c, d)
  {
    CombineInverse(a, b, c, d);
  }

  lemma DotsBetween(a: string, b: string, c: string, d: string)
    ensures a + ['.'] + (b + ['.'] + (c + ['.'] + d)) == a + "." + b + "." + c + "." + d
  {
  }

  /** Every address has a text that is read back as that address. */
  lemma AddressRoundTrip(n: nat)
    requires n < ADDRESSES
    ensures ParseAddress(AddressText(n)) == Some(n)
  {
    var a, b, c, d := n / OCTET / OCTET / OCTET % OCTET, n / OCTET / OCTET % OCTET, n / OCTET % OCTET, n % OCTET;
    DottedParts(a, b, c, d);
    OctetRoundTrip(a);
    OctetRoundTrip(b);
    OctetRoundTrip(c);
    OctetRoundTrip(d);
    CombineOfDigits(n);
  }

  lemma FourParts(s: string)
    requires |SplitAll(s, '.')| == 4
    ensures var p := SplitAll(s, '.'); s == p[0] + ['.'] + (p[1] + ['.'] + (p[2] + ['.'] + p[3]))
  {
    var s1 := SplitAllStep(s, '.');
    var s2 := SplitAllStep(s1, '.');
    var s3 := SplitAllStep(s2, '.');
  }

  /** The texts that are accepted are exactly the canonical ones. */
  lemma OnlyCanonicalTexts(s: string)
    requires ParseAddress(s).Some?
    ensures ParseAddress(s).value < ADDRESSES && AddressText(ParseAddress(s).value) == s
  {
    var parts := SplitAll(s, '.');
    var a, b, c, d := Value(parts[0]), Value(parts[1]), Value(parts[2]), Value(parts[3]);
    CombineInverse(a, b, c, d);
    NumeralOfValue(parts[0]);
    NumeralOfValue(parts[1]);
    NumeralOfValue(parts[2]);
    NumeralOfValue(parts[3]);
    FourParts(s);
  }
}
