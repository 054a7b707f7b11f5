/**
 The text renderings of raw identifiers and numbers.

 A decoded checkpoint shows its raw fields as base58 identifiers, byte-reversed hexadecimal
 transaction hashes and decimal integers.  Each rendering is injective on the values it is
 used for, so a rendered record determines the raw one.  The alphabets are defined here
 once, for the renderings and for the places that only test whether a string could be an
 identifier or a hash.
 */
module Base58 {
  import opened Bytes

  // The r-th letter of the alphabet 1-9, A-H, J-N, P-Z, a-k, m-z.
  function Letter(r: nat): (c: char)
    requires r < 58
  {
    if r < 9 then '1' + r as char
    else if r < 17 then 'A' + (r - 9) as char
    else if r < 22 then 'J' + (r - 17) as char
    else if r < 33 then 'P' + (r - 22) as char
    else if r < 44 then 'a' + (r - 33) as char
    else 'm' + (r - 44) as char
  }

  predicate IsLetter(c: char) {
    exists r: nat :: r < 58 && Letter(r) == c
  }

  // The alphabet is the digits and letters without 0, O, I and l, in ascending order.
  lemma AlphabetMeaning(c: char)
    ensures forall q, r :: 0 <= q < r < 58 ==> Letter(q) < Letter(r)
    ensures IsLetter(c) <==>
      ('0' <= c <= '9' || 'A' <= c <= 'Z' || 'a' <= c <= 'z') && c != '0' && c != 'O' && c != 'I' && c != 'l'
  {
    if '1' <= c <= '9' { assert Letter(c as nat - '1' as nat) == c; }
    if 'A' <= c <= 'H' { assert Letter(c as nat - 'A' as nat + 9) == c; }
    if 'J' <= c <= 'N' { assert Letter(c as nat - 'J' as nat + 17) == c; }
    if 'P' <= c <= 'Z' { assert Letter(c as nat - 'P' as nat + 22) == c; }
    if 'a' <= c <= 'k' { assert Letter(c as nat - 'a' as nat + 33) == c; }
    if 'm' <= c <= 'z' { assert Letter(c as nat - 'm' as nat + 44) == c; }
  }

  lemma LetterInjective(q: nat, r: nat)
    requires q < 58 && r < 58 && Letter(q) == Letter(r)
    ensures q == r
  {
  }

  predicate AreDigits(ds: seq<nat>) {
    forall i :: 0 <= i < |ds| ==> ds[i] < 58
  }

  function Letters(ds: seq<nat>): (s: string)
    requires AreDigits(ds)
    ensures |s| == |ds|
    ensures forall i :: 0 <= i < |ds| ==> s[i] == Letter(ds[i])
  {
    seq(|ds|, i requires 0 <= i < |ds| => Letter(ds[i]))
  }

  function LeadingZeroCount(b: seq<Byte>): (z: nat)
    ensures z <= |b|
  {
    if |b| > 0 && b[0] == 0 then 1 + LeadingZeroCount(b[1..]) else 0
  }

  // One zero digit per leading zero byte, then the digits of the big-endian integer.
  function DigitsOf(b: seq<Byte>): (ds: seq<nat>)
    ensures AreDigits(ds)
  {
    Zeros(LeadingZeroCount(b)) + Digits(FromBE(b), 58)
  }

  function Encode(b: seq<Byte>): string {
    Letters(DigitsOf(b))
  }

  lemma LettersPrepend(r: nat, ds: seq<nat>)
    requires r < 58 && AreDigits(ds)
    ensures AreDigits([r] + ds) && Letters([r] + ds) == [Letter(r)] + Letters(ds)
  {
  }

  lemma DigitMoves(m: nat, low: seq<nat>)
    requires m > 0
    ensures Digits(m, 58) + low == Digits(m / 58, 58) + ([m % 58] + low)
  {
    assert Digits(m, 58) == Digits(m / 58, 58) + [m % 58];
    hide *;
    Rotated(Digits(m / 58, 58), m % 58, low);
  }

  lemma Rotated(high: seq<nat>, d: nat, low: seq<nat>)
    ensures high + [d] + low == high + ([d] + low)
  {
  }

  // First loop: the base-58 digits, least significant first, each put in front.
  method EncodeInteger(n: nat) returns (out: string)
    ensures out == Letters(Digits(n, 58))
  {
    var m := n;
    out := "";
    ghost var low: seq<nat> := [];
    while m > 0
      invariant AreDigits(low)
      invariant Digits(n, 58) == Digits(m, 58) + low
      invariant out == Letters(low)
      decreases m
    {
      hide *;
      QuotientSmaller(m, 58);
      LettersPrepend(m % 58, low);
      DigitMoves(m, low);
      out := [Letter(m % 58)] + out;
      low := [m % 58] + low;
      m := m / 58;
    }
    assert [] + low == low;
  }

  lemma OneMoreZero(z: nat, ds: seq<nat>)
    requires AreDigits(ds)
    ensures AreDigits(Zeros(z) + ds) && AreDigits(Zeros(z + 1) + ds)
    ensures Letters(Zeros(z + 1) + ds) == ['1'] + Letters(Zeros(z) + ds)
  {
    LettersPrepend(0, Zeros(z) + ds);
    assert Zeros(z + 1) + ds == [0] + (Zeros(z) + ds);
  }

  // Second loop: one '1' in front for every leading zero byte.
  method PrependOnes(b: seq<Byte>, s: string, ghost ds: seq<nat>) returns (out: string)
    requires AreDigits(ds) && s == Letters(ds)
    ensures AreDigits(Zeros(LeadingZeroCount(b)) + ds) && out == Letters(Zeros(LeadingZeroCount(b)) + ds)
  {
    hide AreDigits, Letters;
    out := s;
    assert Zeros(0) + ds == ds && b[0..] == b;
    var i := 0;
    while i < |b| && b[i] == 0
      invariant 0 <= i <= |b|
      invariant LeadingZeroCount(b) == i + LeadingZeroCount(b[i..])
      invariant AreDigits(Zeros(i) + ds) && out == Letters(Zeros(i) + ds)
    {
      assert b[i..][1..] == b[i + 1..];
      OneMoreZero(i, ds);
      out := ['1'] + out;
      i := i + 1;
    }
  }

  method B58Encode(b: seq<Byte>) returns (out: string)
    ensures out == Encode(b)
  {
    var s := EncodeInteger(FromBE(b));
    out := PrependOnes(b, s, Digits(FromBE(b), 58));
  }

  lemma {:induction false} BigEndianInjective(a: seq<Byte>, b: seq<Byte>)
    requires |a| == |b| && FromBE(a) == FromBE(b)
    ensures a == b
  {
    BEOfFromBE(a);
    BEOfFromBE(b);
  }

  // Equal renderings of equally long ids mean equal ids; 32-byte identifiers are the case used.
  lemma EncodeInjective(a: seq<Byte>, b: seq<Byte>)
    requires |a| == |b| && Encode(a) == Encode(b)
    ensures a == b
  {
    var da, db := DigitsOf(a), DigitsOf(b);
    assert |da| == |Letters(da)| && |db| == |Letters(db)|;
    forall i | 0 <= i < |da| ensures da[i] == db[i] {
      assert Letters(da)[i] == Letters(db)[i];
      LetterInjective(da[i], db[i]);
    }
    assert da == db;
    LeadingZeros(Zeros(LeadingZeroCount(a)), Digits(FromBE(a), 58), 58);
    LeadingZeros(Zeros(LeadingZeroCount(b)), Digits(FromBE(b), 58), 58);
    ValueOfDigits(FromBE(a), 58);
    ValueOfDigits(FromBE(b), 58);
    BigEndianInjective(a, b);
  }

  // Two identifiers written out: zeros in front are ones, and the first byte weighs most.
  lemma EncodeExamples()
    ensures Encode([0, 0, 1]) == "112" && Encode([1, 0]) == "5R"
  {
    ExampleValues();
    ExampleDigits();
    assert Zeros(2) == [0, 0] && Zeros(0) == [];
    hide FromBE, Digits, LeadingZeroCount, Zeros;
    assert DigitsOf([0, 0, 1]) == [0, 0, 1] && DigitsOf([1, 0]) == [4, 24];
    hide DigitsOf;
    assert Letters([0, 0, 1]) == "112" && Letters([4, 24]) == "5R";
  }

  lemma ExampleValues()
    ensures LeadingZeroCount([0, 0, 1]) == 2 && FromBE([0, 0, 1]) == 1
    ensures LeadingZeroCount([1, 0]) == 0 && FromBE([1, 0]) == 256
  {
    var a: seq<Byte> := [0, 0, 1];
    var b: seq<Byte> := [1, 0];
    assert a[1..] == [0, 1] && a[1..][1..] == [1];
    assert a[..2] == [0, 0] && a[..2][..1] == [0] && b[..1] == [1];
    assert FromBE([]) == 0 && FromBE(b[..1]) == 1 && FromBE(a[..2][..1]) == 0;
  }

  lemma ExampleDigits()
    ensures Digits(1, 58) == [1] && Digits(256, 58) == [4, 24]
  {
    assert Digits(0, 58) == [];
    assert Digits(1, 58) == [] + [1] && Digits(4, 58) == [] + [4];
    assert Digits(256, 58) == Digits(4, 58) + [24];
  }

  // ---------- hex and decimal ----------

  function HexLetter(n: nat): char
    requires n < 16
  {
    if n < 10 then '0' + n as char else 'a' + (n - 10) as char
  }

  predicate IsHexLetter(c: char) {
    '0' <= c <= '9' || 'a' <= c <= 'f'
  }

  // The display form of a hash: bytes reversed, two lowercase hex digits each.
  function ReversedHex(b: seq<Byte>): string {
    if |b| == 0 then ""
    else [HexLetter(b[|b| - 1] / 16), HexLetter(b[|b| - 1] % 16)] + ReversedHex(b[..|b| - 1])
  }

  lemma HexPairInjective(x: Byte, y: Byte)
    requires HexLetter(x / 16) == HexLetter(y / 16) && HexLetter(x % 16) == HexLetter(y % 16)
    ensures x == y
  {
  }

  lemma ReversedHexParts(b: seq<Byte>)
    requires |b| > 0
    ensures var h, x := ReversedHex(b), b[|b| - 1];
      |h| >= 2 && h[0] == HexLetter(x / 16) && h[1] == HexLetter(x % 16) && h[2..] == ReversedHex(b[..|b| - 1])
  {
  }

  lemma {:induction false} ReversedHexInjective(a: seq<Byte>, b: seq<Byte>)
    requires ReversedHex(a) == ReversedHex(b)
    ensures a == b
  {
    if |a| > 0 && |b| > 0 {
      ReversedHexParts(a);
      ReversedHexParts(b);
      HexPairInjective(a[|a| - 1], b[|b| - 1]);
      ReversedHexInjective(a[..|a| - 1], b[..|b| - 1]);
      assert a == a[..|a| - 1] + [a[|a| - 1]] && b == b[..|b| - 1] + [b[|b| - 1]];
    }
  }

  // Byte j, counted from the end, is shown by two digits, the high one first.
  lemma {:induction false} ReversedHexAt(b: seq<Byte>, j: nat)
    requires j < |b|
    ensures var h := ReversedHex(b);
      && |h| == 2 * |b|
      && h[2 * j] == HEX[b[|b| - 1 - j] / 16] && h[2 * j + 1] == HEX[b[|b| - 1 - j] % 16]
  {
    hide *;
    ReversedHexSize(b);
    ReversedHexParts(b);
    HexLettersAre();
    if j > 0 { ReversedHexAt(b[..|b| - 1], j - 1); }
  }

  lemma {:induction false} ReversedHexSize(b: seq<Byte>)
    ensures |ReversedHex(b)| == 2 * |b|
  {
    if |b| > 0 { ReversedHexSize(b[..|b| - 1]); }
  }

  const HEX := "0123456789abcdef"

  lemma HexLettersAre()
    ensures |HEX| == 16 && forall n :: 0 <= n < 16 ==> HexLetter(n) == HEX[n]
  {
  }

  // The decimal text has no leading zero, and its digits weigh up to the number.
  lemma DecimalIs(n: nat)
    ensures var s := Decimal(n);
      && |s| > 0 && (forall i :: 0 <= i < |s| ==> '0' <= s[i] <= '9') && (s[0] == '0' ==> s == "0")
      && Value(DigitValues(s), 10) == n
  {
    hide Value;
    NoLeadingZero(n);
    ValueOfDecimalDigits(n);
    hide DecimalDigits;
    assert DigitValues(Decimal(n)) == DecimalDigits(n);
  }

  lemma NoLeadingZero(n: nat)
    ensures var ds := DecimalDigits(n); ds[0] == 0 ==> ds == [0]
  {
    hide Digits;
  }

  function DigitValues(s: string): (ds: seq<nat>)
    requires forall i :: 0 <= i < |s| ==> '0' <= s[i] <= '9'
    ensures |ds| == |s| && forall i :: 0 <= i < |s| ==> ds[i] == s[i] as int - '0' as int
  {
    seq(|s|, i requires 0 <= i < |s| => s[i] as int - '0' as int)
  }

  function Decimal(n: nat): (s: string)
    ensures |s| == |DecimalDigits(n)|
    ensures forall i :: 0 <= i < |s| ==> s[i] == '0' + DecimalDigits(n)[i] as char
  {
    var ds := DecimalDigits(n);
    seq(|ds|, i requires 0 <= i < |ds| => '0' + ds[i] as char)
  }

  lemma DecimalInjective(m: nat, n: nat)
    requires Decimal(m) == Decimal(n)
    ensures m == n
  {
    var dm, dn := DecimalDigits(m), DecimalDigits(n);
    forall i | 0 <= i < |dm| ensures dm[i] == dn[i] {
      assert Decimal(m)[i] == Decimal(n)[i];
    }
    assert dm == dn;
    ValueOfDecimalDigits(m);
    ValueOfDecimalDigits(n);
  }
}
