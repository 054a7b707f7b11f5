/**
 Bytes as the binary and textual formats share them.

 Fixed-width integers are read and written in both byte orders, and reading and writing
 undo each other.  A natural number has one list of positional digits in every base, up to
 leading zeros, which is what makes base58, hexadecimal and decimal renderings injective.
 The lexicographic order on lists of numbers, used for record keys and for object member
 names, is asymmetric, transitive and total.
 */
module Bytes {
  import opened Outcomes

  type Byte = b: int | 0 <= b < 256

  function Pow(base: nat, k: nat): nat {
    if k == 0 then 1 else base * Pow(base, k - 1)
  }

  lemma PowWidths()
    ensures Pow(256, 2) == 0x1_0000
    ensures Pow(256, 4) == 0x1_0000_0000
    ensures Pow(256, 8) == 0x1_0000_0000_0000_0000
  {
    assert Pow(256, 1) == 256;
    assert Pow(256, 3) == 256 * Pow(256, 2);
    assert Pow(256, 5) == 256 * Pow(256, 4);
    assert Pow(256, 7) == 256 * Pow(256, 6);
  }

  // ---------- little-endian ----------

  function LE(n: nat, k: nat): (s: seq<Byte>)
    ensures |s| == k
  {
    if k == 0 then [] else [n % 256] + LE(n / 256, k - 1)
  }

  function FromLE(s: seq<Byte>): nat {
    if |s| == 0 then 0 else s[0] + 256 * FromLE(s[1..])
  }

  lemma {:induction false} FromLEOfLE(n: nat, k: nat)
    requires n < Pow(256, k)
    ensures FromLE(LE(n, k)) == n
  {
    if k > 0 {
      FromLEOfLE(n / 256, k - 1);
      assert LE(n, k)[1..] == LE(n / 256, k - 1);
    }
  }

  lemma {:induction false} LEOfFromLE(s: seq<Byte>)
    ensures LE(FromLE(s), |s|) == s && FromLE(s) < Pow(256, |s|)
  {
    if |s| > 0 {
      LEOfFromLE(s[1..]);
      assert (s[0] + 256 * FromLE(s[1..])) / 256 == FromLE(s[1..]);
      assert s == [s[0]] + s[1..];
    }
  }

  // ---------- big-endian ----------

  function BE(n: nat, k: nat): (s: seq<Byte>)
    ensures |s| == k
  {
    if k == 0 then [] else BE(n / 256, k - 1) + [n % 256]
  }

  function FromBE(s: seq<Byte>): nat {
    if |s| == 0 then 0 else FromBE(s[..|s| - 1]) * 256 + s[|s| - 1]
  }

  lemma {:induction false} FromBEOfBE(n: nat, k: nat)
    requires n < Pow(256, k)
    ensures FromBE(BE(n, k)) == n
  {
    if k > 0 {
      FromBEOfBE(n / 256, k - 1);
      assert BE(n, k)[..k - 1] == BE(n / 256, k - 1);
    }
  }

  lemma {:induction false} BEOfFromBE(s: seq<Byte>)
    ensures BE(FromBE(s), |s|) == s && FromBE(s) < Pow(256, |s|)
  {
    if |s| > 0 {
      var k := |s| - 1;
      BEOfFromBE(s[..k]);
      assert (FromBE(s[..k]) * 256 + s[k]) / 256 == FromBE(s[..k]);
      assert s == s[..k] + [s[k]];
    }
  }

  // The weight of every byte, for the widths in use.
  lemma LittleEndianWords(a: Byte, b: Byte, c: Byte, d: Byte)
    ensures FromLE([a]) == a
    ensures FromLE([a, b]) == a + 0x100 * b
    ensures FromLE([a, b, c, d]) == a + 0x100 * b + 0x1_0000 * c + 0x100_0000 * d
  {
    LowFirst(a, [b, c, d]);
    LowFirst(b, [c, d]);
    LowFirst(c, [d]);
    LowFirst(d, []);
    LowFirst(a, [b]);
    LowFirst(b, []);
    LowFirst(a, []);
  }

  lemma LowFirst(low: Byte, high: seq<Byte>)
    ensures FromLE([low] + high) == low + 0x100 * FromLE(high)
    ensures FromLE([]) == 0
  {
    assert ([low] + high)[1..] == high;
  }

  // Eight bytes are two words, the low one first.
  lemma LittleEndianLong(low: seq<Byte>, high: seq<Byte>)
    requires |low| == 4 == |high|
    ensures FromLE(low + high) == FromLE(low) + 0x1_0000_0000 * FromLE(high)
  {
    var a, b, c, d := low[0], low[1], low[2], low[3];
    assert low == [a, b, c, d] && low + high == [a] + ([b] + ([c] + ([d] + high)));
    LowFirst(a, [b] + ([c] + ([d] + high)));
    LowFirst(b, [c] + ([d] + high));
    LowFirst(c, [d] + high);
    LowFirst(d, high);
    LittleEndianWords(a, b, c, d);
    hide FromLE;
  }

  lemma {:induction false} BigEndianIsReversed(s: seq<Byte>)
    ensures FromBE(s) == FromLE(Reversed(s))
  {
    if |s| > 0 {
      BigEndianIsReversed(s[..|s| - 1]);
      LowFirst(s[|s| - 1], Reversed(s[..|s| - 1]));
    }
  }

  function Reversed(s: seq<Byte>): (r: seq<Byte>)
    ensures |r| == |s| && forall i :: 0 <= i < |s| ==> r[i] == s[|s| - 1 - i]
  {
    if |s| == 0 then [] else [s[|s| - 1]] + Reversed(s[..|s| - 1])
  }

  // ---------- reading from the front of a buffer ----------

  function TakeBytes(s: seq<Byte>, k: nat): Option<(seq<Byte>, seq<Byte>)> {
    if |s| < k then None else Some((s[..k], s[k..]))
  }

  function TakeLE(s: seq<Byte>, k: nat): Option<(nat, seq<Byte>)> {
    if |s| < k then None else Some((FromLE(s[..k]), s[k..]))
  }

  lemma TakeBytesOf(x: seq<Byte>, rest: seq<Byte>)
    ensures TakeBytes(x + rest, |x|) == Some((x, rest))
  {
    assert (x + rest)[..|x|] == x && (x + rest)[|x|..] == rest;
  }

  lemma TakeLEOf(n: nat, k: nat, rest: seq<Byte>)
    requires n < Pow(256, k)
    ensures TakeLE(LE(n, k) + rest, k) == Some((n, rest))
  {
    FromLEOfLE(n, k);
    assert (LE(n, k) + rest)[..k] == LE(n, k) && (LE(n, k) + rest)[k..] == rest;
  }

  lemma TakeLESound(s: seq<Byte>, k: nat)
    requires k <= |s|
    ensures var n := FromLE(s[..k]); n < Pow(256, k) && s == LE(n, k) + s[k..]
  {
    LEOfFromLE(s[..k]);
    assert s == s[..k] + s[k..];
  }

  // ---------- digits, most significant first, no leading zero ----------

  function Digits(n: nat, base: nat): (ds: seq<nat>)
    requires base > 1
    ensures forall i :: 0 <= i < |ds| ==> ds[i] < base
    ensures n > 0 ==> |ds| > 0 && ds[0] > 0
    ensures n == 0 ==> ds == []
  {
    if n == 0 then [] else
      assert n / base < n by { QuotientSmaller(n, base); }
      Digits(n / base, base) + [n % base]
  }

  lemma DoubleAtMost(q: nat, base: nat)
    requires base > 1
    ensures 2 * q <= base * q
  {
  }

  lemma QuotientSmaller(n: nat, base: nat)
    requires n > 0 && base > 1
    ensures n / base < n && n == n / base * base + n % base
  {
    DoubleAtMost(n / base, base);
  }

  function Value(ds: seq<nat>, base: nat): nat {
    if |ds| == 0 then 0 else Value(ds[..|ds| - 1], base) * base + ds[|ds| - 1]
  }

  lemma {:induction false} ValueOfDigits(n: nat, base: nat)
    requires base > 1
    ensures Value(Digits(n, base), base) == n
  {
    if n > 0 {
      QuotientSmaller(n, base);
      ValueOfDigits(n / base, base);
      assert Digits(n, base)[..|Digits(n, base)| - 1] == Digits(n / base, base);
    }
  }

  function Zeros(z: nat): (zs: seq<nat>)
    ensures |zs| == z && forall i :: 0 <= i < z ==> zs[i] == 0
  {
    if z == 0 then [] else [0] + Zeros(z - 1)
  }

  lemma {:induction false} AllZeros(zs: seq<nat>, base: nat)
    requires forall i :: 0 <= i < |zs| ==> zs[i] == 0
    ensures Value(zs, base) == 0
  {
    if |zs| > 0 { AllZeros(zs[..|zs| - 1], base); }
  }

  lemma {:induction false} LeadingZeros(zs: seq<nat>, ds: seq<nat>, base: nat)
    requires forall i :: 0 <= i < |zs| ==> zs[i] == 0
    ensures Value(zs + ds, base) == Value(ds, base)
  {
    if |ds| > 0 {
      assert (zs + ds)[..|zs + ds| - 1] == zs + ds[..|ds| - 1];
      LeadingZeros(zs, ds[..|ds| - 1], base);
    } else {
      assert zs + ds == zs;
      AllZeros(zs, base);
    }
  }

  function DecimalDigits(n: nat): (ds: seq<nat>)
    ensures |ds| > 0 && forall i :: 0 <= i < |ds| ==> ds[i] < 10
  {
    if n == 0 then [0] else Digits(n, 10)
  }

  lemma ValueOfDecimalDigits(n: nat)
    ensures Value(DecimalDigits(n), 10) == n
  {
    if n == 0 {
      AllZeros([0], 10);
    } else {
      ValueOfDigits(n, 10);
    }
  }

  // ---------- lexicographic order ----------

  predicate LexLess(a: seq<int>, b: seq<int>) {
    if |b| == 0 then false
    else if |a| == 0 then true
    else a[0] < b[0] || (a[0] == b[0] && LexLess(a[1..], b[1..]))
  }

  // The first place where the two differ decides, and a proper prefix comes first.
  lemma {:induction false} LexMeaning(a: seq<int>, b: seq<int>)
    ensures LexLess(a, b) <==> exists i :: DecidedAt(a, b, i)
  {
    if |a| > 0 && |b| > 0 && a[0] == b[0] {
      LexMeaning(a[1..], b[1..]);
      if i :| DecidedAt(a[1..], b[1..], i) {
        assert a == [a[0]] + a[1..] && b == [b[0]] + b[1..];
        assert a[..i + 1] == [a[0]] + a[1..][..i] && b[..i + 1] == [b[0]] + b[1..][..i];
        assert DecidedAt(a, b, i + 1);
      }
      if i :| DecidedAt(a, b, i) {
        assert i > 0;
        assert a[1..][..i - 1] == a[..i][1..] && b[1..][..i - 1] == b[..i][1..];
        assert DecidedAt(a[1..], b[1..], i - 1);
      }
    } else if LexLess(a, b) {
      assert DecidedAt(a, b, 0);
    } else {
      forall i ensures !DecidedAt(a, b, i) {
        if 0 < i <= |a| && i < |b| { assert a[..i][0] == a[0] && b[..i][0] == b[0]; }
      }
    }
  }

  predicate DecidedAt(a: seq<int>, b: seq<int>, i: int) {
    0 <= i <= |a| && i < |b| && a[..i] == b[..i] && (i == |a| || a[i] < b[i])
  }

  lemma {:induction false} LexTotal(a: seq<int>, b: seq<int>)
    ensures LexLess(a, b) || a == b || LexLess(b, a)
  {
    if |a| > 0 && |b| > 0 {
      LexTotal(a[1..], b[1..]);
      assert a == [a[0]] + a[1..] && b == [b[0]] + b[1..];
    }
  }

  lemma {:induction false} LexAsymmetric(a: seq<int>, b: seq<int>)
    ensures !(LexLess(a, b) && LexLess(b, a))
  {
    if |a| > 0 && |b| > 0 { LexAsymmetric(a[1..], b[1..]); }
  }

  lemma {:induction false} LexTransitive(a: seq<int>, b: seq<int>, c: seq<int>)
    requires LexLess(a, b) && LexLess(b, c)
    ensures LexLess(a, c)
  {
    if |a| > 0 && a[0] == b[0] && b[0] == c[0] { LexTransitive(a[1..], b[1..], c[1..]); }
  }
}
