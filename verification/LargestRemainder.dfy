/**
 Largest-remainder allocation over signed book shares.

 The source writes this twice: over unreduced fractions compared by cross-multiplication
 (auditSeam.cjs) and over reduced fractions (check_vectors.py).  Both are methods proved
 against one specification over exact reals, which has at most one solution.
 */
module LargestRemainder {
  import opened Outcomes

  datatype Share = Share(num: int, den: int)

  datatype Failure =
    | NoShares
    | NonPositiveDenominator
    | NegativeNumerator
    | NotAPartition
    | NegativeBase
    | ResidueOutOfRange

  // ---------- exact values ----------

  predicate ValidShare(s: Share) {
    s.den > 0 && s.num >= 0
  }

  predicate ValidShares(shares: seq<Share>) {
    forall i :: 0 <= i < |shares| ==> ValidShare(shares[i])
  }

  ghost function Val(s: Share): real
    requires s.den > 0
  {
    s.num as real / s.den as real
  }

  ghost function Total(shares: seq<Share>): real
    requires ValidShares(shares)
  {
    if |shares| == 0 then 0.0
    else Total(shares[..|shares| - 1]) + Val(shares[|shares| - 1])
  }

  ghost predicate PartitionOfOne(shares: seq<Share>) {
    |shares| > 0 && ValidShares(shares) && Total(shares) == 1.0
  }

  ghost function Quota(base: int, s: Share): real
    requires s.den > 0
  {
    base as real * Val(s)
  }

  ghost function Floor(base: int, s: Share): int
    requires s.den > 0
  {
    Quota(base, s).Floor
  }

  ghost function Fraction(base: int, s: Share): real
    requires s.den > 0
  {
    Quota(base, s) - Floor(base, s) as real
  }

  function Sum(s: seq<int>): int {
    if |s| == 0 then 0 else Sum(s[..|s| - 1]) + s[|s| - 1]
  }

  // Slot i is served before slot j: larger fraction, ties by lower index.
  ghost predicate Precedes(base: int, shares: seq<Share>, i: nat, j: nat)
    requires i < |shares| && j < |shares| && ValidShares(shares)
  {
    Fraction(base, shares[i]) > Fraction(base, shares[j])
    || (Fraction(base, shares[i]) == Fraction(base, shares[j]) && i < j)
  }

  // The whole rule: the base is allocated exactly, every slot gets its floor or one
  // more, and a slot left at its floor never precedes a slot that was topped up.
  ghost predicate IsLargestRemainder(base: int, shares: seq<Share>, alloc: seq<int>)
    requires ValidShares(shares)
  {
    && |alloc| == |shares|
    && Sum(alloc) == base
    && (forall i :: 0 <= i < |shares| ==>
        alloc[i] == Floor(base, shares[i]) || alloc[i] == Floor(base, shares[i]) + 1)
    && (forall i, j ::
          0 <= i < |shares| && 0 <= j < |shares|
          && alloc[i] == Floor(base, shares[i]) + 1 && alloc[j] == Floor(base, shares[j])
          ==> Precedes(base, shares, i, j))
  }

  // ---------- divisibility ----------

  ghost predicate IsProduct(n: int, k: int, q: int) { n == k * q }

  ghost predicate Divides(k: int, n: int) {
    k > 0 && exists q :: IsProduct(n, k, q)
  }

  ghost predicate CommonDivisor(k: int, a: int, b: int) {
    Divides(k, a) && Divides(k, b)
  }

  ghost predicate Coprime(a: int, b: int) {
    forall k :: CommonDivisor(k, a, b) ==> k == 1
  }

  lemma DividesLinear(k: int, a: int, b: int, m: int)
    requires Divides(k, a) && Divides(k, b)
    ensures Divides(k, a + m * b)
  {
    var p :| IsProduct(a, k, p);
    var q :| IsProduct(b, k, q);
    assert a + m * b == k * (p + m * q) by {
      assert m * (k * q) == k * (m * q);
    }
    assert IsProduct(a + m * b, k, p + m * q);
  }

  lemma EuclidStep(k: int, a: int, b: int)
    requires a >= 0 && b > 0
    ensures CommonDivisor(k, a, b) <==> CommonDivisor(k, b, a % b)
  {
    assert a == b * (a / b) + a % b;
    if CommonDivisor(k, a, b) {
      DividesLinear(k, a, b, -(a / b));
      assert a + -(a / b) * b == a % b;
    }
    if CommonDivisor(k, b, a % b) {
      DividesLinear(k, a % b, b, a / b);
      assert a % b + (a / b) * b == a;
    }
  }

  lemma DivisorAtMost(k: int, a: int)
    requires Divides(k, a) && a > 0
    ensures k <= a
  {
    var q :| IsProduct(a, k, q);
    assert q <= 0 ==> k * q <= 0;
    assert k * q >= k;
  }

  lemma DividesZeroAndSelf(a: int)
    requires a > 0
    ensures Divides(a, 0) && Divides(a, a)
  {
    assert IsProduct(0, a, 0) && IsProduct(a, a, 1);
  }

  // The Euclidean loop shared by the seam's gcd and by the reduction of a Fraction.
  method Gcd(x: int, y: int) returns (g: int)
    requires x >= 0 && y > 0
    ensures CommonDivisor(g, x, y)
    ensures forall k :: CommonDivisor(k, x, y) ==> k <= g
  {
    var a, b := x, y;
    while b != 0
      invariant a >= 0 && b >= 0 && a + b > 0
      invariant forall k :: CommonDivisor(k, a, b) <==> CommonDivisor(k, x, y)
      decreases b
    {
      forall k ensures CommonDivisor(k, a, b) <==> CommonDivisor(k, b, a % b) {
        EuclidStep(k, a, b);
      }
      a, b := b, a % b;
    }
    g := a;
    DividesZeroAndSelf(g);
    assert CommonDivisor(g, a, b);
    forall k | CommonDivisor(k, x, y) ensures k <= g {
      assert CommonDivisor(k, a, b);
      DivisorAtMost(k, g);
    }
  }

  lemma ExactQuotient(n: int, g: int)
    requires Divides(g, n)
    ensures n == g * (n / g)
  {
    var q :| IsProduct(n, g, q);
    QuotientUnique(n, g, q, 0);
  }

  lemma DivModUnique(d: int, q: int, r: int, q': int, r': int)
    requires 0 <= r < d && 0 <= r' < d && d * q + r == d * q' + r'
    ensures q == q' && r == r'
  {
    var e := q - q';
    assert d * e == r' - r;
    assert e >= 1 ==> d * e >= d;
    assert e <= -1 ==> d * e <= -d;
  }

  lemma QuotientUnique(n: int, d: int, q: int, r: int)
    requires 0 <= r < d && n == d * q + r
    ensures n / d == q && n % d == r
  {
    DivModUnique(d, q, r, n / d, n % d);
  }

  // Dividing both sides by their greatest common divisor leaves a coprime pair.
  lemma ReducedCoprime(n: int, d: int, g: int)
    requires n >= 0 && d > 0 && CommonDivisor(g, n, d)
    requires forall k :: CommonDivisor(k, n, d) ==> k <= g
    ensures n == g * (n / g) && d == g * (d / g)
    ensures d / g > 0 && n / g >= 0
    ensures Coprime(n / g, d / g)
  {
    ExactQuotient(n, g);
    ExactQuotient(d, g);
    QuotientSign(g, n / g);
    QuotientSign(g, d / g);
    hide IsProduct;
    forall k | CommonDivisor(k, n / g, d / g) ensures k == 1 {
      ScaledDivides(k, n / g, g);
      ScaledDivides(k, d / g, g);
      assert CommonDivisor(g * k, n, d);
      AtMostItself(g, k);
    }
  }

  lemma QuotientSign(g: int, q: int)
    requires g > 0
    ensures (g * q > 0 ==> q > 0) && (g * q >= 0 ==> q >= 0)
  {
    assert q <= 0 ==> g * q <= 0;
    assert q < 0 ==> g * q < 0;
  }

  lemma ScaledDivides(k: int, n: int, g: int)
    requires g > 0 && Divides(k, n)
    ensures Divides(g * k, g * n)
  {
    var q :| IsProduct(n, k, q);
    assert g * (k * q) == (g * k) * q;
    assert IsProduct(g * n, g * k, q);
  }

  lemma AtMostItself(g: int, k: int)
    requires g > 0 && k > 0 && g * k <= g
    ensures k == 1
  {
    assert k >= 2 ==> g * k >= g * 2;
  }

  // ---------- the exact rational sum ----------

  lemma CancelReal(n: int, d: int, g: int, n': int, d': int, t: real)
    requires g > 0 && n == g * n' && d == g * d' && n as real == t * d as real
    ensures n' as real == t * d' as real
  {
    var gr := g as real;
    assert gr * n' as real == gr * (t * d' as real) by {
      assert n as real == gr * n' as real && d as real == gr * d' as real;
      assert t * (gr * d' as real) == gr * (t * d' as real);
    }
  }

  lemma AddReal(n: int, d: int, sn: int, sd: int, t: real)
    requires d > 0 && sd > 0 && n as real == t * d as real
    ensures (n * sd + sn * d) as real == (t + Val(Share(sn, sd))) * (d * sd) as real
  {
    var v := Val(Share(sn, sd));
    var dr, sr := d as real, sd as real;
    assert sn as real == v * sr;
    assert (n * sd + sn * d) as real == n as real * sr + sn as real * dr;
    assert (d * sd) as real == dr * sr;
    assert n as real * sr == t * (dr * sr);
    assert sn as real * dr == v * (dr * sr);
  }

  lemma ScaleZero(x: real, d: int)
    requires d > 0
    ensures x * d as real == 0.0 <==> x == 0.0
  {
    assert x > 0.0 ==> x * d as real > 0.0;
    assert x < 0.0 ==> x * d as real < 0.0;
  }

  // One step of the sum: add a share to n/d and reduce.
  method AddShare(n: int, d: int, s: Share, ghost t: real) returns (n': int, d': int)
    requires n >= 0 && d > 0 && n as real == t * d as real && ValidShare(s)
    ensures n' >= 0 && d' > 0 && Coprime(n', d')
    ensures n' as real == (t + Val(s)) * d' as real
  {
    AddReal(n, d, s.num, s.den, t);
    hide Val;
    assert n * s.den >= 0 && s.num * d >= 0 && d * s.den > 0;
    n', d' := LowestTerms(n * s.den + s.num * d, d * s.den, t + Val(s));
  }

  method LowestTerms(n: int, d: int, ghost v: real) returns (n': int, d': int)
    requires n >= 0 && d > 0 && n as real == v * d as real
    ensures n' >= 0 && d' > 0 && Coprime(n', d')
    ensures n' as real == v * d' as real
  {
    hide *;
    n', d' := n, d;
    var g := Gcd(n, d);
    if g > 1 {
      ReducedCoprime(n, d, g);
      CancelReal(n, d, g, n / g, d / g, v);
      n', d' := n / g, d / g;
    } else {
      OnlyOneDivides(n, d, g);
    }
  }

  lemma OnlyOneDivides(n: int, d: int, g: int)
    requires g <= 1 && forall k :: CommonDivisor(k, n, d) ==> k <= g
    ensures Coprime(n, d)
  {
    hide IsProduct;
  }

  // sumShares: a running reduced fraction; fails on a bad share, otherwise returns
  // the exact total in lowest terms.
  method SumShares(shares: seq<Share>) returns (r: Result<(int, int), Failure>)
    ensures r.Ok? <==> ValidShares(shares)
    ensures r.Ok? ==>
      var (n, d) := r.value;
      n >= 0 && d > 0 && n as real == Total(shares) * d as real
      && (shares != [] ==> Coprime(n, d))
    ensures r.Err? ==> r.error in {NonPositiveDenominator, NegativeNumerator}
  {
    assert Total([]) == 0.0;
    hide Total, Val, Coprime;
    var n, d := 0, 1;
    for i := 0 to |shares|
      invariant ValidShares(shares[..i])
      invariant n >= 0 && d > 0
      invariant n as real == Total(shares[..i]) * d as real
      invariant i > 0 ==> Coprime(n, d)
    {
      if shares[i].den <= 0 { return Err(NonPositiveDenominator); }
      if shares[i].num < 0 { return Err(NegativeNumerator); }
      assert shares[..i + 1][..i] == shares[..i];
      TotalUnfolds(shares[..i + 1]);
      n, d := AddShare(n, d, shares[i], Total(shares[..i]));
    }
    assert shares[..|shares|] == shares;
    return Ok((n, d));
  }

  // ---------- floors and fractions ----------

  lemma FloorIsQuotient(base: int, s: Share)
    requires ValidShare(s)
    ensures Floor(base, s) == (base * s.num) / s.den
    ensures 0.0 <= Fraction(base, s) < 1.0
    ensures (base * s.num - (base * s.num) / s.den * s.den) as real == Fraction(base, s) * s.den as real
  {
    var p, d := base * s.num, s.den;
    var q := p / d;
    var dr := d as real;
    assert p == d * q + p % d;
    assert Quota(base, s) * dr == p as real by {
      assert Val(s) * dr == s.num as real;
      assert (base as real * Val(s)) * dr == base as real * (Val(s) * dr);
      assert p as real == base as real * s.num as real;
    }
    var f := Quota(base, s) - q as real;
    assert f * dr == (p % d) as real by {
      assert f * dr == Quota(base, s) * dr - q as real * dr;
      assert (d * q) as real == q as real * dr;
    }
    assert f < 0.0 ==> f * dr < 0.0;
    assert f >= 1.0 ==> f * dr >= dr;
    assert Quota(base, s).Floor == q;
    assert q * d == d * q;
  }

  lemma {:induction false} FractionSum(base: int, shares: seq<Share>, floors: seq<int>)
    requires ValidShares(shares) && |floors| == |shares|
    requires forall i :: 0 <= i < |shares| ==> floors[i] == Floor(base, shares[i])
    ensures Sum(floors) as real <= base as real * Total(shares)
    ensures |shares| > 0 ==> base as real * Total(shares) < Sum(floors) as real + |shares| as real
  {
    if |shares| > 0 {
      var k := |shares| - 1;
      FractionSum(base, shares[..k], floors[..k]);
      FloorIsQuotient(base, shares[k]);
      assert base as real * Total(shares) == base as real * Total(shares[..k]) + Quota(base, shares[k]);
    }
  }

  lemma {:induction false} SumUpdate(s: seq<int>, i: nat, v: int)
    requires i < |s|
    ensures Sum(s[i := v]) == Sum(s) - s[i] + v
  {
    var k := |s| - 1;
    if i == k {
      assert s[i := v][..k] == s[..k];
    } else {
      assert s[i := v][..k] == s[..k][i := v];
      SumUpdate(s[..k], i, v);
    }
  }

  // ---------- the order of service ----------

  // One row per slot: the remainder base*num - floor*den and its denominator.
  datatype Row = Row(n: int, d: int)

  // The comparator both programs sort by: cross-multiplied, larger fraction first,
  // ties by ascending index.
  predicate RowBefore(rows: seq<Row>, i: nat, j: nat)
    requires i < |rows| && j < |rows|
  {
    var l, r := rows[i].n * rows[j].d, rows[j].n * rows[i].d;
    l > r || (l == r && i < j)
  }

  ghost predicate RowsMatch(base: int, shares: seq<Share>, rows: seq<Row>)
    requires ValidShares(shares)
  {
    && |rows| == |shares|
    && forall i :: 0 <= i < |rows| ==>
        rows[i].d > 0 && rows[i].n as real == Fraction(base, shares[i]) * rows[i].d as real
  }

  lemma CrossMultiply(a: real, b: real, m: int, n: int, p: int, q: int)
    requires n > 0 && q > 0 && m as real == a * n as real && p as real == b * q as real
    ensures m * q > p * n <==> a > b
    ensures m * q == p * n <==> a == b
  {
    var nq := n as real * q as real;
    assert nq > 0.0;
    assert (m * q) as real == a * nq;
    assert (p * n) as real == b * nq;
    assert a * nq - b * nq == (a - b) * nq;
    if a > b { assert (a - b) * nq > 0.0; }
    if a < b { assert (a - b) * nq < 0.0; }
  }

  lemma RowBeforeIsPrecedes(base: int, shares: seq<Share>, rows: seq<Row>, i: nat, j: nat)
    requires ValidShares(shares) && RowsMatch(base, shares, rows)
    requires i < |shares| && j < |shares|
    ensures RowBefore(rows, i, j) <==> Precedes(base, shares, i, j)
  {
    CrossMultiply(Fraction(base, shares[i]), Fraction(base, shares[j]),
                  rows[i].n, rows[i].d, rows[j].n, rows[j].d);
  }

  ghost predicate ServiceOrder(base: int, shares: seq<Share>, order: seq<nat>, n: nat)
    requires ValidShares(shares) && n <= |shares|
  {
    && |order| == n
    && (forall x :: 0 <= x < n ==> order[x] < n)
    && (forall i :: 0 <= i < n ==> i in order)
    && (forall x, y :: 0 <= x < y < n ==> Precedes(base, shares, order[x], order[y]))
  }

  lemma InsertKeepsOrder(base: int, shares: seq<Share>, order: seq<nat>, i: nat, p: nat)
    requires ValidShares(shares) && i < |shares| && ServiceOrder(base, shares, order, i) && p <= i
    requires forall x :: 0 <= x < p ==> Precedes(base, shares, order[x], i)
    requires forall x :: p <= x < i ==> Precedes(base, shares, i, order[x])
    ensures ServiceOrder(base, shares, order[..p] + [i] + order[p..], i + 1)
  {
    hide Precedes;
    var o := order[..p] + [i] + order[p..];
    forall x, y | 0 <= x < y <= i ensures o[x] <= i && o[y] <= i && Precedes(base, shares, o[x], o[y]) {
      var x', y' := if x <= p then x else x - 1, if y <= p then y else y - 1;
      assert x != p ==> o[x] == order[x'];
      assert y != p ==> o[y] == order[y'];
      assert x != p && y != p ==> x' < y' && Precedes(base, shares, order[x'], order[y']);
    }
    forall k | 0 <= k <= i ensures k in o { InsertedMember(order, i, p, k); }
  }

  lemma InsertedMember(order: seq<nat>, i: nat, p: nat, k: nat)
    requires p <= |order| && (k in order || k == i)
    ensures k in order[..p] + [i] + order[p..]
  {
    assert order == order[..p] + order[p..];
  }

  method SortRows(ghost base: int, ghost shares: seq<Share>, rows: seq<Row>) returns (order: seq<nat>)
    requires ValidShares(shares) && RowsMatch(base, shares, rows)
    ensures ServiceOrder(base, shares, order, |rows|)
  {
    order := [];
    for i := 0 to |rows|
      invariant ServiceOrder(base, shares, order, i)
    {
      var p := 0;
      while p < |order| && RowBefore(rows, order[p], i)
        invariant 0 <= p <= |order|
        invariant forall x :: 0 <= x < p ==> Precedes(base, shares, order[x], i)
      {
        RowBeforeIsPrecedes(base, shares, rows, order[p], i);
        p := p + 1;
      }
      forall x | p <= x < |order| ensures Precedes(base, shares, i, order[x]) {
        RowBeforeIsPrecedes(base, shares, rows, order[p], i);
      }
      InsertKeepsOrder(base, shares, order, i, p);
      order := order[..p] + [i] + order[p..];
    }
  }

  // Adds one to the first `rem` slots in service order.
  method TopUp(ghost base: int, ghost shares: seq<Share>, floors: seq<int>, order: seq<nat>, rem: nat)
    returns (alloc: seq<int>)
    requires ValidShares(shares) && |floors| == |shares|
    requires forall i :: 0 <= i < |shares| ==> floors[i] == Floor(base, shares[i])
    requires ServiceOrder(base, shares, order, |shares|)
    requires rem <= |shares| && Sum(floors) + rem == base
    ensures IsLargestRemainder(base, shares, alloc)
  {
    alloc := floors;
    for k := 0 to rem
      invariant |alloc| == |floors|
      invariant Sum(alloc) == Sum(floors) + k
      invariant forall x :: 0 <= x < |order| ==> alloc[order[x]] == floors[order[x]] + if x < k then 1 else 0
    {
      hide *;
      OrderBounds(base, shares, order);
      forall x | 0 <= x < |order| && x != k ensures order[x] != order[k] { OrderOnce(base, shares, order, x, k); }
      SumUpdate(alloc, order[k], alloc[order[k]] + 1);
      alloc := alloc[order[k] := alloc[order[k]] + 1];
    }
    ToppedInOrder(base, shares, floors, order, rem, alloc);
  }

  lemma OrderBounds(base: int, shares: seq<Share>, order: seq<nat>)
    requires ValidShares(shares) && ServiceOrder(base, shares, order, |shares|)
    ensures |order| == |shares| && forall x :: 0 <= x < |order| ==> order[x] < |shares|
  {
  }

  lemma OrderOnce(base: int, shares: seq<Share>, order: seq<nat>, x: nat, y: nat)
    requires ValidShares(shares) && ServiceOrder(base, shares, order, |shares|)
    requires x < |order| && y < |order| && x != y
    ensures order[x] != order[y]
  {
    if x < y {
      assert Precedes(base, shares, order[x], order[y]);
    } else {
      assert Precedes(base, shares, order[y], order[x]);
    }
  }

  lemma PlaceInOrder(base: int, shares: seq<Share>, order: seq<nat>, i: nat) returns (x: nat)
    requires ValidShares(shares) && ServiceOrder(base, shares, order, |shares|) && i < |shares|
    ensures x < |order| && order[x] == i
  {
    hide Precedes;
    assert i in order;
    x :| 0 <= x < |order| && order[x] == i;
  }

  // Raising the first slots of the order by one obeys the rule.
  lemma ToppedInOrder(base: int, shares: seq<Share>, floors: seq<int>, order: seq<nat>, rem: nat, alloc: seq<int>)
    requires ValidShares(shares) && |floors| == |shares| == |alloc|
    requires forall i :: 0 <= i < |shares| ==> floors[i] == Floor(base, shares[i])
    requires ServiceOrder(base, shares, order, |shares|) && Sum(alloc) == base
    requires forall x :: 0 <= x < |order| && order[x] < |alloc| ==>
      alloc[order[x]] == floors[order[x]] + if x < rem then 1 else 0
    ensures IsLargestRemainder(base, shares, alloc)
  {
    OrderBounds(base, shares, order);
    hide ServiceOrder, Precedes, Floor, Sum;
    forall i | 0 <= i < |shares| ensures alloc[i] == floors[i] || alloc[i] == floors[i] + 1 {
      var x := PlaceInOrder(base, shares, order, i);
    }
    forall i, j | 0 <= i < |shares| && 0 <= j < |shares| && alloc[i] == floors[i] + 1 && alloc[j] == floors[j]
      ensures Precedes(base, shares, i, j)
    {
      var x := PlaceInOrder(base, shares, order, i);
      var y := PlaceInOrder(base, shares, order, j);
      EarlierPrecedes(base, shares, order, x, y);
    }
  }

  lemma EarlierPrecedes(base: int, shares: seq<Share>, order: seq<nat>, x: nat, y: nat)
    requires ValidShares(shares) && ServiceOrder(base, shares, order, |shares|) && x < y < |shares|
    ensures order[x] < |shares| && order[y] < |shares| && Precedes(base, shares, order[x], order[y])
  {
    hide Precedes;
  }

  ghost predicate FloorsMatch(base: int, shares: seq<Share>, floors: seq<int>)
    requires ValidShares(shares)
  {
    |floors| == |shares| && forall i :: 0 <= i < |shares| ==> floors[i] == Floor(base, shares[i])
  }

  // The unreduced floors and remainder rows of the seam.
  method SeamRows(base: int, shares: seq<Share>) returns (floors: seq<int>, rows: seq<Row>)
    requires ValidShares(shares)
    ensures FloorsMatch(base, shares, floors) && RowsMatch(base, shares, rows)
  {
    floors, rows := [], [];
    for i := 0 to |shares|
      invariant |floors| == i == |rows|
      invariant forall k :: 0 <= k < i ==> floors[k] == Floor(base, shares[k])
      invariant forall k :: 0 <= k < i ==>
        rows[k].d > 0 && rows[k].n as real == Fraction(base, shares[k]) * rows[k].d as real
    {
      hide Quota, Floor;
      FloorIsQuotient(base, shares[i]);
      var f := (base * shares[i].num) / shares[i].den;
      floors := floors + [f];
      rows := rows + [Row(base * shares[i].num - f * shares[i].den, shares[i].den)];
    }
  }

  // largestRemainder of the seam: validates the partition, refuses anything else.
  method Allocate(base: int, shares: seq<Share>) returns (r: Result<seq<int>, Failure>)
    ensures r.Ok? <==> PartitionOfOne(shares) && base >= 0
    ensures r.Ok? ==> IsLargestRemainder(base, shares, r.value)
    ensures r == Err(NotAPartition) <==> shares != [] && ValidShares(shares) && Total(shares) != 1.0
    ensures r != Err(ResidueOutOfRange)
  {
    if |shares| == 0 { return Err(NoShares); }
    var sum := SumShares(shares);
    if sum.Err? { return Err(sum.error); }
    var (sn, sd) := sum.value;
    assert sn == sd <==> Total(shares) == 1.0 by {
      ScaleZero(Total(shares) - 1.0, sd);
      assert sn as real - sd as real == (Total(shares) - 1.0) * sd as real;
    }
    if sn != sd { return Err(NotAPartition); }
    if base < 0 { return Err(NegativeBase); }
    var floors, rows := SeamRows(base, shares);
    var rem := base - Sum(floors);
    FractionSum(base, shares, floors);
    assert base as real * Total(shares) == base as real;
    hide Total, Sum, Floor;
    if rem < 0 || rem >= |shares| { return Err(ResidueOutOfRange); }
    var order := SortRows(base, shares, rows);
    var alloc := TopUp(base, shares, floors, order, rem);
    return Ok(alloc);
  }

  // ---------- the checker's form: reduced Fractions ----------

  method Reduce(s: Share) returns (f: Share)
    requires ValidShare(s)
    ensures ValidShare(f) && Val(f) == Val(s) && Coprime(f.num, f.den)
  {
    assert Val(s) * s.den as real == s.num as real;
    var n, d := LowestTerms(s.num, s.den, Val(s));
    f := Share(n, d);
  }

  method CheckerAllocate(base: int, shares: seq<Share>) returns (alloc: seq<int>)
    requires PartitionOfOne(shares)
    ensures IsLargestRemainder(base, shares, alloc)
  {
    var floors, rows := CheckerRows(base, shares);
    var rem := base - Sum(floors);
    FractionSum(base, shares, floors);
    assert base as real * Total(shares) == base as real;
    var order := SortRows(base, shares, rows);
    alloc := TopUp(base, shares, floors, order, rem);
  }

  // The floors and remainder rows of the checker, over reduced Fractions.
  method CheckerRows(base: int, shares: seq<Share>) returns (floors: seq<int>, rows: seq<Row>)
    requires ValidShares(shares)
    ensures FloorsMatch(base, shares, floors) && RowsMatch(base, shares, rows)
  {
    floors, rows := [], [];
    for i := 0 to |shares|
      invariant |floors| == i == |rows|
      invariant forall k :: 0 <= k < i ==> floors[k] == Floor(base, shares[k])
      invariant forall k :: 0 <= k < i ==>
        rows[k].d > 0 && rows[k].n as real == Fraction(base, shares[k]) * rows[k].d as real
    {
      var f := Reduce(shares[i]);
      FloorIsQuotient(base, f);
      assert Quota(base, f) == Quota(base, shares[i]);
      var q := (base * f.num) / f.den;
      floors := floors + [q];
      rows := rows + [Row(base * f.num - q * f.den, f.den)];
    }
  }

  // ---------- what the rule determines ----------

  lemma {:induction false} SumGap(a: seq<int>, b: seq<int>, m: nat)
    requires |a| == |b| && m < |a| && a[m] < b[m]
    requires forall i :: 0 <= i < |a| ==> a[i] <= b[i]
    ensures Sum(a) < Sum(b)
  {
    var k := |a| - 1;
    if m == k {
      SumLeq(a[..k], b[..k]);
    } else {
      SumGap(a[..k], b[..k], m);
    }
  }

  lemma {:induction false} SumLeq(a: seq<int>, b: seq<int>)
    requires |a| == |b| && forall i :: 0 <= i < |a| ==> a[i] <= b[i]
    ensures Sum(a) <= Sum(b)
  {
    if |a| > 0 { SumLeq(a[..|a| - 1], b[..|a| - 1]); }
  }

  // The three clauses of the rule leave no choice: two allocations obeying it are equal.
  lemma AllocationUnique(base: int, shares: seq<Share>, a: seq<int>, b: seq<int>)
    requires ValidShares(shares)
    requires IsLargestRemainder(base, shares, a) && IsLargestRemainder(base, shares, b)
    ensures a == b
  {
    if i :| 0 <= i < |a| && a[i] != b[i] {
      var x, y := if a[i] < b[i] then a else b, if a[i] < b[i] then b else a;
      // where x is short of y at i, it can be ahead of y nowhere
      forall j | 0 <= j < |a| ensures x[j] <= y[j] {
        ServedOnce(base, shares, i, j);
      }
      SumGap(x, y, i);
    }
  }

  lemma ServedOnce(base: int, shares: seq<Share>, i: nat, j: nat)
    requires ValidShares(shares) && i < |shares| && j < |shares|
    ensures !(Precedes(base, shares, i, j) && Precedes(base, shares, j, i))
  {
  }

  lemma TotalStep(base: int, shares: seq<Share>)
    requires ValidShares(shares) && |shares| > 0
    ensures var k := |shares| - 1;
      base as real * Total(shares) == base as real * Total(shares[..k]) + Quota(base, shares[k])
    ensures Total([]) == 0.0
  {
    hide Total, Val, Quota;
    var k := |shares| - 1;
    TotalUnfolds(shares);
    QuotaIs(base, shares[k]);
    Distribute(base as real, Total(shares[..k]), Val(shares[k]));
  }

  lemma TotalUnfolds(shares: seq<Share>)
    requires ValidShares(shares) && |shares| > 0
    ensures Total(shares) == Total(shares[..|shares| - 1]) + Val(shares[|shares| - 1]) && Total([]) == 0.0
  {
    hide Val;
  }

  lemma QuotaIs(base: int, s: Share)
    requires s.den > 0
    ensures Quota(base, s) == base as real * Val(s)
  {
    hide Val;
  }

  lemma Distribute(b: real, t: real, v: real)
    ensures b * (t + v) == b * t + b * v
  {
  }

  lemma {:induction false} SumReal(base: int, shares: seq<Share>, alloc: seq<int>, m: nat)
    requires ValidShares(shares) && |alloc| == |shares| && m < |shares|
    requires forall i :: 0 <= i < |shares| ==> alloc[i] as real >= Quota(base, shares[i])
    ensures Sum(alloc) as real - base as real * Total(shares) >= alloc[m] as real - Quota(base, shares[m])
  {
    hide Total, Val, Quota;
    var k := |shares| - 1;
    TotalStep(base, shares);
    var b, t, s := base as real, Total(shares[..k]), Sum(alloc[..k]);
    assert Sum(alloc) as real == s as real + alloc[k] as real;
    if k > 0 {
      SumReal(base, shares[..k], alloc[..k], if m < k then m else 0);
      assert s as real - b * t >= if m < k then alloc[m] as real - Quota(base, shares[m]) else 0.0;
    } else {
      assert shares[..k] == [] && alloc[..k] == [];
      assert b * t == 0.0;
    }
  }

  // No slot is topped up past the ceiling of its exact quota.
  lemma ToppedBelowCeiling(base: int, shares: seq<Share>, alloc: seq<int>, m: nat)
    requires PartitionOfOne(shares) && IsLargestRemainder(base, shares, alloc) && m < |shares|
    ensures alloc[m] as real - 1.0 < Quota(base, shares[m]) < alloc[m] as real + 1.0
  {
    FloorIsQuotient(base, shares[m]);
    if alloc[m] == Floor(base, shares[m]) + 1 && Fraction(base, shares[m]) == 0.0 {
      forall i | 0 <= i < |shares| ensures alloc[i] as real >= Quota(base, shares[i]) {
        FloorIsQuotient(base, shares[i]);
        if alloc[i] == Floor(base, shares[i]) {
          assert Precedes(base, shares, m, i);
        }
      }
      SumReal(base, shares, alloc, m);
      assert false;
    }
  }

  // ---------- the governing rule: every share is exactly 1/slotCount ----------

  function EqualShares(n: nat): seq<Share> {
    seq(n, i => Share(1, n))
  }

  function EqualSplit(base: int, n: nat): seq<int>
    requires n > 0
  {
    seq(n, i requires 0 <= i < n => base / n + if i < base % n then 1 else 0)
  }

  lemma {:induction false} EqualTotal(n: nat, k: nat)
    requires k <= n && n > 0
    ensures Total(EqualShares(n)[..k]) * n as real == k as real
  {
    var s := EqualShares(n);
    if k > 0 {
      EqualTotal(n, k - 1);
      assert s[..k][..k - 1] == s[..k - 1];
      var v := Val(Share(1, n));
      assert v * n as real == 1.0;
      assert (Total(s[..k - 1]) + v) * n as real == Total(s[..k - 1]) * n as real + v * n as real;
    }
  }

  lemma {:induction false} EqualSplitSum(base: int, n: nat, k: nat)
    requires 0 < n && k <= n
    ensures Sum(EqualSplit(base, n)[..k]) == base / n * k + if k <= base % n then k else base % n
  {
    var s := EqualSplit(base, n);
    if k > 0 {
      EqualSplitSum(base, n, k - 1);
      assert s[..k][..k - 1] == s[..k - 1];
      assert base / n * k == base / n * (k - 1) + base / n;
    }
  }

  // Under the governing rule the allocation is base/n, plus one for the first base mod n slots.
  lemma GoverningSplit(base: int, n: nat)
    requires n > 0
    ensures PartitionOfOne(EqualShares(n))
    ensures IsLargestRemainder(base, EqualShares(n), EqualSplit(base, n))
  {
    EqualSharesPartition(n);
    EqualSplitTotal(base, n);
    FloorIsQuotient(base, Share(1, n));
    hide Total, Sum, Floor;
  }

  lemma EqualSharesPartition(n: nat)
    requires n > 0
    ensures PartitionOfOne(EqualShares(n))
  {
    var shares := EqualShares(n);
    EqualTotal(n, n);
    assert shares[..n] == shares;
    hide Total;
    TimesCancels(Total(shares), n);
  }

  lemma TimesCancels(x: real, n: nat)
    requires n > 0 && x * n as real == n as real
    ensures x == 1.0
  {
    ScaleZero(x - 1.0, n);
    assert (x - 1.0) * n as real == 0.0;
  }

  lemma EqualSplitTotal(base: int, n: nat)
    requires n > 0
    ensures Sum(EqualSplit(base, n)) == base
  {
    EqualSplitSum(base, n, n);
    assert EqualSplit(base, n)[..n] == EqualSplit(base, n);
    assert base == base / n * n + base % n;
  }
}
