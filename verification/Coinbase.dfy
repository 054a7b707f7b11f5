/**
 Consuming match of scheduled payouts against the actual coinbase outputs.  Each expected
 output consumes the lowest unused actual output with the same script and amount; what is
 left over is unexplained.  `MatchOutputs` is the specification's scan (check_vectors.py),
 `MatchOwnerVector` the deriver's bucketed form (rewardEntitlement.cjs).
 */
module Coinbase {
  import opened Outcomes

  datatype Expected = Expected(script: string, amount: nat)

  datatype Output = Output(script: string, amount: nat, index: nat)

  function Class(o: Output): Expected {
    Expected(o.script, o.amount)
  }

  function Classes(outputs: seq<Output>): (r: seq<Expected>)
    ensures |r| == |outputs|
    ensures forall i :: 0 <= i < |outputs| ==> r[i] == Class(outputs[i])
  {
    seq(|outputs|, i requires 0 <= i < |outputs| => Class(outputs[i]))
  }

  // The checker's order rule on a retained coinbase: output indices strictly ascend.
  predicate Ordered(outputs: seq<Output>) {
    forall i, j :: 0 <= i < j < |outputs| ==> IndexBelow(outputs, i, j)
  }

  predicate IndexBelow(outputs: seq<Output>, i: nat, j: nat)
    requires i < |outputs| && j < |outputs|
  {
    outputs[i].index < outputs[j].index
  }

  function Amounts(es: seq<Expected>): nat {
    if |es| == 0 then 0 else Amounts(es[..|es| - 1]) + es[|es| - 1].amount
  }

  function Count(es: seq<Expected>, e: Expected): nat {
    multiset(es)[e]
  }

  // How many outputs of the same class come before position i.
  function Rank(outputs: seq<Output>, i: nat): nat
    requires i < |outputs|
  {
    Count(Classes(outputs)[..i], Class(outputs[i]))
  }

  // The closed form of the greedy loop: an output is consumed exactly when fewer
  // outputs of its class precede it than the class is required.
  predicate Consumed(required: seq<Expected>, outputs: seq<Output>, i: nat)
    requires i < |outputs|
  {
    Rank(outputs, i) < Count(required, Class(outputs[i]))
  }

  // The consumed (or, with keep == false, the remaining) outputs of a prefix, in index order.
  function Pick(required: seq<Expected>, outputs: seq<Output>, k: nat, keep: bool): seq<Output>
    requires k <= |outputs|
  {
    if k == 0 then []
    else Pick(required, outputs, k - 1, keep) +
         if Consumed(required, outputs, k - 1) == keep then [outputs[k - 1]] else []
  }

  function Matched(required: seq<Expected>, outputs: seq<Output>): seq<Output> {
    Pick(required, outputs, |outputs|, true)
  }

  function Unexplained(required: seq<Expected>, outputs: seq<Output>): seq<Output> {
    Pick(required, outputs, |outputs|, false)
  }

  function Min(a: nat, b: nat): nat {
    if a < b then a else b
  }

  // The outputs in index order, as the deriver sorts them.
  function IndexOrder(outputs: seq<Output>): seq<Output> {
    if |outputs| == 0 then [] else Inserted(IndexOrder(outputs[..|outputs| - 1]), outputs[|outputs| - 1])
  }

  function Inserted(t: seq<Output>, o: Output): seq<Output> {
    if |t| == 0 || t[|t| - 1].index <= o.index then t + [o] else Inserted(t[..|t| - 1], o) + [t[|t| - 1]]
  }

  // ---------- counting ----------

  lemma CountAppend(es: seq<Expected>, e: Expected, x: Expected)
    ensures Count(es + [e], x) == Count(es, x) + if x == e then 1 else 0
  {
  }

  lemma CountPrefix(es: seq<Expected>, k: nat, x: Expected)
    requires k < |es|
    ensures Count(es[..k + 1], x) == Count(es[..k], x) + if es[k] == x then 1 else 0
  {
    assert es[..k + 1] == es[..k] + [es[k]];
  }

  lemma {:induction false} CountMonotone(es: seq<Expected>, i: nat, j: nat, x: Expected)
    requires i <= j <= |es|
    ensures Count(es[..i], x) <= Count(es[..j], x)
  {
    if i < j {
      CountMonotone(es, i, j - 1, x);
      CountPrefix(es, j - 1, x);
    }
  }

  // Two positions of one class have different ranks, in position order.
  lemma RanksAscend(outputs: seq<Output>, i: nat, j: nat)
    requires i < j < |outputs| && Class(outputs[i]) == Class(outputs[j])
    ensures Rank(outputs, i) < Rank(outputs, j)
  {
    var cs, x := Classes(outputs), Class(outputs[i]);
    CountPrefix(cs, i, x);
    CountMonotone(cs, i + 1, j, x);
  }

  // Every rank below the number available is taken by some position.
  lemma {:induction false} RankTaken(outputs: seq<Output>, k: nat, x: Expected, r: nat) returns (i: nat)
    requires k <= |outputs| && r < Count(Classes(outputs)[..k], x)
    ensures i < k && Class(outputs[i]) == x && Rank(outputs, i) == r
  {
    CountPrefix(Classes(outputs), k - 1, x);
    if r < Count(Classes(outputs)[..k - 1], x) {
      i := RankTaken(outputs, k - 1, x, r);
    } else {
      i := k - 1;
    }
  }

  // ---------- the loop ----------

  // The loop's `used` set of output indices, in closed form.
  ghost predicate UsedIs(used: set<nat>, required: seq<Expected>, outputs: seq<Output>) {
    forall i :: 0 <= i < |outputs| ==> (outputs[i].index in used <==> Consumed(required, outputs, i))
  }

  lemma ConsumeLowest(required: seq<Expected>, e: Expected, outputs: seq<Output>, used: set<nat>, i: nat)
    requires Ordered(outputs) && UsedIs(used, required, outputs)
    requires i < |outputs| && outputs[i].index !in used && Class(outputs[i]) == e
    requires forall j :: 0 <= j < i && Class(outputs[j]) == e ==> outputs[j].index in used
    ensures UsedIs(used + {outputs[i].index}, required + [e], outputs)
  {
    LowestRank(required, e, outputs, used, i);
    forall j | 0 <= j < |outputs|
      ensures outputs[j].index in used + {outputs[i].index} <==> Consumed(required + [e], outputs, j)
    {
      CountAppend(required, e, Class(outputs[j]));
      assert i < j ==> IndexBelow(outputs, i, j);
      assert j < i ==> IndexBelow(outputs, j, i);
      hide Ordered, Count, Rank;
      if Class(outputs[j]) == e {
        if i < j { RanksAscend(outputs, i, j); }
        if j < i { RanksAscend(outputs, j, i); }
      }
    }
  }

  // The lowest unused output of a class has as many of its class before it as are required.
  lemma LowestRank(required: seq<Expected>, e: Expected, outputs: seq<Output>, used: set<nat>, i: nat)
    requires UsedIs(used, required, outputs)
    requires i < |outputs| && outputs[i].index !in used && Class(outputs[i]) == e
    requires forall j :: 0 <= j < i && Class(outputs[j]) == e ==> outputs[j].index in used
    ensures Rank(outputs, i) == Count(required, e)
  {
    var c := Count(required, e);
    assert Rank(outputs, i) == Count(Classes(outputs)[..i], e) >= c;
    hide Count, Classes, Rank;
    if Rank(outputs, i) > c {
      var j := RankTaken(outputs, i, e, c);
    }
  }

  lemma ConsumeNone(required: seq<Expected>, e: Expected, outputs: seq<Output>, used: set<nat>)
    requires UsedIs(used, required, outputs)
    requires forall j :: 0 <= j < |outputs| && Class(outputs[j]) == e ==> outputs[j].index in used
    ensures UsedIs(used, required + [e], outputs)
  {
    forall j | 0 <= j < |outputs|
      ensures outputs[j].index in used <==> Consumed(required + [e], outputs, j)
    {
      CountAppend(required, e, Class(outputs[j]));
    }
  }

  lemma NothingConsumed(outputs: seq<Output>)
    ensures UsedIs({}, [], outputs)
  {
  }

  // On an ordered coinbase the lowest unused output index of a class is the first one met.
  method MarkUsed(required: seq<Expected>, outputs: seq<Output>) returns (used: set<nat>)
    requires Ordered(outputs)
    ensures UsedIs(used, required, outputs)
  {
    hide Ordered, Consumed;
    used := {};
    assert UsedIs(used, required[..0], outputs) by { NothingConsumed(outputs); }
    for r := 0 to |required|
      invariant UsedIs(used, required[..r], outputs)
    {
      hide UsedIs;
      assert required[..r + 1] == required[..r] + [required[r]];
      var i := 0;
      while i < |outputs| && (outputs[i].index in used || Class(outputs[i]) != required[r])
        invariant 0 <= i <= |outputs|
        invariant forall j :: 0 <= j < i && Class(outputs[j]) == required[r] ==> outputs[j].index in used
      {
        i := i + 1;
      }
      if i < |outputs| {
        ConsumeLowest(required[..r], required[r], outputs, used, i);
        used := used + {outputs[i].index};
      } else {
        ConsumeNone(required[..r], required[r], outputs, used);
      }
    }
    assert required[..|required|] == required;
  }

  method MatchOutputs(required: seq<Expected>, outputs: seq<Output>)
    returns (matched: seq<Output>, unexplained: seq<Output>)
    requires Ordered(outputs)
    ensures matched == Matched(required, outputs)
    ensures unexplained == Unexplained(required, outputs)
  {
    hide Consumed, Ordered;
    var used := MarkUsed(required, outputs);
    matched, unexplained := [], [];
    for i := 0 to |outputs|
      invariant matched == Pick(required, outputs, i, true)
      invariant unexplained == Pick(required, outputs, i, false)
    {
      if outputs[i].index in used {
        matched := matched + [outputs[i]];
      } else {
        unexplained := unexplained + [outputs[i]];
      }
    }
  }

  // ---------- what the match means ----------

  // Matched and unexplained outputs partition the coinbase.
  lemma {:induction false} PickPartitions(required: seq<Expected>, outputs: seq<Output>, k: nat)
    requires k <= |outputs|
    ensures multiset(Pick(required, outputs, k, true)) + multiset(Pick(required, outputs, k, false))
      == multiset(outputs[..k])
  {
    hide *;
    if k == 0 {
      PickNone(required, outputs);
    } else {
      PickPartitions(required, outputs, k - 1);
      PickStep(required, outputs, k, true);
      PickStep(required, outputs, k, false);
      FirstAndNext(outputs, k);
      PartsGrow(Pick(required, outputs, k - 1, true), Pick(required, outputs, k - 1, false),
                outputs[..k - 1], outputs[k - 1]);
    }
  }

  lemma PickNone(required: seq<Expected>, outputs: seq<Output>)
    ensures Pick(required, outputs, 0, true) == Pick(required, outputs, 0, false) == [] == outputs[..0]
  {
  }

  lemma PickStep(required: seq<Expected>, outputs: seq<Output>, k: nat, keep: bool)
    requires 0 < k <= |outputs|
    ensures var before := Pick(required, outputs, k - 1, keep);
      Pick(required, outputs, k, keep) ==
        if Consumed(required, outputs, k - 1) == keep then before + [outputs[k - 1]] else before
  {
    hide Consumed;
  }

  lemma FirstAndNext(outputs: seq<Output>, k: nat)
    requires 0 < k <= |outputs|
    ensures outputs[..k] == outputs[..k - 1] + [outputs[k - 1]]
  {
  }

  lemma PartsGrow(a: seq<Output>, b: seq<Output>, s: seq<Output>, o: Output)
    requires multiset(a) + multiset(b) == multiset(s)
    ensures multiset(a + [o]) + multiset(b) == multiset(s + [o]) == multiset(a) + multiset(b + [o])
  {
  }

  lemma MatchPartitionsCoinbase(required: seq<Expected>, outputs: seq<Output>)
    ensures multiset(Matched(required, outputs)) + multiset(Unexplained(required, outputs)) == multiset(outputs)
  {
    PickPartitions(required, outputs, |outputs|);
    assert outputs[..|outputs|] == outputs;
  }

  lemma ClassesAppend(s: seq<Output>, o: Output)
    ensures Classes(s + [o]) == Classes(s) + [Class(o)]
  {
  }

  lemma PickGrows(required: seq<Expected>, outputs: seq<Output>, k: nat, x: Expected)
    requires 0 < k <= |outputs|
    ensures Count(Classes(Pick(required, outputs, k, true)), x)
      == Count(Classes(Pick(required, outputs, k - 1, true)), x)
         + if Consumed(required, outputs, k - 1) && Class(outputs[k - 1]) == x then 1 else 0
  {
    var p, o := Pick(required, outputs, k - 1, true), outputs[k - 1];
    if Consumed(required, outputs, k - 1) {
      hide Rank, Consumed, Classes;
      ClassesAppend(p, o);
      CountAppend(Classes(p), Class(o), x);
    } else {
      assert p + [] == p;
    }
  }

  // Of each class, min(required, available) outputs are matched.
  lemma {:induction false} PickCounts(required: seq<Expected>, outputs: seq<Output>, k: nat, x: Expected)
    requires k <= |outputs|
    ensures Count(Classes(Pick(required, outputs, k, true)), x)
      == Min(Count(required, x), Count(Classes(outputs)[..k], x))
  {
    if k > 0 {
      assert Class(outputs[k - 1]) == x ==>
        (Consumed(required, outputs, k - 1) <==> Count(Classes(outputs)[..k - 1], x) < Count(required, x));
      hide Count, Consumed, Pick, Classes;
      PickCounts(required, outputs, k - 1, x);
      PickGrows(required, outputs, k, x);
      CountPrefix(Classes(outputs), k - 1, x);
    }
  }

  lemma MatchedPerClass(required: seq<Expected>, outputs: seq<Output>, x: Expected)
    ensures Count(Classes(Matched(required, outputs)), x)
      == Min(Count(required, x), Count(Classes(outputs), x))
  {
    PickCounts(required, outputs, |outputs|, x);
    assert Classes(outputs)[..|outputs|] == Classes(outputs);
  }

  lemma ConsumedIgnoresOrder(r1: seq<Expected>, r2: seq<Expected>, outputs: seq<Output>, i: nat)
    requires multiset(r1) == multiset(r2) && i < |outputs|
    ensures Consumed(r1, outputs, i) == Consumed(r2, outputs, i)
  {
    hide Rank;
  }

  // The order in which requirements are listed does not change the match.
  lemma {:induction false} MatchIgnoresOrder(r1: seq<Expected>, r2: seq<Expected>, outputs: seq<Output>, k: nat,
                                             keep: bool)
    requires multiset(r1) == multiset(r2) && k <= |outputs|
    ensures Pick(r1, outputs, k, keep) == Pick(r2, outputs, k, keep)
  {
    hide *;
    if k > 0 {
      MatchIgnoresOrder(r1, r2, outputs, k - 1, keep);
      ConsumedIgnoresOrder(r1, r2, outputs, k - 1);
      PickStep(r1, outputs, k, keep);
      PickStep(r2, outputs, k, keep);
    } else {
      PickNone(r1, outputs);
      PickNone(r2, outputs);
    }
  }

  // Every requirement is met exactly when the requirements are a sub-multiset of the outputs.
  lemma AllMatchedIffSubMultiset(required: seq<Expected>, outputs: seq<Output>)
    ensures |Matched(required, outputs)| == |required| <==> multiset(required) <= multiset(Classes(outputs))
    ensures multiset(required) <= multiset(Classes(outputs)) ==>
      multiset(Classes(Matched(required, outputs))) == multiset(required)
  {
    var m := Classes(Matched(required, outputs));
    forall x ensures multiset(m)[x] == Min(multiset(required)[x], multiset(Classes(outputs))[x]) {
      MatchedPerClass(required, outputs, x);
    }
    assert multiset(m) <= multiset(required);
    if |m| == |required| {
      SameSizeSubset(multiset(m), multiset(required));
    } else {
      assert multiset(m) != multiset(required);
    }
  }

  lemma SameSizeSubset(a: multiset<Expected>, b: multiset<Expected>)
    requires a <= b && |a| == |b|
    ensures a == b
  {
    assert b == a + (b - a);
  }

  lemma {:induction false} AmountsRemove(es: seq<Expected>, i: nat)
    requires i < |es|
    ensures Amounts(es) == es[i].amount + Amounts(es[..i] + es[i + 1..])
  {
    hide *;
    var k := |es| - 1;
    LastRemoved(es, i);
    AmountsAppend(es[..k], es[k]);
    if i < k {
      AmountsRemove(es[..k], i);
      AmountsAppend(es[..k][..i] + es[..k][i + 1..], es[k]);
    }
  }

  lemma LastRemoved(es: seq<Expected>, i: nat)
    requires i < |es|
    ensures var k := |es| - 1;
      && es == es[..k] + [es[k]]
      && es[..i] + es[i + 1..] == if i == k then es[..k] else es[..k][..i] + es[..k][i + 1..] + [es[k]]
  {
  }

  lemma AmountsAppend(es: seq<Expected>, e: Expected)
    ensures Amounts(es + [e]) == Amounts(es) + e.amount
  {
    assert (es + [e])[..|es|] == es;
  }

  lemma WithoutOne(b: seq<Expected>, i: nat)
    requires i < |b|
    ensures multiset(b[..i] + b[i + 1..]) == multiset(b) - multiset{b[i]}
  {
    assert b == b[..i] + [b[i]] + b[i + 1..];
  }

  lemma TakeOut(a: seq<Expected>, b: seq<Expected>) returns (i: nat, rest: seq<Expected>)
    requires |a| > 0 && multiset(a) == multiset(b)
    ensures i < |b| && b[i] == a[|a| - 1] && rest == b[..i] + b[i + 1..]
    ensures multiset(a[..|a| - 1]) == multiset(rest)
  {
    var k := |a| - 1;
    assert a[k] in multiset(a);
    i :| 0 <= i < |b| && b[i] == a[k];
    rest := b[..i] + b[i + 1..];
    WithoutOne(b, i);
    WithoutOne(a, k);
    assert a[..k] + a[k + 1..] == a[..k];
  }

  // Equal multisets of outputs pay equal totals.
  lemma {:induction false} AmountsOfMultiset(a: seq<Expected>, b: seq<Expected>)
    requires multiset(a) == multiset(b)
    ensures Amounts(a) == Amounts(b)
  {
    if |a| == 0 {
      assert |multiset(b)| == 0;
    } else {
      var k := |a| - 1;
      var i, rest := TakeOut(a, b);
      AmountsOfMultiset(a[..k], rest);
      AmountsRemove(b, i);
    }
  }

  // A fully matched reward pays exactly what was required.
  lemma MatchedPaysRequired(required: seq<Expected>, outputs: seq<Output>)
    requires |Matched(required, outputs)| == |required|
    ensures Amounts(Classes(Matched(required, outputs))) == Amounts(required)
  {
    AllMatchedIffSubMultiset(required, outputs);
    AmountsOfMultiset(Classes(Matched(required, outputs)), required);
  }

  // Matched outputs keep ascending index order and are the lowest of their class.
  lemma LowestMatchedFirst(required: seq<Expected>, outputs: seq<Output>, i: nat, j: nat)
    requires i < j < |outputs| && Class(outputs[i]) == Class(outputs[j]) && Consumed(required, outputs, j)
    ensures Consumed(required, outputs, i)
  {
    RanksAscend(outputs, i, j);
  }

  // A matched output is a consumed position of the coinbase, and conversely.
  lemma {:induction false} PickMembers(required: seq<Expected>, outputs: seq<Output>, k: nat, keep: bool, o: Output)
    requires k <= |outputs|
    ensures o in Pick(required, outputs, k, keep) <==>
      exists i :: 0 <= i < k && outputs[i] == o && Consumed(required, outputs, i) == keep
  {
    hide *;
    if k == 0 {
      PickNone(required, outputs);
    } else {
      PickMembers(required, outputs, k - 1, keep, o);
      PickStep(required, outputs, k, keep);
      InAppend(Pick(required, outputs, k - 1, keep), outputs[k - 1], o);
      if Consumed(required, outputs, k - 1) == keep && outputs[k - 1] == o {
        assert 0 <= k - 1 < k && outputs[k - 1] == o && Consumed(required, outputs, k - 1) == keep;
      }
    }
  }

  lemma InAppend(s: seq<Output>, o: Output, y: Output)
    ensures y in s + [o] <==> y in s || y == o
  {
  }

  // ---------- the bucketed form ----------

  datatype DuplicateIndex = DuplicateIndex

  datatype Match = Match(matched: seq<Output>, unexplained: seq<Output>)

  predicate NoTwice(outputs: seq<Output>) {
    forall i, j :: 0 <= i < |outputs| && 0 <= j < |outputs| ==> OtherIndex(outputs[i], outputs[j]) || i == j
  }

  predicate OtherIndex(a: Output, b: Output) {
    a.index != b.index
  }

  lemma OrderedNoTwice(outputs: seq<Output>)
    requires Ordered(outputs)
    ensures NoTwice(outputs)
  {
    forall i, j | 0 <= i < |outputs| && 0 <= j < |outputs|
      ensures OtherIndex(outputs[i], outputs[j]) || i == j
    {
      if i < j { assert IndexBelow(outputs, i, j); }
      if j < i { assert IndexBelow(outputs, j, i); }
    }
  }

  // Outputs of one class among the first k, in order.
  function Bucket(outputs: seq<Output>, k: nat, x: Expected): seq<Output>
    requires k <= |outputs|
  {
    if k == 0 then []
    else Bucket(outputs, k - 1, x) + if Class(outputs[k - 1]) == x then [outputs[k - 1]] else []
  }

  lemma {:induction false} BucketCounts(outputs: seq<Output>, k: nat, x: Expected)
    requires k <= |outputs|
    ensures |Bucket(outputs, k, x)| == Count(Classes(outputs)[..k], x)
  {
    hide *;
    if k == 0 {
      EmptyBucket(outputs, x);
    } else {
      BucketCounts(outputs, k - 1, x);
      BucketStep(outputs, k, x);
      CountPrefix(Classes(outputs), k - 1, x);
    }
  }

  lemma EmptyBucket(outputs: seq<Output>, x: Expected)
    ensures Bucket(outputs, 0, x) == [] && Count(Classes(outputs)[..0], x) == 0
  {
  }

  lemma BucketStep(outputs: seq<Output>, k: nat, x: Expected)
    requires 0 < k <= |outputs|
    ensures var before := Bucket(outputs, k - 1, x);
      Bucket(outputs, k, x) == if Class(outputs[k - 1]) == x then before + [outputs[k - 1]] else before
  {
  }

  // The entry at place c of a bucket is the output of that class with rank c.
  lemma {:induction false} BucketAt(outputs: seq<Output>, k: nat, x: Expected, c: nat) returns (i: nat)
    requires k <= |outputs| && c < |Bucket(outputs, k, x)|
    ensures i < k && outputs[i] == Bucket(outputs, k, x)[c] && Class(outputs[i]) == x && Rank(outputs, i) == c
  {
    if c < |Bucket(outputs, k - 1, x)| {
      i := BucketAt(outputs, k - 1, x, c);
    } else {
      i := k - 1;
      BucketCounts(outputs, k - 1, x);
    }
  }

  method InsertByIndex(t: seq<Output>, o: Output) returns (u: seq<Output>)
    ensures u == Inserted(t, o)
  {
    var p := |t|;
    assert t[..|t|] == t && t[|t|..] == [];
    while p > 0 && t[p - 1].index > o.index
      invariant 0 <= p <= |t|
      invariant Inserted(t, o) == Inserted(t[..p], o) + t[p..]
    {
      hide Inserted;
      InsertedStep(t, p, o);
      p := p - 1;
    }
    u := t[..p] + [o] + t[p..];
  }

  lemma InsertedStep(t: seq<Output>, p: nat, o: Output)
    requires 0 < p <= |t| && t[p - 1].index > o.index
    ensures Inserted(t[..p], o) + t[p..] == Inserted(t[..p - 1], o) + t[p - 1..]
  {
    assert t[..p][..p - 1] == t[..p - 1];
    assert Inserted(t[..p], o) == Inserted(t[..p - 1], o) + [t[p - 1]];
    assert t[p - 1..] == [t[p - 1]] + t[p..];
    hide Inserted;
  }

  lemma {:induction false} InsertedIsPermutation(t: seq<Output>, o: Output)
    ensures multiset(Inserted(t, o)) == multiset(t) + multiset{o}
  {
    if |t| > 0 && t[|t| - 1].index > o.index {
      InsertedIsPermutation(t[..|t| - 1], o);
      assert t == t[..|t| - 1] + [t[|t| - 1]];
    }
  }

  lemma {:induction false} IndexOrderIsPermutation(outputs: seq<Output>)
    ensures multiset(IndexOrder(outputs)) == multiset(outputs)
  {
    if |outputs| > 0 {
      var front, o := outputs[..|outputs| - 1], outputs[|outputs| - 1];
      assert outputs == front + [o];
      assert IndexOrder(outputs) == Inserted(IndexOrder(front), o);
      hide *;
      IndexOrderIsPermutation(front);
      InsertedIsPermutation(IndexOrder(front), o);
    }
  }

  lemma IndexOrderMembers(outputs: seq<Output>)
    ensures forall y :: y in IndexOrder(outputs) <==> y in outputs
  {
    IndexOrderIsPermutation(outputs);
    forall y ensures y in IndexOrder(outputs) <==> y in outputs {
      assert y in multiset(IndexOrder(outputs)) <==> y in multiset(outputs);
    }
  }

  lemma {:induction false} InsertedKeepsOrder(t: seq<Output>, o: Output)
    requires Ordered(t) && forall y :: y in t ==> OtherIndex(y, o)
    ensures Ordered(Inserted(t, o))
  {
    if |t| > 0 && t[|t| - 1].index > o.index {
      var front, last := t[..|t| - 1], t[|t| - 1];
      FrontOrdered(t);
      InsertedKeepsOrder(front, o);
      var u := Inserted(front, o);
      InsertedIsPermutation(front, o);
      forall i | 0 <= i < |u| ensures u[i].index < last.index {
        assert u[i] in multiset(u);
        if u[i] != o {
          assert u[i] in multiset(front);
          var j :| 0 <= j < |front| && front[j] == u[i];
          assert IndexBelow(t, j, |t| - 1);
        }
      }
      OrderedAppend(u, last);
    } else {
      assert |t| > 0 ==> OtherIndex(t[|t| - 1], o);
      forall i | 0 <= i < |t| ensures t[i].index < o.index {
        assert i < |t| - 1 ==> IndexBelow(t, i, |t| - 1);
      }
      OrderedAppend(t, o);
    }
  }

  lemma FrontOrdered(s: seq<Output>)
    requires Ordered(s) && |s| > 0
    ensures Ordered(s[..|s| - 1])
  {
    var front := s[..|s| - 1];
    forall i, j | 0 <= i < j < |front| ensures IndexBelow(front, i, j) { assert IndexBelow(s, i, j); }
  }

  // Without a repeated index the outputs come out in strictly ascending order.
  lemma {:induction false} IndexOrderSorts(outputs: seq<Output>)
    requires NoTwice(outputs)
    ensures Ordered(IndexOrder(outputs))
  {
    if |outputs| > 0 {
      var k := |outputs| - 1;
      assert NoTwice(outputs[..k]) by {
        forall i, j | 0 <= i < k && 0 <= j < k ensures OtherIndex(outputs[..k][i], outputs[..k][j]) || i == j {
          assert OtherIndex(outputs[i], outputs[j]) || i == j;
        }
      }
      IndexOrderSorts(outputs[..k]);
      IndexOrderMembers(outputs[..k]);
      forall y | y in IndexOrder(outputs[..k]) ensures OtherIndex(y, outputs[k]) {
        var i :| 0 <= i < k && outputs[..k][i] == y;
        assert OtherIndex(outputs[i], outputs[k]) || i == k;
      }
      InsertedKeepsOrder(IndexOrder(outputs[..k]), outputs[k]);
    }
  }

  // A coinbase already in index order is left as it is.
  lemma IndexOrderOfOrdered(outputs: seq<Output>)
    requires Ordered(outputs)
    ensures IndexOrder(outputs) == outputs
  {
    OrderedNoTwice(outputs);
    IndexOrderSorts(outputs);
    IndexOrderMembers(outputs);
    OrderedUnique(IndexOrder(outputs), outputs);
  }

  lemma {:induction false} InsertedClasses(t: seq<Output>, o: Output)
    ensures multiset(Classes(Inserted(t, o))) == multiset(Classes(t)) + multiset{Class(o)}
  {
    ClassesAppend(t, o);
    if |t| > 0 && t[|t| - 1].index > o.index {
      var front, last := t[..|t| - 1], t[|t| - 1];
      assert t == front + [last];
      InsertedClasses(front, o);
      hide Classes;
      ClassesAppend(front, last);
      ClassesAppend(Inserted(front, o), last);
    }
  }

  lemma {:induction false} IndexOrderClasses(outputs: seq<Output>)
    ensures multiset(Classes(IndexOrder(outputs))) == multiset(Classes(outputs))
  {
    if |outputs| > 0 {
      var front, o := outputs[..|outputs| - 1], outputs[|outputs| - 1];
      assert outputs == front + [o];
      IndexOrderClasses(front);
      InsertedClasses(IndexOrder(front), o);
      ClassesAppend(front, o);
      hide Classes;
    }
  }

  // Sorting the coinbase does not change whether everything required is matched.
  lemma AllMatchedInAnyOrder(required: seq<Expected>, outputs: seq<Output>)
    ensures |Matched(required, IndexOrder(outputs))| == |required| <==> |Matched(required, outputs)| == |required|
  {
    IndexOrderClasses(outputs);
    AllMatchedIffSubMultiset(required, outputs);
    AllMatchedIffSubMultiset(required, IndexOrder(outputs));
  }

  function Indices(outputs: seq<Output>): set<nat> {
    set o | o in outputs :: o.index
  }

  lemma NextIndex(outputs: seq<Output>, k: nat)
    requires k < |outputs| && NoTwice(outputs[..k])
    ensures IndexOrder(outputs[..k + 1]) == Inserted(IndexOrder(outputs[..k]), outputs[k])
    ensures Indices(outputs[..k + 1]) == Indices(outputs[..k]) + {outputs[k].index}
    ensures outputs[k].index in Indices(outputs[..k]) ==> !NoTwice(outputs)
    ensures outputs[k].index !in Indices(outputs[..k]) ==> NoTwice(outputs[..k + 1])
  {
    hide *;
    FirstAndNext(outputs, k + 1);
    IndexOrderAppend(outputs[..k], outputs[k]);
    IndicesAppend(outputs[..k], outputs[k]);
    if outputs[k].index in Indices(outputs[..k]) {
      var i := HasIndex(outputs[..k], outputs[k].index);
      TwiceIndex(outputs, i, k);
    } else {
      NoIndexMeans(outputs[..k], outputs[k].index);
      NoTwiceAppend(outputs[..k], outputs[k]);
    }
  }

  lemma IndicesAppend(front: seq<Output>, o: Output)
    ensures Indices(front + [o]) == Indices(front) + {o.index}
  {
  }

  lemma HasIndex(outputs: seq<Output>, n: nat) returns (i: nat)
    requires n in Indices(outputs)
    ensures i < |outputs| && outputs[i].index == n
  {
    i :| 0 <= i < |outputs| && outputs[i].index == n;
  }

  lemma NoIndexMeans(outputs: seq<Output>, n: nat)
    requires n !in Indices(outputs)
    ensures forall y :: y in outputs ==> y.index != n
  {
  }

  lemma IndexOrderAppend(front: seq<Output>, o: Output)
    ensures IndexOrder(front + [o]) == Inserted(IndexOrder(front), o)
  {
    assert (front + [o])[..|front|] == front;
  }

  lemma TwiceIndex(outputs: seq<Output>, i: nat, k: nat)
    requires i < k < |outputs| && outputs[i].index == outputs[k].index
    ensures !NoTwice(outputs)
  {
    assert !(OtherIndex(outputs[i], outputs[k]) || i == k);
  }

  // sort by outputIndex; a repeated index is refused.
  method SortByIndex(outputs: seq<Output>) returns (r: Result<seq<Output>, DuplicateIndex>)
    ensures r.Ok? <==> NoTwice(outputs)
    ensures r.Ok? ==> r.value == IndexOrder(outputs)
  {
    var t: seq<Output> := [];
    var seen: set<nat> := {};
    for k := 0 to |outputs|
      invariant t == IndexOrder(outputs[..k]) && seen == Indices(outputs[..k])
      invariant NoTwice(outputs[..k])
    {
      hide *;
      var o := outputs[k];
      NextIndex(outputs, k);
      if o.index in seen { return Err(DuplicateIndex); }
      t := InsertByIndex(t, o);
      seen := seen + {o.index};
    }
    assert outputs[..|outputs|] == outputs;
    return Ok(t);
  }

  lemma {:induction false} OrderedUnique(a: seq<Output>, b: seq<Output>)
    requires Ordered(a) && Ordered(b) && forall y :: y in a <==> y in b
    ensures a == b
  {
    NonEmptyHas(a);
    NonEmptyHas(b);
    if |a| > 0 && |b| > 0 {
      assert a[0] in b;
      assert b[0] in a;
      var i :| 0 <= i < |b| && b[i] == a[0];
      var j :| 0 <= j < |a| && a[j] == b[0];
      assert IndexBelow(b, 0, i) || i == 0;
      assert IndexBelow(a, 0, j) || j == 0;
      assert a[0] == b[0];
      forall y ensures y in a[1..] <==> y in b[1..] {
        TailOutputs(a, y);
        TailOutputs(b, y);
      }
      TailOrdered(a);
      TailOrdered(b);
      OrderedUnique(a[1..], b[1..]);
      assert a == [a[0]] + a[1..] && b == [b[0]] + b[1..];
    }
  }

  lemma TailOutputs(s: seq<Output>, y: Output)
    requires Ordered(s) && |s| > 0
    ensures y in s[1..] <==> y in s && y != s[0]
  {
    assert s == [s[0]] + s[1..];
    assert s[0] !in s[1..] by {
      forall i | 1 <= i < |s| ensures s[i] != s[0] { assert IndexBelow(s, 0, i); }
    }
  }

  lemma TailOrdered(s: seq<Output>)
    requires Ordered(s) && |s| > 0
    ensures Ordered(s[1..])
  {
    forall i, j | 0 <= i < j < |s| - 1 ensures IndexBelow(s[1..], i, j) { assert IndexBelow(s, i + 1, j + 1); }
  }

  lemma {:induction false} PickOrdered(required: seq<Expected>, outputs: seq<Output>, k: nat, keep: bool)
    requires k <= |outputs| && Ordered(outputs)
    ensures Ordered(Pick(required, outputs, k, keep))
  {
    hide *;
    if k == 0 {
      PickNone(required, outputs);
      NothingOrdered();
    } else {
      var p := Pick(required, outputs, k - 1, keep);
      PickOrdered(required, outputs, k - 1, keep);
      PickStep(required, outputs, k, keep);
      forall i | 0 <= i < |p| ensures p[i].index < outputs[k - 1].index {
        PickMembers(required, outputs, k - 1, keep, p[i]);
        var j :| 0 <= j < k - 1 && outputs[j] == p[i];
        OrderedAt(outputs, j, k - 1);
      }
      OrderedAppend(p, outputs[k - 1]);
    }
  }

  lemma NothingOrdered()
    ensures Ordered([])
  {
  }

  lemma OrderedAt(s: seq<Output>, i: nat, j: nat)
    requires Ordered(s) && i < j < |s|
    ensures s[i].index < s[j].index
  {
    assert IndexBelow(s, i, j);
  }

  lemma OrderedAppend(p: seq<Output>, o: Output)
    requires Ordered(p) && forall i :: 0 <= i < |p| ==> p[i].index < o.index
    ensures Ordered(p + [o]) && Ordered(p + [])
  {
    forall i, j | 0 <= i < j < |p| + 1 ensures IndexBelow(p + [o], i, j) { assert j < |p| ==> IndexBelow(p, i, j); }
    assert p + [] == p;
  }

  ghost predicate BucketsOf(buckets: map<Expected, seq<Output>>, s: seq<Output>, k: nat)
    requires k <= |s|
  {
    forall x :: Filled(buckets, x) == Bucket(s, k, x)
  }

  function Filled(buckets: map<Expected, seq<Output>>, x: Expected): seq<Output> {
    if x in buckets then buckets[x] else []
  }

  method FillBuckets(s: seq<Output>) returns (buckets: map<Expected, seq<Output>>)
    ensures BucketsOf(buckets, s, |s|)
  {
    buckets := map[];
    for k := 0 to |s|
      invariant BucketsOf(buckets, s, k)
    {
      var x := Class(s[k]);
      FillStep(buckets, s, k);
      buckets := buckets[x := Filled(buckets, x) + [s[k]]];
    }
  }

  lemma FillStep(buckets: map<Expected, seq<Output>>, s: seq<Output>, k: nat)
    requires k < |s| && BucketsOf(buckets, s, k)
    ensures var x := Class(s[k]); BucketsOf(buckets[x := Filled(buckets, x) + [s[k]]], s, k + 1)
  {
    var x := Class(s[k]);
    var after := buckets[x := Filled(buckets, x) + [s[k]]];
    forall y ensures Filled(after, y) == Bucket(s, k + 1, y) {
      assert Filled(buckets, y) == Bucket(s, k, y);
      assert Bucket(s, k, y) + [] == Bucket(s, k, y);
    }
  }

  function Place(cursor: map<Expected, nat>, x: Expected): nat {
    if x in cursor then cursor[x] else 0
  }

  // Each cursor stands after as many outputs of its class as were required and available.
  ghost predicate CursorsAt(cursor: map<Expected, nat>, required: seq<Expected>, s: seq<Output>) {
    forall x :: Place(cursor, x) == Min(Count(required, x), |Bucket(s, |s|, x)|)
  }

  // The entry under the cursor is the lowest unused output of its class.
  lemma TakeNext(required: seq<Expected>, x: Expected, s: seq<Output>, used: set<nat>, at: nat)
    requires Ordered(s) && UsedIs(used, required, s)
    requires at == Count(required, x) && at < |Bucket(s, |s|, x)|
    ensures var o := Bucket(s, |s|, x)[at];
      && o in s && o.index !in used && UsedIs(used + {o.index}, required + [x], s)
  {
    var i := BucketAt(s, |s|, x, at);
    forall j | 0 <= j < i && Class(s[j]) == x ensures s[j].index in used { RanksAscend(s, j, i); }
    ConsumeLowest(required, x, s, used, i);
  }

  lemma TakeNothing(required: seq<Expected>, x: Expected, s: seq<Output>, used: set<nat>)
    requires UsedIs(used, required, s) && |Bucket(s, |s|, x)| <= Count(required, x)
    ensures UsedIs(used, required + [x], s)
  {
    BucketHolds(s, x);
    hide Bucket, Count, Classes, Rank;
    forall j | 0 <= j < |s| && Class(s[j]) == x ensures s[j].index in used { RankBelowCount(s, j); }
    ConsumeNone(required, x, s, used);
  }

  lemma BucketHolds(s: seq<Output>, x: Expected)
    ensures |Bucket(s, |s|, x)| == Count(Classes(s), x)
  {
    BucketCounts(s, |s|, x);
    assert Classes(s)[..|s|] == Classes(s);
  }

  lemma RankBelowCount(s: seq<Output>, j: nat)
    requires j < |s|
    ensures Rank(s, j) < Count(Classes(s), Class(s[j]))
  {
    var cs, x := Classes(s), Class(s[j]);
    hide Count;
    CountPrefix(cs, j, x);
    CountMonotone(cs, j + 1, |s|, x);
    assert cs[..|s|] == cs;
  }

  lemma CursorStep(cursor: map<Expected, nat>, required: seq<Expected>, x: Expected, s: seq<Output>)
    requires CursorsAt(cursor, required, s)
    ensures var at, n := Place(cursor, x), |Bucket(s, |s|, x)|;
      && (at < n ==> at == Count(required, x) && CursorsAt(cursor[x := at + 1], required + [x], s))
      && (at >= n ==> n <= Count(required, x) && CursorsAt(cursor, required + [x], s))
  {
    hide Count, Bucket;
    forall y ensures Count(required + [x], y) == Count(required, y) + if y == x then 1 else 0 {
      CountAppend(required, x, y);
    }
  }

  predicate Taken(matched: seq<Output>, used: set<nat>, s: seq<Output>) {
    && NoTwice(matched)
    && (forall y :: y in matched ==> y in s && y.index in used)
    && (forall y :: y in s && y.index in used ==> y in matched)
  }

  lemma TakenMore(matched: seq<Output>, used: set<nat>, s: seq<Output>, o: Output)
    requires Taken(matched, used, s) && Ordered(s) && o in s && o.index !in used
    ensures Taken(matched + [o], used + {o.index}, s)
  {
    OrderedNoTwice(s);
    var i :| 0 <= i < |s| && s[i] == o;
    forall y | y in s && y.index == o.index ensures y == o {
      var j :| 0 <= j < |s| && s[j] == y;
      assert OtherIndex(s[j], s[i]) || i == j;
    }
    NoTwiceAppend(matched, o);
  }

  lemma NoTwiceAppend(t: seq<Output>, o: Output)
    requires NoTwice(t) && forall y :: y in t ==> y.index != o.index
    ensures NoTwice(t + [o])
  {
    var u := t + [o];
    forall i, j | 0 <= i < |u| && 0 <= j < |u| ensures OtherIndex(u[i], u[j]) || i == j {
      if i < |t| && j < |t| { assert OtherIndex(t[i], t[j]) || i == j; }
    }
  }

  // A list in index order with the used (or, keep == false, the unused) outputs is what the scan picks.
  lemma PickedIs(required: seq<Expected>, s: seq<Output>, used: set<nat>, keep: bool, t: seq<Output>)
    requires Ordered(s) && UsedIs(used, required, s) && Ordered(t)
    requires forall y :: y in t <==> y in s && (y.index in used) == keep
    ensures t == Pick(required, s, |s|, keep)
  {
    forall y ensures y in t <==> y in Pick(required, s, |s|, keep) {
      PickMembers(required, s, |s|, keep, y);
      OrderedNoTwice(s);
      hide Pick, Consumed;
      if y in s {
        var i :| 0 <= i < |s| && s[i] == y;
        forall j | 0 <= j < |s| && s[j] == y ensures j == i { assert OtherIndex(s[i], s[j]) || i == j; }
      }
    }
    PickOrdered(required, s, |s|, keep);
    OrderedUnique(t, Pick(required, s, |s|, keep));
  }

  method Consume(required: seq<Expected>, s: seq<Output>) returns (matched: seq<Output>, used: set<nat>)
    requires Ordered(s)
    ensures UsedIs(used, required, s) && Taken(matched, used, s)
  {
    hide *;
    var buckets := FillBuckets(s);
    var cursor: map<Expected, nat> := map[];
    matched, used := [], {};
    NothingTaken(s);
    assert required[..0] == [];
    for r := 0 to |required|
      invariant CursorsAt(cursor, required[..r], s)
      invariant UsedIs(used, required[..r], s) && Taken(matched, used, s)
    {
      var x := required[r];
      assert required[..r + 1] == required[..r] + [x];
      FilledIs(buckets, s, x);
      var list, at := Filled(buckets, x), Place(cursor, x);
      CursorStep(cursor, required[..r], x, s);
      if at < |list| {
        var o := list[at];
        TakeNext(required[..r], x, s, used, at);
        TakenMore(matched, used, s, o);
        cursor := cursor[x := at + 1];
        matched, used := matched + [o], used + {o.index};
      } else {
        TakeNothing(required[..r], x, s, used);
      }
    }
    assert required[..|required|] == required;
  }

  lemma NothingTaken(s: seq<Output>)
    ensures CursorsAt(map[], [], s) && UsedIs({}, [], s) && Taken([], {}, s)
  {
  }

  lemma FilledIs(buckets: map<Expected, seq<Output>>, s: seq<Output>, x: Expected)
    requires BucketsOf(buckets, s, |s|)
    ensures Filled(buckets, x) == Bucket(s, |s|, x)
  {
  }

  method Remainder(actual: seq<Output>, used: set<nat>) returns (rest: seq<Output>)
    requires NoTwice(actual)
    ensures NoTwice(rest) && forall y :: y in rest <==> y in actual && y.index !in used
  {
    rest := [];
    for k := 0 to |actual|
      invariant NoTwice(rest) && forall y :: y in rest <==> y in actual[..k] && y.index !in used
    {
      assert actual[..k + 1] == actual[..k] + [actual[k]];
      if actual[k].index !in used {
        forall y | y in rest ensures y.index != actual[k].index {
          var i :| 0 <= i < k && actual[..k][i] == y;
          assert OtherIndex(actual[i], actual[k]) || i == k;
        }
        NoTwiceAppend(rest, actual[k]);
        rest := rest + [actual[k]];
      }
    }
    assert actual[..|actual|] == actual;
  }

  // Bucketed by class and consumed by cursor; the answer is the scan's on the outputs in
  // index order, and a repeated index is refused.
  method MatchOwnerVector(required: seq<Expected>, actual: seq<Output>)
    returns (r: Result<Match, DuplicateIndex>)
    ensures r.Ok? <==> NoTwice(actual)
    ensures r.Ok? ==>
      r.value == Match(Matched(required, IndexOrder(actual)), Unexplained(required, IndexOrder(actual)))
  {
    hide *;
    var sorted := SortByIndex(actual);
    if sorted.Err? { return Err(sorted.error); }
    var s := sorted.value;
    SortedParts(actual);
    var taken, used := Consume(required, s);
    TakenParts(taken, used, s);
    var matched := SortByIndex(taken);
    SortedParts(taken);
    var rest := Remainder(actual, used);
    var unexplained := SortByIndex(rest);
    SortedParts(rest);
    PickedIs(required, s, used, true, matched.value);
    PickedIs(required, s, used, false, unexplained.value);
    MatchedIsPick(required, s);
    return Ok(Match(matched.value, unexplained.value));
  }

  lemma SortedParts(outputs: seq<Output>)
    requires NoTwice(outputs)
    ensures Ordered(IndexOrder(outputs)) && forall y :: y in IndexOrder(outputs) <==> y in outputs
  {
    IndexOrderSorts(outputs);
    IndexOrderMembers(outputs);
  }

  lemma TakenParts(matched: seq<Output>, used: set<nat>, s: seq<Output>)
    requires Taken(matched, used, s)
    ensures NoTwice(matched) && forall y :: y in matched <==> y in s && y.index in used
  {
    hide NoTwice;
  }

  lemma MatchedIsPick(required: seq<Expected>, s: seq<Output>)
    ensures Matched(required, s) == Pick(required, s, |s|, true)
    ensures Unexplained(required, s) == Pick(required, s, |s|, false)
  {
  }
}
