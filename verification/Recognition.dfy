/**
 Height recognition over the adopted signed epochs.

 The checker scans epochs and suspensions linearly (check_vectors.py); the seam
 captures validated bounds and binary-searches them (auditSeam.cjs).  `Recognize` and
 `BookAt` are the linear forms; the methods are the seam's, proved to agree.
 */
module Recognition {
  import opened Outcomes
  import opened Lifecycle
  import LargestRemainder

  datatype Book = Book(
    contractId: string, poolId: string, operatorId: string, slotCount: int,
    shares: seq<LargestRemainder.Share>)

  datatype Binding = Binding(
    proTxHash: string, slotIndex: int, contractId: string, poolId: string, activation: int)

  datatype Epoch = Epoch(from: int, to: int, books: seq<Book>, bindings: seq<Binding>)

  // The evidence recognition reads, with the audited L1 position and pool.
  datatype Audit = Audit(
    epochs: seq<Epoch>, proTxHash: string, slotIndex: int, contractId: string, poolId: string,
    journal: Journal, base: int)

  datatype Status = Recognized | Unrecognized | Deferred

  datatype Outcome = Outcome(status: Status, bindingRef: Option<nat>)

  datatype Failure =
    | BadHeight | NoEpochs | MalformedEpoch | BackwardsEpoch | OverlappingEpochs
    | MalformedInterval | BackwardsInterval | OverlappingIntervals
    | BadTerminal | BadActivation | NoCoveringEpoch

  // ---------- the linear forms of the checker ----------

  predicate Covers(e: Epoch, H: int) {
    e.from <= H <= e.to
  }

  function CoveringEpoch(epochs: seq<Epoch>, H: int): Option<nat> {
    if |epochs| == 0 then None
    else if Covers(epochs[0], H) then Some(0)
    else match CoveringEpoch(epochs[1..], H)
      case None => None
      case Some(i) => Some(i + 1)
  }

  function FirstBinding(bs: seq<Binding>, proTxHash: string, slotIndex: int): Option<Binding> {
    if |bs| == 0 then None
    else if bs[0].proTxHash == proTxHash && bs[0].slotIndex == slotIndex then Some(bs[0])
    else FirstBinding(bs[1..], proTxHash, slotIndex)
  }

  function FirstBook(bs: seq<Book>, contractId: string, poolId: string): Option<Book> {
    if |bs| == 0 then None
    else if bs[0].contractId == contractId && bs[0].poolId == poolId then Some(bs[0])
    else FirstBook(bs[1..], contractId, poolId)
  }

  // The audited pool's binding in epoch ci, if the L1 position is bound to that pool.
  function PoolBinding(a: Audit, ci: nat): Option<Binding>
    requires ci < |a.epochs|
  {
    match FirstBinding(a.epochs[ci].bindings, a.proTxHash, a.slotIndex)
    case None => None
    case Some(b) => if b.contractId == a.contractId && b.poolId == a.poolId then Some(b) else None
  }

  predicate TerminalBefore(j: Journal, H: int) {
    j.terminalHeight.Some? && j.terminalHeight.value < H
  }

  function InEpoch(a: Audit, H: int, ci: nat): Outcome
    requires ci < |a.epochs|
  {
    match PoolBinding(a, ci)
    case None => Outcome(Unrecognized, None)
    case Some(b) =>
      if H < b.activation || SuspendedAt(a.journal, a.base, H) || TerminalBefore(a.journal, H)
      then Outcome(Unrecognized, Some(ci))
      else Outcome(Recognized, Some(ci))
  }

  lemma {:induction false} CoveringInBounds(epochs: seq<Epoch>, H: int)
    ensures var c := CoveringEpoch(epochs, H);
      (c.Some? ==> c.value < |epochs| && Covers(epochs[c.value], H))
      && (c.None? ==> forall i :: 0 <= i < |epochs| ==> !Covers(epochs[i], H))
  {
    if |epochs| > 0 { CoveringInBounds(epochs[1..], H); }
  }

  function Recognize(a: Audit, H: int): Result<Outcome, Failure>
    requires |a.epochs| > 0
  {
    if H < a.epochs[0].from then Ok(Outcome(Unrecognized, None))
    else if H > a.epochs[|a.epochs| - 1].to then Ok(Outcome(Deferred, None))
    else
      CoveringInBounds(a.epochs, H);
      match CoveringEpoch(a.epochs, H)
      case None => Err(NoCoveringEpoch)
      case Some(ci) => Ok(InEpoch(a, H, ci))
  }

  function BookAt(a: Audit, H: int): Option<Book> {
    CoveringInBounds(a.epochs, H);
    match CoveringEpoch(a.epochs, H)
    case None => None
    case Some(ci) => FirstBook(a.epochs[ci].books, a.contractId, a.poolId)
  }

  // ---------- epoch order and the covering-epoch search ----------

  predicate EpochsInOrder(epochs: seq<Epoch>) {
    && |epochs| > 0
    && (forall i :: 0 <= i < |epochs| ==>
         Safe(epochs[i].from) && Safe(epochs[i].to) && epochs[i].from <= epochs[i].to)
    && forall i :: 0 < i < |epochs| ==> epochs[i - 1].to < epochs[i].from
  }

  predicate Gapless(epochs: seq<Epoch>) {
    forall i :: 0 < i < |epochs| ==> epochs[i].from == epochs[i - 1].to + 1
  }

  datatype Bounds = Bounds(from: int, to: int)

  predicate Captures(bounds: seq<Bounds>, epochs: seq<Epoch>) {
    && |bounds| == |epochs|
    && forall i :: 0 <= i < |epochs| ==> bounds[i] == Bounds(epochs[i].from, epochs[i].to)
  }

  method AssertEpochOrder(epochs: seq<Epoch>) returns (r: Result<seq<Bounds>, Failure>)
    ensures r.Ok? <==> EpochsInOrder(epochs)
    ensures r.Ok? ==> Captures(r.value, epochs)
  {
    if |epochs| == 0 { return Err(NoEpochs); }
    var bounds: seq<Bounds> := [];
    for i := 0 to |epochs|
      invariant |bounds| == i
      invariant forall k :: 0 <= k < i ==> bounds[k] == Bounds(epochs[k].from, epochs[k].to)
      invariant forall k :: 0 <= k < i ==>
        Safe(epochs[k].from) && Safe(epochs[k].to) && epochs[k].from <= epochs[k].to
      invariant forall k :: 0 < k < i ==> epochs[k - 1].to < epochs[k].from
    {
      if !Safe(epochs[i].from) || !Safe(epochs[i].to) { return Err(MalformedEpoch); }
      if epochs[i].from > epochs[i].to { return Err(BackwardsEpoch); }
      if i > 0 && epochs[i].from <= epochs[i - 1].to { return Err(OverlappingEpochs); }
      bounds := bounds + [Bounds(epochs[i].from, epochs[i].to)];
    }
    return Ok(bounds);
  }

  lemma {:induction false} EpochsAscend(epochs: seq<Epoch>, i: nat, j: nat)
    requires EpochsInOrder(epochs) && i < j < |epochs|
    ensures epochs[i].to < epochs[j].from
  {
    if i + 1 < j { EpochsAscend(epochs, i, j - 1); }
  }

  lemma CoveringIsUnique(epochs: seq<Epoch>, H: int, i: nat)
    requires EpochsInOrder(epochs) && i < |epochs| && Covers(epochs[i], H)
    ensures CoveringEpoch(epochs, H) == Some(i)
  {
    CoveringInBounds(epochs, H);
    var j := CoveringEpoch(epochs, H).value;
    if i < j { EpochsAscend(epochs, i, j); }
    if j < i { EpochsAscend(epochs, j, i); }
  }

  method SearchEpoch(ghost epochs: seq<Epoch>, bounds: seq<Bounds>, H: int) returns (r: Option<nat>)
    requires EpochsInOrder(epochs) && Captures(bounds, epochs)
    ensures r == CoveringEpoch(epochs, H)
  {
    CoveringInBounds(epochs, H);
    var lo, hi := 0, |bounds| - 1;
    while lo <= hi
      invariant 0 <= lo <= |bounds| && -1 <= hi < |bounds|
      invariant forall i :: 0 <= i < |epochs| && !(lo <= i <= hi) ==> !Covers(epochs[i], H)
      decreases hi + 1 - lo
    {
      var mid := (lo + hi) / 2;
      if H < bounds[mid].from {
        forall i | mid < i < |epochs| ensures !Covers(epochs[i], H) { EpochsAscend(epochs, mid, i); }
        hi := mid - 1;
      } else if H > bounds[mid].to {
        forall i | 0 <= i < mid ensures !Covers(epochs[i], H) { EpochsAscend(epochs, i, mid); }
        lo := mid + 1;
      } else {
        CoveringIsUnique(epochs, H, mid);
        return Some(mid);
      }
    }
    return None;
  }

  // bookAt of the seam: the book of the covering epoch, captured per epoch beforehand.
  method SearchBook(a: Audit, bounds: seq<Bounds>, H: int) returns (r: Option<Book>)
    requires EpochsInOrder(a.epochs) && Captures(bounds, a.epochs)
    ensures r == BookAt(a, H)
  {
    CoveringInBounds(a.epochs, H);
    var ci := SearchEpoch(a.epochs, bounds, H);
    match ci
    case None => r := None;
    case Some(i) => r := FirstBook(a.epochs[i].books, a.contractId, a.poolId);
  }

  // Gapless epochs leave no height of their span uncovered.
  lemma {:induction false} GaplessCovers(epochs: seq<Epoch>, H: int)
    requires |epochs| > 0 && Gapless(epochs)
    requires epochs[0].from <= H <= epochs[|epochs| - 1].to
    ensures CoveringEpoch(epochs, H).Some?
  {
    if !Covers(epochs[0], H) {
      GaplessCovers(epochs[1..], H);
    }
  }

  // ---------- suspension intervals ----------

  datatype Interval = Interval(lo: int, hi: int)

  predicate Within(v: Interval, H: int) {
    v.lo <= H <= v.hi
  }

  predicate Apart(v: Interval, w: Interval) {
    v.hi < w.lo || w.hi < v.lo
  }

  predicate WellFormed(v: Interval) {
    Safe(v.lo) && Safe(v.hi) && v.lo <= v.hi
  }

  ghost predicate PairwiseApart(s: seq<Interval>) {
    forall x, y :: 0 <= x < y < |s| ==> Apart(s[x], s[y])
  }

  predicate AllWellFormed(s: seq<Interval>) {
    forall v :: v in s ==> WellFormed(v)
  }

  function IntervalOf(s: Suspension, base: int): Interval {
    Interval(FirstSuspended(s, base), s.endHeight)
  }

  function IntervalsOf(ss: seq<Suspension>, base: int): (r: seq<Interval>)
    ensures |r| == |ss|
    ensures forall i :: 0 <= i < |ss| ==> r[i] == IntervalOf(ss[i], base)
  {
    seq(|ss|, i requires 0 <= i < |ss| => IntervalOf(ss[i], base))
  }

  predicate SortedByLo(s: seq<Interval>) {
    forall x, y :: 0 <= x < y < |s| ==> s[x].lo <= s[y].lo
  }

  predicate ChainedApart(s: seq<Interval>) {
    forall i :: 0 < i < |s| ==> s[i - 1].hi < s[i].lo
  }

  // What the seam keeps: ascending, disjoint, well-formed.
  predicate Searchable(s: seq<Interval>) {
    AllWellFormed(s) && ChainedApart(s)
  }

  lemma {:induction false} Ascend(s: seq<Interval>, i: nat, j: nat)
    requires Searchable(s) && i < j < |s|
    ensures s[i].hi < s[j].lo
  {
    if i + 1 < j {
      Ascend(s, i, j - 1);
      assert s[j - 1] in s;
    }
  }

  lemma InsertApart(s: seq<Interval>, v: Interval, p: nat)
    requires p <= |s|
    ensures PairwiseApart(s[..p] + [v] + s[p..]) <==>
      (PairwiseApart(s) && forall q :: 0 <= q < |s| ==> Apart(s[q], v))
  {
    var t := s[..p] + [v] + s[p..];
    forall q | 0 <= q < |s| ensures t[if q < p then q else q + 1] == s[q] {}
    assert t[p] == v;
    if PairwiseApart(t) {
      forall q | 0 <= q < |s| ensures Apart(s[q], v) {
        if q < p { assert Apart(t[q], t[p]); } else { assert Apart(t[p], t[q + 1]); }
      }
      forall x, y | 0 <= x < y < |s| ensures Apart(s[x], s[y]) {
        assert Apart(t[if x < p then x else x + 1], t[if y < p then y else y + 1]);
      }
    }
  }

  lemma InsertStaysSorted(t: seq<Interval>, v: Interval, p: nat)
    requires SortedByLo(t) && p <= |t|
    requires forall x :: 0 <= x < p ==> t[x].lo <= v.lo
    requires forall x :: p <= x < |t| ==> v.lo <= t[x].lo
    ensures SortedByLo(t[..p] + [v] + t[p..])
  {
    var u := t[..p] + [v] + t[p..];
    forall x, y | 0 <= x < y < |u| ensures u[x].lo <= u[y].lo {
      if y < p { assert t[x].lo <= t[y].lo; }
      else if p < x { assert t[x - 1].lo <= t[y - 1].lo; }
      else if x < p < y { assert t[x].lo <= v.lo <= t[y - 1].lo; }
    }
  }

  method FindSlot(t: seq<Interval>, v: Interval) returns (p: nat)
    requires SortedByLo(t)
    ensures p <= |t|
    ensures forall x :: 0 <= x < p ==> t[x].lo <= v.lo
    ensures forall x :: p <= x < |t| ==> v.lo <= t[x].lo
  {
    p := |t|;
    while p > 0 && t[p - 1].lo > v.lo
      invariant p <= |t|
      invariant forall x :: p <= x < |t| ==> t[x].lo > v.lo
    {
      p := p - 1;
    }
  }

  lemma InsertedIntervals(t: seq<Interval>, v: Interval, p: nat)
    requires p <= |t|
    ensures forall w :: w in t[..p] + [v] + t[p..] <==> w == v || w in t
  {
    assert t == t[..p] + t[p..];
  }

  method InsertByLo(t: seq<Interval>, v: Interval) returns (t': seq<Interval>)
    requires SortedByLo(t)
    ensures SortedByLo(t') && |t'| == |t| + 1
    ensures forall w :: w in t' <==> w == v || w in t
    ensures PairwiseApart(t') <==> (PairwiseApart(t) && forall q :: 0 <= q < |t| ==> Apart(t[q], v))
  {
    var p := FindSlot(t, v);
    InsertStaysSorted(t, v, p);
    InsertApart(t, v, p);
    InsertedIntervals(t, v, p);
    t' := t[..p] + [v] + t[p..];
  }

  // The sort by lower bound, with what it preserves.
  method SortIntervals(s: seq<Interval>) returns (t: seq<Interval>)
    ensures SortedByLo(t) && |t| == |s|
    ensures forall v :: v in t <==> v in s
    ensures PairwiseApart(t) <==> PairwiseApart(s)
  {
    t := [];
    for i := 0 to |s|
      invariant SortedByLo(t) && |t| == i
      invariant forall v :: v in t <==> v in s[..i]
      invariant PairwiseApart(t) <==> PairwiseApart(s[..i])
    {
      ApartFromMembers(t, s[..i], s[i]);
      InsertApart(s[..i], s[i], i);
      t := InsertByLo(t, s[i]);
      assert s[..i + 1] == s[..i][..i] + [s[i]] + s[..i][i..];
    }
    assert s[..|s|] == s;
  }

  lemma ApartFromMembers(s: seq<Interval>, t: seq<Interval>, v: Interval)
    requires forall w :: w in s <==> w in t
    ensures (forall q :: 0 <= q < |s| ==> Apart(s[q], v)) <==> (forall q :: 0 <= q < |t| ==> Apart(t[q], v))
  {
    assert (forall q :: 0 <= q < |s| ==> Apart(s[q], v)) <==> (forall w :: w in s ==> Apart(w, v));
    assert (forall q :: 0 <= q < |t| ==> Apart(t[q], v)) <==> (forall w :: w in t ==> Apart(w, v));
  }

  lemma SortedChain(s: seq<Interval>)
    requires SortedByLo(s) && AllWellFormed(s)
    ensures ChainedApart(s) <==> PairwiseApart(s)
  {
    if ChainedApart(s) {
      forall x, y | 0 <= x < y < |s| ensures Apart(s[x], s[y]) { Ascend(s, x, y); }
    }
    if PairwiseApart(s) {
      forall i | 0 < i < |s| ensures s[i - 1].hi < s[i].lo {
        assert Apart(s[i - 1], s[i]) && s[i] in s;
      }
    }
  }

  ghost predicate IntervalsFit(ss: seq<Suspension>, base: int) {
    AllWellFormed(IntervalsOf(ss, base)) && PairwiseApart(IntervalsOf(ss, base))
  }

  // suspensionIntervals: accepts exactly well-formed, pairwise disjoint intervals.
  method SuspensionIntervals(ss: seq<Suspension>, base: int) returns (r: Result<seq<Interval>, Failure>)
    ensures r.Ok? <==> IntervalsFit(ss, base)
    ensures r.Ok? ==> Searchable(r.value) && forall v :: v in r.value <==> v in IntervalsOf(ss, base)
  {
    var intervals := SortIntervals(IntervalsOf(ss, base));
    for i := 0 to |intervals|
      invariant forall k :: 0 <= k < i ==> WellFormed(intervals[k])
      invariant forall k :: 0 < k < i ==> intervals[k - 1].hi < intervals[k].lo
    {
      assert intervals[i] in intervals;
      var v := intervals[i];
      if !Safe(v.lo) || !Safe(v.hi) { return Err(MalformedInterval); }
      if v.lo > v.hi { return Err(BackwardsInterval); }
      if i > 0 && v.lo <= intervals[i - 1].hi {
        assert !Apart(intervals[i - 1], v) by { assert SortedByLo(intervals); }
        return Err(OverlappingIntervals);
      }
    }
    SortedChain(intervals);
    return Ok(intervals);
  }

  // makeSuspendedAt: membership by binary search, refusing malformed interval lists.
  method SuspendedLookup(intervals: seq<Interval>, H: int) returns (r: Result<bool, Failure>)
    ensures r.Ok? <==> Searchable(intervals) && SafeHeight(H)
    ensures r.Ok? ==> (r.value <==> exists v :: v in intervals && Within(v, H))
  {
    for i := 0 to |intervals|
      invariant forall k :: 0 <= k < i ==> WellFormed(intervals[k])
      invariant forall k :: 0 < k < i ==> intervals[k - 1].hi < intervals[k].lo
    {
      assert intervals[i] in intervals;
      if !WellFormed(intervals[i]) { return Err(MalformedInterval); }
      if i > 0 && intervals[i].lo <= intervals[i - 1].hi { return Err(OverlappingIntervals); }
    }
    if !SafeHeight(H) { return Err(BadHeight); }
    var lo, hi := 0, |intervals| - 1;
    while lo <= hi
      invariant 0 <= lo <= |intervals| && -1 <= hi < |intervals|
      invariant forall i :: 0 <= i < |intervals| && !(lo <= i <= hi) ==> !Within(intervals[i], H)
      decreases hi + 1 - lo
    {
      var mid := (lo + hi) / 2;
      if H < intervals[mid].lo {
        forall i | mid < i < |intervals| ensures !Within(intervals[i], H) { Ascend(intervals, mid, i); }
        hi := mid - 1;
      } else if H > intervals[mid].hi {
        forall i | 0 <= i < mid ensures !Within(intervals[i], H) { Ascend(intervals, i, mid); }
        lo := mid + 1;
      } else {
        assert intervals[mid] in intervals && Within(intervals[mid], H);
        return Ok(true);
      }
    }
    return Ok(false);
  }

  // ---------- recognition by search ----------

  ghost predicate TerminalTyped(j: Journal) {
    j.terminalHeight.Some? ==> Safe(j.terminalHeight.value)
  }

  // The activation height the search would have to compare, if it is not a safe height.
  ghost predicate ActivationUntyped(a: Audit, H: int) {
    CoveringInBounds(a.epochs, H);
    var c := CoveringEpoch(a.epochs, H);
    c.Some? && PoolBinding(a, c.value).Some? && !SafeHeight(PoolBinding(a, c.value).value.activation)
  }

  ghost predicate UncoveredInside(a: Audit, H: int)
    requires |a.epochs| > 0
  {
    a.epochs[0].from <= H <= a.epochs[|a.epochs| - 1].to && CoveringEpoch(a.epochs, H).None?
  }

  lemma SpanHoldsCover(a: Audit, H: int)
    requires EpochsInOrder(a.epochs) && CoveringEpoch(a.epochs, H).Some?
    ensures a.epochs[0].from <= H <= a.epochs[|a.epochs| - 1].to
  {
    CoveringInBounds(a.epochs, H);
    var c, last := CoveringEpoch(a.epochs, H).value, |a.epochs| - 1;
    if 0 < c { EpochsAscend(a.epochs, 0, c); }
    if c < last { EpochsAscend(a.epochs, c, last); }
  }

  lemma LookupIsScan(j: Journal, base: int, intervals: seq<Interval>, H: int)
    requires forall v :: v in intervals <==> v in IntervalsOf(j.suspensions, base)
    ensures (exists v :: v in intervals && Within(v, H)) <==> SuspendedAt(j, base, H)
  {
    var vs := IntervalsOf(j.suspensions, base);
    if v :| v in intervals && Within(v, H) {
      var i :| 0 <= i < |vs| && vs[i] == v;
      assert j.suspensions[i] in j.suspensions && Suspends(j.suspensions[i], base, H);
    }
    if s :| s in j.suspensions && Suspends(s, base, H) {
      var i :| 0 <= i < |vs| && j.suspensions[i] == s;
      assert vs[i] in vs && Within(vs[i], H);
    }
  }

  // ---------- what recognition means, over the signed tables themselves ----------

  predicate AtPosition(a: Audit, b: Binding) {
    b.proTxHash == a.proTxHash && b.slotIndex == a.slotIndex
  }

  // Epoch ci covers H, and its first binding of the audited L1 position is binding bi, which
  // names the audited contract and pool.
  predicate Binds(a: Audit, H: int, ci: int, bi: int) {
    && 0 <= ci < |a.epochs| && a.epochs[ci].from <= H <= a.epochs[ci].to
    && var bs := a.epochs[ci].bindings;
    && 0 <= bi < |bs| && AtPosition(a, bs[bi]) && (forall k :: 0 <= k < bi ==> !AtPosition(a, bs[k]))
    && bs[bi].contractId == a.contractId && bs[bi].poolId == a.poolId
  }

  predicate Activated(a: Audit, H: int, ci: int, bi: int) {
    Binds(a, H, ci, bi) && a.epochs[ci].bindings[bi].activation <= H
  }

  ghost predicate Governed(a: Audit, H: int) {
    exists ci, bi :: Activated(a, H, ci, bi)
  }

  // The status and the binding reference of an answer at H.
  ghost predicate AnswerMeans(a: Audit, H: int, o: Outcome) {
    && |a.epochs| > 0
    && (o.status == Deferred <==> H > a.epochs[|a.epochs| - 1].to)
    && (o.status == Recognized <==>
         && Governed(a, H)
         && (forall s :: s in a.journal.suspensions ==> !Suspends(s, a.base, H))
         && (a.journal.terminalHeight.Some? ==> a.journal.terminalHeight.value >= H))
    && (forall ci: nat :: o.bindingRef == Some(ci) <==> exists bi :: Binds(a, H, ci, bi))
  }

  lemma {:induction false} FirstBindingMeaning(bs: seq<Binding>, a: Audit)
    ensures match FirstBinding(bs, a.proTxHash, a.slotIndex)
      case None => forall k :: 0 <= k < |bs| ==> !AtPosition(a, bs[k])
      case Some(b) => exists bi :: FirstAt(bs, a, bi) && bs[bi] == b
  {
    if |bs| > 0 {
      if AtPosition(a, bs[0]) {
        assert FirstAt(bs, a, 0);
      } else {
        FirstBindingMeaning(bs[1..], a);
        if FirstBinding(bs, a.proTxHash, a.slotIndex).Some? {
          var bi :| FirstAt(bs[1..], a, bi) && bs[1..][bi] == FirstBinding(bs, a.proTxHash, a.slotIndex).value;
          assert FirstAt(bs, a, bi + 1);
        }
      }
    }
  }

  predicate FirstAt(bs: seq<Binding>, a: Audit, bi: int) {
    0 <= bi < |bs| && AtPosition(a, bs[bi]) && forall k :: 0 <= k < bi ==> !AtPosition(a, bs[k])
  }

  lemma BindsUnique(a: Audit, H: int, ci: int, bi: int, cj: int, bj: int)
    requires EpochsInOrder(a.epochs) && Binds(a, H, ci, bi) && Binds(a, H, cj, bj)
    ensures ci == cj && bi == bj
  {
    if ci < cj { EpochsAscend(a.epochs, ci, cj); }
    if cj < ci { EpochsAscend(a.epochs, cj, ci); }
  }

  // The audited pool's binding in the covering epoch, found by position.
  lemma PoolBindingMeaning(a: Audit, H: int, ci: nat)
    requires EpochsInOrder(a.epochs) && ci < |a.epochs| && Covers(a.epochs[ci], H)
    ensures match PoolBinding(a, ci)
      case None => forall cj, bj :: !Binds(a, H, cj, bj)
      case Some(b) => exists bi :: Binds(a, H, ci, bi) && a.epochs[ci].bindings[bi] == b
  {
    var bs := a.epochs[ci].bindings;
    FirstBindingMeaning(bs, a);
    hide FirstBinding;
    match PoolBinding(a, ci)
    case None =>
      forall cj, bj ensures Binds(a, H, cj, bj) ==> cj == ci && FirstAt(bs, a, bj) {
        if 0 <= cj < |a.epochs| {
          if ci < cj { EpochsAscend(a.epochs, ci, cj); }
          if cj < ci { EpochsAscend(a.epochs, cj, ci); }
        }
      }
      forall i, j ensures FirstAt(bs, a, i) && FirstAt(bs, a, j) ==> i == j {}
    case Some(b) =>
      var bi :| FirstAt(bs, a, bi) && bs[bi] == b;
      assert Binds(a, H, ci, bi);
  }

  lemma RecognizeMeaning(a: Audit, H: int)
    requires EpochsInOrder(a.epochs) && Recognize(a, H).Ok?
    ensures AnswerMeans(a, H, Recognize(a, H).value)
  {
    CoveringInBounds(a.epochs, H);
    var o, c := Recognize(a, H).value, CoveringEpoch(a.epochs, H);
    if c.None? {
      hide CoveringEpoch;
      assert forall ci, bi :: !Binds(a, H, ci, bi) by { NowhereBound(a, H); }
      SpanEnds(a, H);
    } else {
      SpanHoldsCover(a, H);
      PoolBindingMeaning(a, H, c.value);
      hide CoveringEpoch, PoolBinding;
      InEpochMeaning(a, H, c.value);
    }
  }

  lemma NowhereBound(a: Audit, H: int)
    requires forall i :: 0 <= i < |a.epochs| ==> !Covers(a.epochs[i], H)
    ensures forall ci, bi :: !Binds(a, H, ci, bi)
  {
    forall ci, bi ensures !Binds(a, H, ci, bi) {
      if 0 <= ci < |a.epochs| { assert !Covers(a.epochs[ci], H); }
    }
  }

  // A height that no epoch covers and that is answered lies outside the span.
  lemma SpanEnds(a: Audit, H: int)
    requires EpochsInOrder(a.epochs)
    ensures a.epochs[0].from <= a.epochs[|a.epochs| - 1].to
  {
    if |a.epochs| > 1 { EpochsAscend(a.epochs, 0, |a.epochs| - 1); }
  }

  lemma InEpochMeaning(a: Audit, H: int, ci: nat)
    requires EpochsInOrder(a.epochs) && ci < |a.epochs| && Covers(a.epochs[ci], H)
    ensures AnswerMeans(a, H, InEpoch(a, H, ci))
  {
    PoolBindingMeaning(a, H, ci);
    hide PoolBinding;
    InsideSpan(a, H, ci);
    match PoolBinding(a, ci)
    case None =>
    case Some(b) =>
      var bi :| Binds(a, H, ci, bi) && a.epochs[ci].bindings[bi] == b;
      forall cj, bj | Binds(a, H, cj, bj) ensures cj == ci && bj == bi { BindsUnique(a, H, ci, bi, cj, bj); }
      assert Governed(a, H) <==> Activated(a, H, ci, bi);
      hide Binds, EpochsInOrder;
  }

  lemma InsideSpan(a: Audit, H: int, ci: nat)
    requires EpochsInOrder(a.epochs) && ci < |a.epochs| && Covers(a.epochs[ci], H)
    ensures H <= a.epochs[|a.epochs| - 1].to
  {
    if ci < |a.epochs| - 1 { EpochsAscend(a.epochs, ci, |a.epochs| - 1); }
  }

  // The book paid out at H is the first one of the audited contract and pool in the epoch covering H.
  lemma BookMeaning(a: Audit, H: int)
    requires EpochsInOrder(a.epochs)
    ensures match BookAt(a, H)
      case None => forall ci, k :: !BooksFirst(a, H, ci, k)
      case Some(b) => exists ci, k :: BooksFirst(a, H, ci, k) && a.epochs[ci].books[k] == b
  {
    CoveringInBounds(a.epochs, H);
    match CoveringEpoch(a.epochs, H)
    case None =>
      forall ci, k ensures !BooksFirst(a, H, ci, k) {
        if 0 <= ci < |a.epochs| { assert !Covers(a.epochs[ci], H); }
      }
    case Some(i) =>
      FirstBookMeaning(a.epochs[i].books, a);
      forall ci, k | BooksFirst(a, H, ci, k) ensures ci == i {
        if ci < i { EpochsAscend(a.epochs, ci, i); }
        if i < ci { EpochsAscend(a.epochs, i, ci); }
      }
      hide FirstBook, CoveringEpoch, EpochsInOrder;
      if BookAt(a, H).Some? {
        var k :| FirstBookAt(a.epochs[i].books, a, k) && a.epochs[i].books[k] == BookAt(a, H).value;
        assert BooksFirst(a, H, i, k);
      }
  }

  predicate OfPool(a: Audit, b: Book) {
    b.contractId == a.contractId && b.poolId == a.poolId
  }

  predicate FirstBookAt(bs: seq<Book>, a: Audit, k: int) {
    0 <= k < |bs| && OfPool(a, bs[k]) && forall j :: 0 <= j < k ==> !OfPool(a, bs[j])
  }

  predicate BooksFirst(a: Audit, H: int, ci: int, k: int) {
    0 <= ci < |a.epochs| && a.epochs[ci].from <= H <= a.epochs[ci].to && FirstBookAt(a.epochs[ci].books, a, k)
  }

  lemma {:induction false} FirstBookMeaning(bs: seq<Book>, a: Audit)
    ensures match FirstBook(bs, a.contractId, a.poolId)
      case None => forall k :: !FirstBookAt(bs, a, k)
      case Some(b) => exists k :: FirstBookAt(bs, a, k) && bs[k] == b
  {
    if |bs| > 0 {
      if OfPool(a, bs[0]) {
        assert FirstBookAt(bs, a, 0);
      } else {
        FirstBookMeaning(bs[1..], a);
        if FirstBook(bs, a.contractId, a.poolId).Some? {
          var k :| FirstBookAt(bs[1..], a, k) && bs[1..][k] == FirstBook(bs, a.contractId, a.poolId).value;
          assert FirstBookAt(bs, a, k + 1);
        } else {
          forall k ensures !FirstBookAt(bs, a, k) {
            if FirstBookAt(bs, a, k) { assert FirstBookAt(bs[1..], a, k - 1); }
          }
        }
      }
    }
  }

  method RecognizeWith(H: int, a: Audit, bounds: seq<Bounds>, intervals: seq<Interval>)
    returns (r: Result<Outcome, Failure>)
    requires EpochsInOrder(a.epochs) && Captures(bounds, a.epochs)
    requires Searchable(intervals)
    requires forall v :: v in intervals <==> v in IntervalsOf(a.journal.suspensions, a.base)
    ensures r.Ok? ==> Recognize(a, H) == r && AnswerMeans(a, H, r.value)
    ensures r.Err? <==> !SafeHeight(H) || !TerminalTyped(a.journal) || UncoveredInside(a, H) || ActivationUntyped(a, H)
  {
    if Recognize(a, H).Ok? { RecognizeMeaning(a, H); }
    hide AnswerMeans;
    if !SafeHeight(H) { return Err(BadHeight); }
    var term := a.journal.terminalHeight;
    if term.Some? && !Safe(term.value) { return Err(BadTerminal); }
    CoveringInBounds(a.epochs, H);
    if CoveringEpoch(a.epochs, H).Some? { SpanHoldsCover(a, H); }
    if H < bounds[0].from { return Ok(Outcome(Unrecognized, None)); }
    if H > bounds[|bounds| - 1].to { return Ok(Outcome(Deferred, None)); }
    var ci := SearchEpoch(a.epochs, bounds, H);
    if ci.None? { return Err(NoCoveringEpoch); }
    var found := FirstBinding(a.epochs[ci.value].bindings, a.proTxHash, a.slotIndex);
    if found.None? { return Ok(Outcome(Unrecognized, None)); }
    var bd := found.value;
    if bd.contractId != a.contractId || bd.poolId != a.poolId { return Ok(Outcome(Unrecognized, None)); }
    if !SafeHeight(bd.activation) { return Err(BadActivation); }
    if H < bd.activation { return Ok(Outcome(Unrecognized, ci)); }
    var suspended := SuspendedLookup(intervals, H);
    LookupIsScan(a.journal, a.base, intervals, H);
    if suspended.value { return Ok(Outcome(Unrecognized, ci)); }
    if term.Some? && term.value < H { return Ok(Outcome(Unrecognized, ci)); }
    return Ok(Outcome(Recognized, ci));
  }

  ghost predicate SeamAccepts(a: Audit, H: int) {
    && SafeHeight(H) && EpochsInOrder(a.epochs) && IntervalsFit(a.journal.suspensions, a.base)
    && TerminalTyped(a.journal) && !UncoveredInside(a, H) && !ActivationUntyped(a, H)
  }

  // recognizeAt, the exported form: whenever it answers, it answers as the linear scan.
  method RecognizeAt(H: int, a: Audit) returns (r: Result<Outcome, Failure>)
    ensures r.Ok? <==> SeamAccepts(a, H)
    ensures r.Ok? ==> Recognize(a, H) == r && AnswerMeans(a, H, r.value)
  {
    if !SafeHeight(H) { return Err(BadHeight); }
    var bounds := AssertEpochOrder(a.epochs);
    if bounds.Err? { return Err(bounds.error); }
    var intervals := SuspensionIntervals(a.journal.suspensions, a.base);
    if intervals.Err? { return Err(intervals.error); }
    r := RecognizeWith(H, a, bounds.value, intervals.value);
  }

  // ---------- over a reconstructed journal ----------

  // The walk ends on the first height of a ban, so that ban withholds no height yet.
  predicate EndsOnFreshBan(states: seq<NodeState>) {
    |states| > 0 && RunStart(states, |states| - 1)
  }

  lemma RunInterval(s: Suspension, base: int, states: seq<NodeState>)
    requires NamesRun(s.start, base, states) && Safe(base + 1) && Safe(base + |states|)
    requires RecordsEndedRun(s, base, states) || RecordsLastRun(s, base, states)
    ensures IntervalOf(s, base).lo == base + StartIndex(s.start, base) + 1
    ensures WellFormed(IntervalOf(s, base)) <==>
      !(s.endReason == RangeEnd && StartIndex(s.start, base) == |states| - 1)
  {
  }

  lemma RunIntervalsApart(base: int, states: seq<NodeState>, ss: seq<Suspension>)
    requires Ascending(ss, base) && Safe(base + 1) && Safe(base + |states|)
    requires forall x :: 0 <= x < |ss| ==> RecordsEndedRun(ss[x], base, states) || RecordsLastRun(ss[x], base, states)
    ensures PairwiseApart(IntervalsOf(ss, base))
  {
    forall x, y | 0 <= x < y < |ss| ensures Apart(IntervalOf(ss[x], base), IntervalOf(ss[y], base)) {
      assert ss[x].endHeight <= base + StartIndex(ss[y].start, base);
      RunInterval(ss[y], base, states);
    }
  }

  lemma RunIntervalsWellFormed(base: int, states: seq<NodeState>, ss: seq<Suspension>)
    requires Safe(base + 1) && Safe(base + |states|) && !EndsOnFreshBan(states)
    requires forall x :: 0 <= x < |ss| ==> RecordsEndedRun(ss[x], base, states) || RecordsLastRun(ss[x], base, states)
    ensures AllWellFormed(IntervalsOf(ss, base))
  {
    var vs := IntervalsOf(ss, base);
    forall v | v in vs ensures WellFormed(v) {
      var x :| 0 <= x < |vs| && vs[x] == v;
      RunInterval(ss[x], base, states);
    }
  }

  // The seam refuses a reconstructed journal exactly when the walk ends on a fresh ban.
  lemma FreshBanIsRefused(base: int, states: seq<NodeState>)
    requires |states| > 0 && Rebuild(base, states).Ok?
    requires Safe(base + 1) && Safe(base + |states|)
    ensures IntervalsFit(Rebuild(base, states).value.suspensions, base) <==> !EndsOnFreshBan(states)
  {
    var ss := Rebuild(base, states).value.suspensions;
    SuspensionsAreTheRuns(base, states);
    if EndsOnFreshBan(states) {
      FreshBanInterval(base, states, ss);
    } else {
      RunIntervalsApart(base, states, ss);
      RunIntervalsWellFormed(base, states, ss);
    }
  }

  lemma FreshBanInterval(base: int, states: seq<NodeState>, ss: seq<Suspension>)
    requires EndsOnFreshBan(states)
    requires exists x :: 0 <= x < |ss| && StartIndex(ss[x].start, base) == |states| - 1
    requires forall x :: 0 <= x < |ss| ==> RecordsEndedRun(ss[x], base, states) || RecordsLastRun(ss[x], base, states)
    ensures !AllWellFormed(IntervalsOf(ss, base))
  {
    var x :| 0 <= x < |ss| && StartIndex(ss[x].start, base) == |states| - 1;
    assert IntervalsOf(ss, base)[x] in IntervalsOf(ss, base);
  }

  // A concrete accepted walk the seam cannot take: valid at the base, banned one height later.
  lemma FreshBanExample()
    ensures Rebuild(999, [PresentValid, PresentInvalid]).Ok?
    ensures !IntervalsFit(Rebuild(999, [PresentValid, PresentInvalid]).value.suspensions, 999)
  {
    var states := [PresentValid, PresentInvalid];
    assert !ReturnsAfterRemoval(states) && EndsOnFreshBan(states) && Safe(1000) && Safe(1001);
    hide *;
    AcceptedIffNoReturn(999, states);
    FreshBanIsRefused(999, states);
  }

  lemma RebuiltTerminalTyped(base: int, states: seq<NodeState>, j: Journal)
    requires |states| > 0 && Rebuild(base, states) == Ok(j)
    requires Safe(base) && Safe(base + |states|)
    ensures TerminalTyped(j)
  {
    ScanIsWalkScan(base, states);
    TerminalScan(base, states);
    hide WalkScan, Transitions, ScanAll;
  }

  // Over gapless ordered epochs and a reconstructed journal, the seam answers at every
  // height, as the checker does, unless the walk ends on a fresh ban or the covering
  // binding's activation height is outside the safe range.
  lemma RecognitionRefinement(a: Audit, states: seq<NodeState>, H: int)
    requires |states| > 0 && Rebuild(a.base, states) == Ok(a.journal)
    requires Safe(a.base) && Safe(a.base + |states|) && SafeHeight(H)
    requires EpochsInOrder(a.epochs) && Gapless(a.epochs)
    ensures SeamAccepts(a, H) <==> !EndsOnFreshBan(states) && !ActivationUntyped(a, H)
    ensures Recognize(a, H).Ok?
  {
    FreshBanIsRefused(a.base, states);
    RebuiltTerminalTyped(a.base, states, a.journal);
    hide Rebuild, IntervalsFit, EndsOnFreshBan, TerminalTyped;
    if a.epochs[0].from <= H <= a.epochs[|a.epochs| - 1].to { GaplessCovers(a.epochs, H); }
  }

  // A recognized height is one whose node was walked as present and valid one height
  // earlier, or whose node has not been present yet.
  lemma RecognizedMeansUnimpeded(a: Audit, states: seq<NodeState>, H: int)
    requires |states| > 0 && Rebuild(a.base, states) == Ok(a.journal)
    requires a.base + 1 <= H <= a.base + |states| - 1 && |a.epochs| > 0
    requires Recognize(a, H).Ok? && Recognize(a, H).value.status == Recognized
    ensures states[H - 1 - a.base] == PresentValid
      || (states[H - 1 - a.base] == Absent && !PresentBefore(states, H - 1 - a.base))
  {
    SuspendedIffBanned(a.base, states, H);
    TerminalIffRemoved(a.base, states, H);
  }

  // The epoch, binding and activation rules alone, with no lifecycle.
  function RecognizeByBinding(a: Audit, H: int): Result<Outcome, Failure>
    requires |a.epochs| > 0
  {
    Recognize(a.(journal := Journal(None, a.journal.observedThrough, [], [])), H)
  }

  // Where the node is present and valid, the lifecycle never costs a height its recognition.
  lemma ValidNodeRecognizedByBinding(a: Audit, states: seq<NodeState>, H: int)
    requires |states| > 0 && Rebuild(a.base, states) == Ok(a.journal)
    requires a.base + 1 <= H <= a.base + |states| - 1 && |a.epochs| > 0
    requires states[H - 1 - a.base] == PresentValid
    ensures Recognize(a, H) == RecognizeByBinding(a, H)
  {
    SuspendedIffBanned(a.base, states, H);
    TerminalIffRemoved(a.base, states, H);
    var bare := a.(journal := Journal(None, a.journal.observedThrough, [], []));
    assert !SuspendedAt(bare.journal, a.base, H);
    CoveringInBounds(a.epochs, H);
    var c := CoveringEpoch(a.epochs, H);
    if c.Some? { assert PoolBinding(bare, c.value) == PoolBinding(a, c.value); }
  }

  // So such a height is recognized exactly when some epoch covers it, binds the audited
  // position to the audited pool, and has activated that binding.
  lemma ValidNodeRecognizedIff(a: Audit, states: seq<NodeState>, H: int)
    requires |states| > 0 && Rebuild(a.base, states) == Ok(a.journal) && EpochsInOrder(a.epochs)
    requires a.base + 1 <= H <= a.base + |states| - 1 && states[H - 1 - a.base] == PresentValid
    ensures Recognize(a, H).Ok? && Recognize(a, H).value.status == Recognized <==> Governed(a, H)
  {
    SuspendedIffBanned(a.base, states, H);
    TerminalIffRemoved(a.base, states, H);
    hide Rebuild, Suspends;
    if Recognize(a, H).Ok? {
      RecognizeMeaning(a, H);
      hide Recognize, Governed;
    } else {
      CoveringInBounds(a.epochs, H);
      NowhereBound(a, H);
    }
  }
}
