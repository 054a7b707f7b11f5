/**
 The reward decision surface: entitlement, conservation and slot fanout.

 `CheckerAccepts` is the executable specification's verdict on one derived record
 (check_vectors.py).  `DeriveReward` and `BuildRewards` are the seam's derivation
 (auditSeam.cjs); the record they produce is the only one the checker accepts.
 */
module Rewards {
  import opened Outcomes
  import opened Lifecycle
  import E = Eligibility
  import R = Recognition
  import C = Coinbase
  import O = Ownership
  import L = LargestRemainder

  datatype Schedule = PoolScheduled(required: seq<C.Expected>) | NotPool | NoSchedule

  datatype CoinbaseRead = Outputs(outputs: seq<C.Output>) | NoCoinbase

  datatype CoreRow = CoreRow(height: int, schedule: Schedule, coinbase: CoinbaseRead)

  datatype Input = MissingCoinbase | MissingEligibilityBase | MissingSchedule

  datatype Classification = Owed | NotPayee | Excluded | Anomaly

  datatype Reason = NoReason | ByTermination | BeforeAppearance | BySuspension

  datatype AnomalyCode = ScheduleListDisagreement | CoinbaseMismatch

  datatype Evidence = Evidence(required: seq<C.Expected>, matched: seq<C.Output>, unexplained: seq<C.Output>)

  datatype Entitlement =
    | Unfinalized
    | Unknown(missing: seq<Input>)
    | Classified(cls: Classification, reason: Reason, verdict: E.Verdict, evidence: Evidence,
                 anomaly: Option<AnomalyCode>)

  datatype Conservation = Unavailable | NotApplicable | Calculated(gross: int, allocationBase: int)

  datatype NoFanoutReason = IsUnfinalized | IsUnknown | NotRecognized(status: R.Status) | ByClass(cls: Classification)

  datatype SlotRecord = SlotRecord(slotIndex: int, allocation: O.Allocation, share: L.Share, duffs: int)

  datatype Fanout = NoFanout(reason: NoFanoutReason) | Slots(records: seq<SlotRecord>)

  datatype Record = Record(
    height: int, recognition: R.Outcome, entitlement: Entitlement,
    conservation: Conservation, fanout: Fanout)

  // The retained evidence an envelope's rewards are derived from.
  datatype Envelope = Envelope(
    audit: R.Audit, evidence: E.Evidence,
    ledger: seq<O.Row>, chains: seq<seq<O.Hop>>, operator: string)

  datatype Failure =
    | Recognizing(r: R.Failure) | Owning(o: O.Failure) | Allocating(l: L.Failure)
    | Judging(e: E.Failure) | BadHeight | BadChainLock | NoBook | RepeatedIndex

  // ---------- entitlement ----------

  function Missing(row: CoreRow): seq<Input> {
    (if row.coinbase.NoCoinbase? then [MissingCoinbase] else []) +
    (if row.schedule.NoSchedule? then [MissingSchedule] else [])
  }

  const NO_EVIDENCE := Evidence([], [], [])

  function Classify(chainLock: int, verdict: E.Verdict, row: CoreRow): Entitlement {
    if row.height > chainLock then Unfinalized
    else if Missing(row) != [] then Unknown(Missing(row))
    else if row.schedule.NotPool? && verdict.state == E.AbsentUnknown then Unknown([MissingEligibilityBase])
    else if row.schedule.PoolScheduled? then
      var required, outputs := row.schedule.required, row.coinbase.outputs;
      var evidence := Evidence(required, C.Matched(required, outputs), C.Unexplained(required, outputs));
      if verdict.state != E.Valid then Classified(Anomaly, NoReason, verdict, evidence, Some(ScheduleListDisagreement))
      else if |evidence.matched| != |required| then
        Classified(Anomaly, NoReason, verdict, evidence, Some(CoinbaseMismatch))
      else Classified(Owed, NoReason, verdict, evidence, None)
    else
      match verdict.state
      case AbsentTerminal => Classified(Excluded, ByTermination, verdict, NO_EVIDENCE, None)
      case AbsentPreAppearance => Classified(Excluded, BeforeAppearance, verdict, NO_EVIDENCE, None)
      case Invalid => Classified(Excluded, BySuspension, verdict, NO_EVIDENCE, None)
      case _ => Classified(NotPayee, NoReason, verdict, NO_EVIDENCE, None)
  }

  predicate IsOwed(e: Entitlement) {
    e.Classified? && e.cls == Owed
  }

  // ---------- the checker's verdict on a record ----------

  function ChainOf(env: Envelope, si: nat): seq<O.Hop> {
    if si < |env.chains| then env.chains[si] else []
  }

  function Allocated(records: seq<SlotRecord>): (r: seq<int>)
    ensures |r| == |records|
    ensures forall i :: 0 <= i < |records| ==> r[i] == records[i].duffs
  {
    seq(|records|, i requires 0 <= i < |records| => records[i].duffs)
  }

  ghost predicate SlotsAccepted(env: Envelope, H: int, gross: int, records: seq<SlotRecord>) {
    var book := R.BookAt(env.audit, H);
    && book.Some?
    && |records| == |book.value.shares|
    && (forall i :: 0 <= i < |records| ==>
         && records[i].slotIndex == i
         && records[i].share == book.value.shares[i]
         && records[i].allocation == O.Resolve(ChainOf(env, i), env.ledger, env.operator, H))
    && L.PartitionOfOne(book.value.shares)
    && L.IsLargestRemainder(gross, book.value.shares, Allocated(records))
  }

  ghost predicate CheckerAccepts(env: Envelope, row: CoreRow, rec: Record)
    requires |env.audit.epochs| > 0
  {
    var H := row.height;
    && rec.height == H
    && R.Recognize(env.audit, H) == Ok(rec.recognition)
    && E.EligibilityAt(env.evidence, env.audit.journal, H).Ok?
    && rec.entitlement ==
         Classify(env.evidence.chainLock, E.EligibilityAt(env.evidence, env.audit.journal, H).value, row)
    && match rec.entitlement
       case Unfinalized => rec.conservation == Unavailable && rec.fanout == NoFanout(IsUnfinalized)
       case Unknown(_) => rec.conservation == Unavailable && rec.fanout == NoFanout(IsUnknown)
       case Classified(cls, _, _, evidence, _) =>
         if cls == Owed && rec.recognition.status != R.Recognized then
           rec.conservation == NotApplicable && rec.fanout == NoFanout(NotRecognized(rec.recognition.status))
         else if cls == Owed then
           var gross := C.Amounts(C.Classes(evidence.matched));
           && rec.conservation == Calculated(gross, gross)
           && rec.fanout.Slots?
           && SlotsAccepted(env, H, gross, rec.fanout.records)
         else
           && rec.conservation == (if cls == Anomaly then Unavailable else NotApplicable)
           && rec.fanout == NoFanout(ByClass(cls))
  }

  // ---------- the seam's derivation ----------

  ghost predicate Prepared(env: Envelope, bounds: seq<R.Bounds>, intervals: seq<R.Interval>, anchors: seq<int>) {
    && R.EpochsInOrder(env.audit.epochs) && R.Captures(bounds, env.audit.epochs)
    && R.Searchable(intervals)
    && (forall v :: v in intervals <==> v in R.IntervalsOf(env.audit.journal.suspensions, env.audit.base))
    && |anchors| == |env.ledger| && (forall i :: 0 <= i < |env.ledger| ==> anchors[i] == env.ledger[i].anchor)
    && O.AnchorsNonDecreasing(env.ledger)
    && (forall si :: 0 <= si < |env.chains| ==> O.HopAnchorsNonDecreasing(env.chains[si]))
  }

  // The checker's order rule on a row's retained coinbase.
  predicate OutputsOrdered(row: CoreRow) {
    row.coinbase.Outputs? ==> C.Ordered(row.coinbase.outputs)
  }

  // The row with its coinbase in index order, as the deriver reads it and the checker requires it.
  function SortedRow(row: CoreRow): CoreRow {
    if row.coinbase.Outputs? then row.(coinbase := Outputs(C.IndexOrder(row.coinbase.outputs))) else row
  }

  lemma SortedRowOfOrdered(row: CoreRow)
    requires OutputsOrdered(row)
    ensures SortedRow(row) == row
  {
    if row.coinbase.Outputs? { C.IndexOrderOfOrdered(row.coinbase.outputs); }
  }

  // A finalized scheduled row whose coinbase repeats an output index.
  predicate RepeatsIndex(chainLock: int, row: CoreRow) {
    && row.height <= chainLock && row.schedule.PoolScheduled?
    && row.coinbase.Outputs? && !C.NoTwice(row.coinbase.outputs)
  }

  method DeriveEntitlement(chainLock: int, verdict: E.Verdict, row: CoreRow) returns (r: Result<Entitlement, Failure>)
    ensures r.Ok? <==> SafeHeight(row.height) && Safe(chainLock) && !RepeatsIndex(chainLock, row)
    ensures r.Ok? ==> r.value == Classify(chainLock, verdict, SortedRow(row))
    ensures r.Ok? ==> EntitlementSays(chainLock, verdict, SortedRow(row), r.value)
  {
    ClassifyMeaning(chainLock, verdict, SortedRow(row));
    hide EntitlementSays;
    if !SafeHeight(row.height) { return Err(BadHeight); }
    if !Safe(chainLock) { return Err(BadChainLock); }
    if row.height > chainLock { return Ok(Unfinalized); }
    var missing: seq<Input> := [];
    if row.coinbase.NoCoinbase? { missing := missing + [MissingCoinbase]; }
    if row.schedule.NoSchedule? { missing := missing + [MissingSchedule]; }
    assert missing == Missing(row);
    if |missing| > 0 { return Ok(Unknown(missing)); }
    if row.schedule.NotPool? {
      return Ok(match verdict.state
        case AbsentUnknown => Unknown([MissingEligibilityBase])
        case AbsentTerminal => Classified(Excluded, ByTermination, verdict, NO_EVIDENCE, None)
        case AbsentPreAppearance => Classified(Excluded, BeforeAppearance, verdict, NO_EVIDENCE, None)
        case Invalid => Classified(Excluded, BySuspension, verdict, NO_EVIDENCE, None)
        case Valid => Classified(NotPayee, NoReason, verdict, NO_EVIDENCE, None));
    }
    var required, outputs := row.schedule.required, row.coinbase.outputs;
    var parts := C.MatchOwnerVector(required, outputs);
    if parts.Err? { return Err(RepeatedIndex); }
    var matched := parts.value.matched;
    var evidence := Evidence(required, matched, parts.value.unexplained);
    if verdict.state != E.Valid {
      return Ok(Classified(Anomaly, NoReason, verdict, evidence, Some(ScheduleListDisagreement)));
    }
    if |matched| != |required| {
      return Ok(Classified(Anomaly, NoReason, verdict, evidence, Some(CoinbaseMismatch)));
    }
    return Ok(Classified(Owed, NoReason, verdict, evidence, None));
  }

  method FanOut(env: Envelope, anchors: seq<int>, H: int, gross: int, book: R.Book)
    returns (r: Result<seq<SlotRecord>, Failure>)
    requires |anchors| == |env.ledger| && forall i :: 0 <= i < |env.ledger| ==> anchors[i] == env.ledger[i].anchor
    requires O.AnchorsNonDecreasing(env.ledger)
    requires forall si :: 0 <= si < |env.chains| ==> O.HopAnchorsNonDecreasing(env.chains[si])
    requires R.BookAt(env.audit, H) == Some(book)
    ensures r.Ok? <==> L.PartitionOfOne(book.shares) && gross >= 0
    ensures r.Ok? ==> SlotsAccepted(env, H, gross, r.value)
  {
    var alloc := L.Allocate(gross, book.shares);
    if alloc.Err? { return Err(Allocating(alloc.error)); }
    var records: seq<SlotRecord> := [];
    for si := 0 to |book.shares|
      invariant |records| == si
      invariant forall i :: 0 <= i < si ==>
        records[i] == SlotRecord(i, O.Resolve(ChainOf(env, i), env.ledger, env.operator, H),
                                 book.shares[i], alloc.value[i])
    {
      var a := O.ResolveAllocation(ChainOf(env, si), env.ledger, anchors, env.operator, H);
      records := records + [SlotRecord(si, a, book.shares[si], alloc.value[si])];
    }
    assert Allocated(records) == alloc.value;
    return Ok(records);
  }

  // What stops the seam at a height, beyond what the checker would also refuse.
  ghost predicate Derivable(env: Envelope, row: CoreRow)
    requires |env.audit.epochs| > 0
  {
    var a, H := env.audit, row.height;
    && SafeHeight(H) && R.TerminalTyped(a.journal) && !R.UncoveredInside(a, H) && !R.ActivationUntyped(a, H)
    && E.EligibilityAt(env.evidence, a.journal, H).Ok? && E.HeightTyped(env.evidence, a.journal, H)
    && Safe(env.evidence.chainLock)
    && (PaysSlots(env, row) ==> R.BookAt(a, H).Some? && L.PartitionOfOne(R.BookAt(a, H).value.shares))
  }

  // The height is owed by Core and recognized for the audited pool.
  predicate PaysSlots(env: Envelope, row: CoreRow)
    requires |env.audit.epochs| > 0
  {
    var rec := R.Recognize(env.audit, row.height);
    var v := E.EligibilityAt(env.evidence, env.audit.journal, row.height);
    && rec.Ok? && rec.value.status == R.Recognized
    && v.Ok? && IsOwed(Classify(env.evidence.chainLock, v.value, row))
  }

  // What stops the seam at a row: the above, or a repeated output index in what it must match.
  ghost predicate RowBuildable(env: Envelope, row: CoreRow)
    requires |env.audit.epochs| > 0
  {
    Derivable(env, row) && !RepeatsIndex(env.evidence.chainLock, row)
  }

  // Sorting a row's coinbase changes neither what it pays nor whether it can be derived.
  lemma SortedRowSame(env: Envelope, row: CoreRow)
    requires |env.audit.epochs| > 0
    ensures PaysSlots(env, SortedRow(row)) <==> PaysSlots(env, row)
    ensures Derivable(env, SortedRow(row)) <==> Derivable(env, row)
    ensures RequiredAt(env, SortedRow(row)) == RequiredAt(env, row)
  {
    if row.coinbase.Outputs? && row.schedule.PoolScheduled? {
      C.AllMatchedInAnyOrder(row.schedule.required, row.coinbase.outputs);
    }
    hide C.Matched, C.Unexplained, C.IndexOrder, R.Recognize, E.EligibilityAt;
  }

  // The checker accepts at most one record per row.
  lemma AcceptedUnique(env: Envelope, row: CoreRow, a: Record, b: Record)
    requires |env.audit.epochs| > 0 && CheckerAccepts(env, row, a) && CheckerAccepts(env, row, b)
    ensures a == b
  {
    if a.fanout.Slots? {
      SlotsUnique(env, row.height, a.conservation.gross, a.fanout.records, b.fanout.records);
    }
  }

  lemma SlotsUnique(env: Envelope, H: int, gross: int, a: seq<SlotRecord>, b: seq<SlotRecord>)
    requires SlotsAccepted(env, H, gross, a) && SlotsAccepted(env, H, gross, b)
    ensures a == b
  {
    L.AllocationUnique(gross, R.BookAt(env.audit, H).value.shares, Allocated(a), Allocated(b));
    forall i | 0 <= i < |a| ensures a[i] == b[i] {
      assert Allocated(a)[i] == a[i].duffs && Allocated(b)[i] == b[i].duffs;
    }
  }

  lemma AcceptedOnly(env: Envelope, row: CoreRow, a: Record)
    requires |env.audit.epochs| > 0 && CheckerAccepts(env, row, a)
    ensures forall rec :: CheckerAccepts(env, row, rec) <==> rec == a
  {
    forall rec | CheckerAccepts(env, row, rec) ensures rec == a { AcceptedUnique(env, row, rec, a); }
  }

  // The one record derived is the one record the checker accepts for the row in index order.
  method DeriveReward(env: Envelope, row: CoreRow, bounds: seq<R.Bounds>, intervals: seq<R.Interval>, anchors: seq<int>)
    returns (r: Result<Record, Failure>)
    requires Prepared(env, bounds, intervals, anchors)
    ensures r.Ok? <==> RowBuildable(env, row)
    ensures r.Ok? ==> forall rec :: CheckerAccepts(env, SortedRow(row), rec) <==> rec == r.value
    ensures r.Ok? && OutputsOrdered(row) ==> CheckerAccepts(env, row, r.value)
  {
    if OutputsOrdered(row) { SortedRowOfOrdered(row); }
    var H := row.height;
    SortedRowSame(env, row);
    var recog := R.RecognizeWith(H, env.audit, bounds, intervals);
    if recog.Err? { return Err(Recognizing(recog.error)); }
    var recognition := recog.value;
    var verdict := E.DeriveEligibility(env.evidence, env.audit.journal, H);
    if verdict.Err? { return Err(Judging(verdict.error)); }
    var entitled := DeriveEntitlement(env.evidence.chainLock, verdict.value, row);
    if entitled.Err? { return Err(entitled.error); }
    var entitlement := entitled.value;

    var conservation, fanout;
    if !entitlement.Classified? {
      conservation := Unavailable;
      fanout := NoFanout(if entitlement.Unfinalized? then IsUnfinalized else IsUnknown);
    } else if entitlement.cls == Owed && recognition.status != R.Recognized {
      conservation := NotApplicable;
      fanout := NoFanout(NotRecognized(recognition.status));
    } else if entitlement.cls == Owed {
      var gross := C.Amounts(C.Classes(entitlement.evidence.matched));
      var book := R.SearchBook(env.audit, bounds, H);
      if book.None? { return Err(NoBook); }
      var records := FanOut(env, anchors, H, gross, book.value);
      if records.Err? { return Err(records.error); }
      conservation := Calculated(gross, gross);
      fanout := Slots(records.value);
    } else {
      conservation := if entitlement.cls == Anomaly then Unavailable else NotApplicable;
      fanout := NoFanout(ByClass(entitlement.cls));
    }
    AcceptedOnly(env, SortedRow(row), Record(H, recognition, entitlement, conservation, fanout));
    return Ok(Record(H, recognition, entitlement, conservation, fanout));
  }

  // ---------- totals over an audit range ----------

  function RequiredAt(env: Envelope, row: CoreRow): int
    requires |env.audit.epochs| > 0
  {
    if PaysSlots(env, row) then C.Amounts(row.schedule.required) else 0
  }

  function TotalRequired(env: Envelope, rows: seq<CoreRow>): int
    requires |env.audit.epochs| > 0
  {
    if |rows| == 0 then 0
    else TotalRequired(env, rows[..|rows| - 1]) + RequiredAt(env, rows[|rows| - 1])
  }

  function AllocatedIn(rec: Record): int {
    if rec.fanout.Slots? then L.Sum(Allocated(rec.fanout.records)) else 0
  }

  function TotalAllocated(recs: seq<Record>): int {
    if |recs| == 0 then 0 else TotalAllocated(recs[..|recs| - 1]) + AllocatedIn(recs[|recs| - 1])
  }

  // An accepted record hands out exactly what Core was scheduled to pay the pool.
  lemma AcceptedConserves(env: Envelope, row: CoreRow, rec: Record)
    requires |env.audit.epochs| > 0 && CheckerAccepts(env, row, rec)
    ensures AllocatedIn(rec) == RequiredAt(env, row)
  {
    if PaysSlots(env, row) {
      C.MatchedPaysRequired(row.schedule.required, row.coinbase.outputs);
    }
  }

  lemma {:induction false} RangeConserves(env: Envelope, rows: seq<CoreRow>, recs: seq<Record>)
    requires |env.audit.epochs| > 0 && |rows| == |recs|
    requires forall i :: 0 <= i < |rows| ==> CheckerAccepts(env, rows[i], recs[i])
    ensures TotalAllocated(recs) == TotalRequired(env, rows)
  {
    if |rows| > 0 {
      var k := |rows| - 1;
      RangeConserves(env, rows[..k], recs[..k]);
      AcceptedConserves(env, rows[k], recs[k]);
    }
  }

  method AssertHopAnchors(chains: seq<seq<O.Hop>>) returns (ok: bool)
    ensures ok <==> forall si :: 0 <= si < |chains| ==> HopAnchorsTyped(chains[si])
  {
    for si := 0 to |chains|
      invariant forall s :: 0 <= s < si ==> HopAnchorsTyped(chains[s])
    {
      var c := chains[si];
      for i := 0 to |c|
        invariant forall j, k :: 0 <= j < k < i ==> c[j].anchor <= c[k].anchor
        invariant forall j :: 0 <= j < i ==> Safe(c[j].anchor)
      {
        if !Safe(c[i].anchor) { return false; }
        if i > 0 && c[i].anchor < c[i - 1].anchor { return false; }
      }
    }
    return true;
  }

  predicate HopAnchorsTyped(c: seq<O.Hop>) {
    O.HopAnchorsNonDecreasing(c) && forall i :: 0 <= i < |c| ==> Safe(c[i].anchor)
  }

  lemma TotalsGrow(env: Envelope, rows: seq<CoreRow>, i: nat, recs: seq<Record>, rec: Record)
    requires |env.audit.epochs| > 0 && i < |rows|
    requires CheckerAccepts(env, SortedRow(rows[i]), rec) && TotalAllocated(recs) == TotalRequired(env, rows[..i])
    ensures TotalAllocated(recs + [rec]) == TotalRequired(env, rows[..i + 1])
  {
    AcceptedConserves(env, SortedRow(rows[i]), rec);
    SortedRowSame(env, rows[i]);
    assert rows[..i + 1][..i] == rows[..i] && (recs + [rec])[..|recs|] == recs;
    hide CheckerAccepts;
  }

  datatype Preparation = Preparation(bounds: seq<R.Bounds>, intervals: seq<R.Interval>, anchors: seq<int>)

  method Prepare(env: Envelope) returns (r: Result<Preparation, Failure>)
    ensures r.Ok? <==> Preparable(env)
    ensures r.Ok? ==> Prepared(env, r.value.bounds, r.value.intervals, r.value.anchors)
  {
    var bounds := R.AssertEpochOrder(env.audit.epochs);
    if bounds.Err? { return Err(Recognizing(bounds.error)); }
    var intervals := R.SuspensionIntervals(env.audit.journal.suspensions, env.audit.base);
    if intervals.Err? { return Err(Recognizing(intervals.error)); }
    var hopsOk := AssertHopAnchors(env.chains);
    if !hopsOk { return Err(Owning(O.AnchorsRegress)); }
    var anchors := O.PrepareClosingIndex(env.ledger);
    if anchors.Err? { return Err(Owning(anchors.error)); }
    return Ok(Preparation(bounds.value, intervals.value, anchors.value));
  }

  // The reward half of buildEnvelope: prepare once, then derive one record per Core row.
  method BuildRewards(env: Envelope, rows: seq<CoreRow>) returns (r: Result<seq<Record>, Failure>)
    ensures r.Ok? <==> Buildable(env, rows)
    ensures r.Ok? ==>
      && |r.value| == |rows|
      && (forall i :: 0 <= i < |rows| ==> CheckerAccepts(env, SortedRow(rows[i]), r.value[i]))
      && TotalAllocated(r.value) == TotalRequired(env, rows)
    ensures r.Ok? && AllOrdered(rows) ==> forall i :: 0 <= i < |rows| ==> CheckerAccepts(env, rows[i], r.value[i])
  {
    hide CheckerAccepts, SortedRow, RowBuildable, Preparable, Prepared;
    var prepared := Prepare(env);
    if prepared.Err? { return Err(prepared.error); }
    var p := prepared.value;
    var recs: seq<Record> := [];
    for i := 0 to |rows|
      invariant |recs| == i
      invariant forall k :: 0 <= k < i ==> RowBuildable(env, rows[k])
      invariant forall k :: 0 <= k < i ==> CheckerAccepts(env, SortedRow(rows[k]), recs[k])
      invariant TotalAllocated(recs) == TotalRequired(env, rows[..i])
    {
      hide *;
      var rec := DeriveReward(env, rows[i], p.bounds, p.intervals, p.anchors);
      if rec.Err? { return Err(rec.error); }
      assert CheckerAccepts(env, SortedRow(rows[i]), rec.value);
      TotalsGrow(env, rows, i, recs, rec.value);
      recs := recs + [rec.value];
    }
    assert rows[..|rows|] == rows;
    if AllOrdered(rows) {
      forall i | 0 <= i < |rows| ensures SortedRow(rows[i]) == rows[i] { SortedRowOfOrdered(rows[i]); }
    }
    return Ok(recs);
  }

  predicate AllOrdered(rows: seq<CoreRow>) {
    forall i :: 0 <= i < |rows| ==> OutputsOrdered(rows[i])
  }

  // What the seam prepares is typed and in order.
  ghost predicate Preparable(env: Envelope)
    ensures Preparable(env) ==> |env.audit.epochs| > 0
  {
    && R.EpochsInOrder(env.audit.epochs)
    && R.IntervalsFit(env.audit.journal.suspensions, env.audit.base)
    && (forall si :: 0 <= si < |env.chains| ==> HopAnchorsTyped(env.chains[si]))
    && (forall i :: 0 <= i < |env.ledger| ==> Safe(env.ledger[i].anchor))
    && O.AnchorsNonDecreasing(env.ledger)
  }

  ghost predicate Buildable(env: Envelope, rows: seq<CoreRow>) {
    && Preparable(env)
    && forall i :: 0 <= i < |rows| ==> RowBuildable(env, rows[i])
  }

  // ---------- what the checker accepts, the seam can derive ----------

  // The envelope checks that bear on rewards.
  ghost predicate EnvelopeChecked(env: Envelope, rows: seq<CoreRow>) {
    var a, ev := env.audit, env.evidence;
    && E.RangesAccepted(ev) && a.base == ev.base.height
    && Rebuild(a.base, E.States(ev)) == Ok(a.journal)
    && R.EpochsInOrder(a.epochs) && R.Gapless(a.epochs) && AllOrdered(rows)
    && (forall i :: 0 <= i < |rows| ==> ev.fromHeight <= rows[i].height <= ev.toHeight)
    && (forall ci :: 0 <= ci < |a.epochs| ==> EpochBooked(a, ci))
  }

  // A binding of the audited pool has a book in its epoch, and the book's shares are
  // the governing equal ones.
  ghost predicate EpochBooked(a: R.Audit, ci: nat)
    requires ci < |a.epochs|
  {
    var book := R.FirstBook(a.epochs[ci].books, a.contractId, a.poolId);
    && (R.PoolBinding(a, ci).Some? ==> book.Some?)
    && (book.Some? ==> book.value.slotCount > 0 && book.value.shares == L.EqualShares(book.value.slotCount))
  }

  // Heights and anchors inside the safe integer range, as the wire format caps them.
  ghost predicate WireTyped(env: Envelope) {
    && SafeHeight(env.audit.base) && SafeHeight(env.evidence.observed + 1) && Safe(env.evidence.chainLock)
    && (forall i :: 0 <= i < |env.ledger| ==> Safe(env.ledger[i].anchor))
    && (forall ci :: 0 <= ci < |env.audit.epochs| && R.PoolBinding(env.audit, ci).Some? ==>
         SafeHeight(R.PoolBinding(env.audit, ci).value.activation))
  }

  // The envelope's chains are those of an ownership binding the checker accepts over the ledger.
  ghost predicate OwnershipChecked(env: Envelope, slots: seq<O.Slot>, m: O.PosMap) {
    && O.AnchorsNonDecreasing(env.ledger)
    && O.Owned(slots, m, env.ledger, env.operator)
    && |env.chains| == |slots| && forall i :: 0 <= i < |slots| ==> env.chains[i] == slots[i].chain
  }

  lemma CheckedHops(env: Envelope, slots: seq<O.Slot>, m: O.PosMap, si: nat)
    requires OwnershipChecked(env, slots, m) && WireTyped(env) && si < |slots|
    ensures HopAnchorsTyped(env.chains[si])
  {
    var s := slots[si];
    O.ChainOkAnchors(s, m, env.ledger, env.operator);
    forall i | 0 <= i < |s.chain| ensures Safe(s.chain[i].anchor) {
      assert O.HopBound(s.chain[i], s, m, env.ledger);
    }
  }

  // For an envelope that passes the checks and is typed, the seam derives every reward
  // exactly when the walk does not end on a fresh ban.
  lemma BuildableIffNoFreshBan(env: Envelope, rows: seq<CoreRow>, slots: seq<O.Slot>, m: O.PosMap)
    requires EnvelopeChecked(env, rows) && WireTyped(env) && OwnershipChecked(env, slots, m)
    ensures Buildable(env, rows) <==> !R.EndsOnFreshBan(E.States(env.evidence))
  {
    var a, states := env.audit, E.States(env.evidence);
    R.FreshBanIsRefused(a.base, states);
    forall i | 0 <= i < |rows| ensures RowBuildable(env, rows[i]) {
      CheckedIsDerivable(env, rows, i);
      if rows[i].coinbase.Outputs? { C.OrderedNoTwice(rows[i].coinbase.outputs); }
    }
    forall si | 0 <= si < |env.chains| ensures HopAnchorsTyped(env.chains[si]) { CheckedHops(env, slots, m, si); }
  }

  lemma CheckedIsDerivable(env: Envelope, rows: seq<CoreRow>, i: nat)
    requires EnvelopeChecked(env, rows) && WireTyped(env) && i < |rows|
    ensures Derivable(env, rows[i])
  {
    var a, H := env.audit, rows[i].height;
    hide *;
    CheckedHeights(env, rows, i);
    CheckedActivation(env, rows, i);
    if PaysSlots(env, rows[i]) { CheckedBook(env, rows, i); }
    AllDerivable(env, rows[i]);
  }

  lemma AllDerivable(env: Envelope, row: CoreRow)
    requires |env.audit.epochs| > 0
    requires SafeHeight(row.height) && R.TerminalTyped(env.audit.journal)
    requires !R.UncoveredInside(env.audit, row.height) && !R.ActivationUntyped(env.audit, row.height)
    requires E.EligibilityAt(env.evidence, env.audit.journal, row.height).Ok?
    requires E.HeightTyped(env.evidence, env.audit.journal, row.height) && Safe(env.evidence.chainLock)
    requires PaysSlots(env, row) ==>
      R.BookAt(env.audit, row.height).Some? && L.PartitionOfOne(R.BookAt(env.audit, row.height).value.shares)
    ensures Derivable(env, row)
  {
    hide PaysSlots;
  }

  lemma CheckedHeights(env: Envelope, rows: seq<CoreRow>, i: nat)
    requires EnvelopeChecked(env, rows) && WireTyped(env) && i < |rows|
    ensures |env.audit.epochs| > 0
    ensures SafeHeight(rows[i].height) && R.TerminalTyped(env.audit.journal)
    ensures E.EligibilityAt(env.evidence, env.audit.journal, rows[i].height).Ok?
    ensures E.HeightTyped(env.evidence, env.audit.journal, rows[i].height) && Safe(env.evidence.chainLock)
  {
    var a, states := env.audit, E.States(env.evidence);
    E.WalkIndexInBounds(env.evidence, a.journal, rows[i].height);
    R.RebuiltTerminalTyped(a.base, states, a.journal);
    hide Rebuild;
    E.CheckedHeightTyped(env.evidence, a.journal, rows[i].height);
    hide E.EligibilityAt, E.HeightTyped;
  }

  lemma CheckedActivation(env: Envelope, rows: seq<CoreRow>, i: nat)
    requires EnvelopeChecked(env, rows) && WireTyped(env) && i < |rows|
    ensures |env.audit.epochs| > 0
    ensures !R.UncoveredInside(env.audit, rows[i].height) && !R.ActivationUntyped(env.audit, rows[i].height)
  {
    var a, H := env.audit, rows[i].height;
    R.CoveringInBounds(a.epochs, H);
    if a.epochs[0].from <= H <= a.epochs[|a.epochs| - 1].to { R.GaplessCovers(a.epochs, H); }
  }

  lemma CheckedBook(env: Envelope, rows: seq<CoreRow>, i: nat)
    requires EnvelopeChecked(env, rows) && WireTyped(env) && i < |rows|
    requires |env.audit.epochs| > 0 && PaysSlots(env, rows[i])
    ensures var b := R.BookAt(env.audit, rows[i].height); b.Some? && L.PartitionOfOne(b.value.shares)
  {
    var a, H := env.audit, rows[i].height;
    R.CoveringInBounds(a.epochs, H);
    var ci := R.CoveringEpoch(a.epochs, H).value;
    assert EpochBooked(a, ci);
    L.GoverningSplit(0, R.BookAt(a, H).value.slotCount);
  }

  // A height pays its slots exactly when Core scheduled the pool and paid every required
  // output, the node was present and valid one height earlier, and the epoch, binding
  // and activation rules recognize the pool.
  lemma PaysSlotsMeaning(env: Envelope, rows: seq<CoreRow>, i: nat)
    requires EnvelopeChecked(env, rows) && i < |rows|
    ensures var a, row, states := env.audit, rows[i], E.States(env.evidence);
      var h := row.height - 1 - a.base;
      0 <= h < |states| &&
      (PaysSlots(env, row) <==>
        && row.schedule.PoolScheduled? && row.coinbase.Outputs?
        && multiset(row.schedule.required) <= multiset(C.Classes(row.coinbase.outputs))
        && states[h] == PresentValid
        && R.Governed(a, row.height))
  {
    hide *;
    var a, row, states := env.audit, rows[i], E.States(env.evidence);
    CheckedRow(env, rows, i);
    E.EligibilityMeaning(env.evidence, a.journal, row.height);
    if states[row.height - 1 - a.base] == PresentValid { R.ValidNodeRecognizedIff(a, states, row.height); }
    PaysSlotsParts(env, row);
    OwedIff(env.evidence.chainLock, E.EligibilityAt(env.evidence, a.journal, row.height).value, row);
  }

  lemma CheckedRow(env: Envelope, rows: seq<CoreRow>, i: nat)
    requires EnvelopeChecked(env, rows) && i < |rows|
    ensures var a, ev, H := env.audit, env.evidence, rows[i].height;
      && R.EpochsInOrder(a.epochs) && |a.epochs| > 0 && E.RangesAccepted(ev) && a.base == ev.base.height
      && Rebuild(a.base, E.States(ev)) == Ok(a.journal)
      && ev.fromHeight <= H <= ev.toHeight && H <= ev.chainLock
      && a.base + 1 <= H <= a.base + |E.States(ev)| - 1
  {
    hide Rebuild, E.States;
  }

  lemma PaysSlotsParts(env: Envelope, row: CoreRow)
    requires |env.audit.epochs| > 0 && E.EligibilityAt(env.evidence, env.audit.journal, row.height).Ok?
    ensures var rec := R.Recognize(env.audit, row.height);
      var v := E.EligibilityAt(env.evidence, env.audit.journal, row.height).value;
      PaysSlots(env, row) <==>
        && rec.Ok? && rec.value.status == R.Recognized && IsOwed(Classify(env.evidence.chainLock, v, row))
  {
    hide R.Recognize, E.EligibilityAt, Classify;
  }

  // What Core owes the pool: a finalized, scheduled height, a valid node and every required output.
  lemma OwedIff(chainLock: int, verdict: E.Verdict, row: CoreRow)
    ensures IsOwed(Classify(chainLock, verdict, row)) <==>
      && row.height <= chainLock && row.schedule.PoolScheduled? && row.coinbase.Outputs? && verdict.state == E.Valid
      && multiset(row.schedule.required) <= multiset(C.Classes(row.coinbase.outputs))
  {
    if row.schedule.PoolScheduled? && row.coinbase.Outputs? {
      C.AllMatchedIffSubMultiset(row.schedule.required, row.coinbase.outputs);
    }
    hide C.Matched, C.Unexplained, C.Classes;
  }

  // ---------- what every record says, over the walk, the schedule and the coinbase ----------

  predicate Says(e: Entitlement, cls: Classification, reason: Reason, anomaly: Option<AnomalyCode>) {
    e.Classified? && e.cls == cls && e.reason == reason && e.anomaly == anomaly
  }

  // Above the ChainLock nothing is decided; below it an absent read is named, and nothing else.
  predicate UndecidedSays(chainLock: int, row: CoreRow, e: Entitlement) {
    && (e == Unfinalized <==> row.height > chainLock)
    && (row.height <= chainLock ==>
         && (e == Unknown([MissingCoinbase, MissingSchedule]) <==> row.coinbase.NoCoinbase? && row.schedule.NoSchedule?)
         && (e == Unknown([MissingCoinbase]) <==> row.coinbase.NoCoinbase? && !row.schedule.NoSchedule?)
         && (e == Unknown([MissingSchedule]) <==> row.coinbase.Outputs? && row.schedule.NoSchedule?))
  }

  // The whole precedence table, for any walk with the verdict's state.
  ghost predicate EntitlementSays(chainLock: int, verdict: E.Verdict, row: CoreRow, e: Entitlement) {
    && UndecidedSays(chainLock, row, e)
    && (row.height <= chainLock && row.coinbase.Outputs? ==>
         && (row.schedule.NotPool? ==> forall w :: StateOf(w) == verdict.state ==> UnscheduledSays(w, e))
         && (row.schedule.PoolScheduled? ==> forall w :: StateOf(w) == verdict.state ==>
              ScheduledSays(w, row.schedule.required, row.coinbase.outputs, e)))
    && (e.Classified? ==> e.verdict == verdict)
  }

  lemma ClassifyMeaning(chainLock: int, verdict: E.Verdict, row: CoreRow)
    ensures EntitlementSays(chainLock, verdict, row, Classify(chainLock, verdict, row))
  {
    ClassifyUndecided(chainLock, verdict, row);
    hide Classify, UndecidedSays, UnscheduledSays, ScheduledSays;
    if row.height <= chainLock && row.coinbase.Outputs? {
      forall w | StateOf(w) == verdict.state
        ensures row.schedule.NotPool? ==> UnscheduledSays(w, Classify(chainLock, verdict, row))
        ensures row.schedule.PoolScheduled? ==>
          ScheduledSays(w, row.schedule.required, row.coinbase.outputs, Classify(chainLock, verdict, row))
      {
        hide StateOf;
        if row.schedule.NotPool? { ClassifyUnscheduled(chainLock, verdict, row, w); }
        if row.schedule.PoolScheduled? { ClassifyScheduled(chainLock, verdict, row, w); }
      }
    }
  }

  lemma ClassifyUndecided(chainLock: int, verdict: E.Verdict, row: CoreRow)
    ensures var e := Classify(chainLock, verdict, row);
      UndecidedSays(chainLock, row, e) && (e.Classified? ==> e.verdict == verdict)
  {
    var both, neither := [MissingCoinbase, MissingSchedule], [MissingEligibilityBase];
    assert |both| == 2 && both[0] == MissingCoinbase && neither[0] == MissingEligibilityBase;
    assert [MissingCoinbase][0] == MissingCoinbase && [MissingSchedule][0] == MissingSchedule;
    hide C.Matched, C.Unexplained;
  }

  lemma UndecidedMeaning(env: Envelope, row: CoreRow, rec: Record)
    requires |env.audit.epochs| > 0 && CheckerAccepts(env, row, rec)
    ensures UndecidedSays(env.evidence.chainLock, row, rec.entitlement)
    ensures !rec.entitlement.Classified? ==>
      && rec.conservation == Unavailable
      && rec.fanout == NoFanout(if row.height > env.evidence.chainLock then IsUnfinalized else IsUnknown)
  {
    var v := E.EligibilityAt(env.evidence, env.audit.journal, row.height).value;
    ClassifyUndecided(env.evidence.chainLock, v, row);
    hide R.Recognize, E.EligibilityAt, Classify;
  }

  // The state of the node one height below the row, whether it was ever present before, and
  // whether the walk starts too late to tell.
  datatype Walked = Walked(state: NodeState, before: bool, local: bool)

  ghost function WalkedAt(ev: E.Evidence, H: int): Walked
    requires 0 <= H - 1 - ev.base.height < |E.States(ev)|
  {
    var states, h := E.States(ev), H - 1 - ev.base.height;
    Walked(states[h], PresentBefore(states, h), ev.base.mode.RangeLocal?)
  }

  // A row Core scheduled for somebody else.
  predicate UnscheduledSays(w: Walked, e: Entitlement) {
    && (e == Unknown([MissingEligibilityBase]) <==> w.state == Absent && !w.before && w.local)
    && (Says(e, Excluded, BeforeAppearance, None) <==> w.state == Absent && !w.before && !w.local)
    && (Says(e, Excluded, ByTermination, None) <==> w.state == Absent && w.before)
    && (Says(e, Excluded, BySuspension, None) <==> w.state == PresentInvalid)
    && (Says(e, NotPayee, NoReason, None) <==> w.state == PresentValid)
    && (e.Classified? ==> e.evidence.required == [] && e.evidence.matched == [] && e.evidence.unexplained == [])
  }

  // A row Core scheduled for the pool.
  ghost predicate ScheduledSays(w: Walked, required: seq<C.Expected>, outputs: seq<C.Output>, e: Entitlement) {
    var paid := multiset(required) <= multiset(C.Classes(outputs));
    && e.Classified?
    && (Says(e, Anomaly, NoReason, Some(ScheduleListDisagreement)) <==> w.state != PresentValid)
    && (Says(e, Anomaly, NoReason, Some(CoinbaseMismatch)) <==> w.state == PresentValid && !paid)
    && (Says(e, Owed, NoReason, None) <==> w.state == PresentValid && paid)
    && e.evidence.required == required
    && multiset(e.evidence.matched) + multiset(e.evidence.unexplained) == multiset(outputs)
    && forall x ::
         C.Count(C.Classes(e.evidence.matched), x) == C.Min(C.Count(required, x), C.Count(C.Classes(outputs), x))
  }

  lemma WalkedStateIs(ev: E.Evidence, H: int)
    requires 0 <= H - 1 - ev.base.height < |E.States(ev)|
    ensures WalkedAt(ev, H).state == E.States(ev)[H - 1 - ev.base.height]
  {
  }

  // What is conserved and handed out follows the classification, and for an owed row whether
  // the audited binding governs the height.
  ghost predicate ResultSays(env: Envelope, row: CoreRow, rec: Record) {
    var e := rec.entitlement;
    && rec.height == row.height && R.AnswerMeans(env.audit, row.height, rec.recognition)
    && (e.Classified? ==>
      if e.cls == Owed && R.Governed(env.audit, row.height) then
        && row.schedule.PoolScheduled?
        && rec.conservation == Calculated(C.Amounts(row.schedule.required), C.Amounts(row.schedule.required))
        && rec.fanout.Slots?
      else if e.cls == Owed then
        && rec.conservation == NotApplicable
        && rec.fanout == NoFanout(NotRecognized(rec.recognition.status)) && rec.recognition.status != R.Recognized
      else
        && rec.conservation == (if e.cls == Anomaly then Unavailable else NotApplicable)
        && rec.fanout == NoFanout(ByClass(e.cls)))
  }

  // The state and the list root an entitlement rests on are the walk's at H-1.
  ghost predicate VerdictSays(ev: E.Evidence, H: int, e: Entitlement)
    requires 0 <= H - 1 - ev.base.height <= |ev.walk|
  {
    var h := H - 1 - ev.base.height;
    e.Classified? ==>
      && (e.verdict.state == E.Valid <==> E.States(ev)[h] == PresentValid)
      && (e.verdict.state == E.Invalid <==> E.States(ev)[h] == PresentInvalid)
      && e.verdict.listRoot == if h == 0 then ev.base.listRoot else Some(ev.walk[h - 1].listRoot)
  }

  // The verdict's state as the walk has it.
  function StateOf(w: Walked): E.EligibilityState {
    match w.state
    case PresentValid => E.Valid
    case PresentInvalid => E.Invalid
    case Absent =>
      if w.before then E.AbsentTerminal else if w.local then E.AbsentUnknown else E.AbsentPreAppearance
  }

  lemma ClassifyUnscheduled(chainLock: int, verdict: E.Verdict, row: CoreRow, w: Walked)
    requires row.height <= chainLock && row.coinbase.Outputs? && row.schedule.NotPool? && verdict.state == StateOf(w)
    ensures UnscheduledSays(w, Classify(chainLock, verdict, row))
  {
  }

  lemma ClassifyScheduled(chainLock: int, verdict: E.Verdict, row: CoreRow, w: Walked)
    requires row.height <= chainLock && row.coinbase.Outputs? && row.schedule.PoolScheduled?
    requires verdict.state == StateOf(w)
    ensures ScheduledSays(w, row.schedule.required, row.coinbase.outputs, Classify(chainLock, verdict, row))
  {
    var required, outputs := row.schedule.required, row.coinbase.outputs;
    hide *;
    OwedIff(chainLock, verdict, row);
    ScheduledEvidence(chainLock, verdict, row);
    C.MatchPartitionsCoinbase(required, outputs);
    forall x ensures C.Count(C.Classes(C.Matched(required, outputs)), x)
      == C.Min(C.Count(required, x), C.Count(C.Classes(outputs), x))
    {
      C.MatchedPerClass(required, outputs, x);
    }
    StateIs(w);
    ScheduledParts(w, required, outputs, Classify(chainLock, verdict, row));
  }

  lemma StateIs(w: Walked)
    ensures StateOf(w) == E.Valid <==> w.state == PresentValid
  {
  }

  lemma ScheduledEvidence(chainLock: int, verdict: E.Verdict, row: CoreRow)
    requires row.height <= chainLock && row.coinbase.Outputs? && row.schedule.PoolScheduled?
    ensures var required, outputs, e := row.schedule.required, row.coinbase.outputs, Classify(chainLock, verdict, row);
      && e.Classified? && e.reason == NoReason
      && e.evidence == Evidence(required, C.Matched(required, outputs), C.Unexplained(required, outputs))
      && (if IsOwed(e) then e.anomaly == None
          else e.cls == Anomaly && e.anomaly == Some(if verdict.state != E.Valid then ScheduleListDisagreement
                                                     else CoinbaseMismatch))
  {
    hide C.Matched, C.Unexplained;
  }

  lemma ScheduledParts(w: Walked, required: seq<C.Expected>, outputs: seq<C.Output>, e: Entitlement)
    requires e.Classified? && e.reason == NoReason && e.evidence.required == required
    requires IsOwed(e) <==> w.state == PresentValid && multiset(required) <= multiset(C.Classes(outputs))
    requires if IsOwed(e) then e.anomaly == None
      else e.cls == Anomaly && e.anomaly == Some(if w.state != PresentValid then ScheduleListDisagreement
                                                 else CoinbaseMismatch)
    requires multiset(e.evidence.matched) + multiset(e.evidence.unexplained) == multiset(outputs)
    requires forall x ::
      C.Count(C.Classes(e.evidence.matched), x) == C.Min(C.Count(required, x), C.Count(C.Classes(outputs), x))
    ensures ScheduledSays(w, required, outputs, e)
  {
    hide C.Count, C.Classes, C.Min;
  }

  // Every complete row of a checked envelope, whatever its schedule.
  lemma RecordMeaning(env: Envelope, rows: seq<CoreRow>, i: nat, rec: Record)
    requires EnvelopeChecked(env, rows) && i < |rows| && |env.audit.epochs| > 0
    requires CheckerAccepts(env, rows[i], rec)
    requires rows[i].coinbase.Outputs? && !rows[i].schedule.NoSchedule?
    ensures var ev, row := env.evidence, rows[i];
      && 0 <= row.height - 1 - ev.base.height <= |ev.walk|
      && var w := WalkedAt(ev, row.height);
      && (row.schedule.NotPool? ==> UnscheduledSays(w, rec.entitlement))
      && (row.schedule.PoolScheduled? ==>
            ScheduledSays(w, row.schedule.required, row.coinbase.outputs, rec.entitlement))
      && ResultSays(env, row, rec) && VerdictSays(ev, row.height, rec.entitlement)
  {
    hide *;
    CheckedRow(env, rows, i);
    E.EligibilityMeaning(env.evidence, env.audit.journal, rows[i].height);
    VerdictIsWalked(env, rows[i]);
    AcceptedEntitlement(env, rows[i], rec);
    var verdict := E.EligibilityAt(env.evidence, env.audit.journal, rows[i].height).value;
    var w := WalkedAt(env.evidence, rows[i].height);
    if rows[i].schedule.NotPool? {
      ClassifyUnscheduled(env.evidence.chainLock, verdict, rows[i], w);
    } else {
      ClassifyScheduled(env.evidence.chainLock, verdict, rows[i], w);
    }
    PaysSlotsMeaning(env, rows, i);
    WalkedStateIs(env.evidence, rows[i].height);
    ResultFollows(env, rows[i], rec, w);
    VerdictFollows(env, rows[i], rec);
  }

  lemma VerdictIsWalked(env: Envelope, row: CoreRow)
    requires 0 <= row.height - 1 - env.evidence.base.height < |E.States(env.evidence)|
    requires E.EligibilityAt(env.evidence, env.audit.journal, row.height).Ok?
    requires var ev, h := env.evidence, row.height - 1 - env.evidence.base.height;
      E.EligibilityAt(ev, env.audit.journal, row.height).value.state ==
        match E.States(ev)[h]
        case PresentValid => E.Valid
        case PresentInvalid => E.Invalid
        case Absent =>
          if PresentBefore(E.States(ev), h) then E.AbsentTerminal
          else if ev.base.mode.RangeLocal? then E.AbsentUnknown
          else E.AbsentPreAppearance
    ensures E.EligibilityAt(env.evidence, env.audit.journal, row.height).value.state
      == StateOf(WalkedAt(env.evidence, row.height))
  {
    hide E.EligibilityAt, PresentBefore;
  }

  lemma AcceptedEntitlement(env: Envelope, row: CoreRow, rec: Record)
    requires |env.audit.epochs| > 0 && CheckerAccepts(env, row, rec)
    requires E.EligibilityAt(env.evidence, env.audit.journal, row.height).Ok?
    ensures rec.entitlement ==
      Classify(env.evidence.chainLock, E.EligibilityAt(env.evidence, env.audit.journal, row.height).value, row)
  {
    hide Classify, E.EligibilityAt, R.Recognize, SlotsAccepted;
  }

  lemma ResultFollows(env: Envelope, row: CoreRow, rec: Record, w: Walked)
    requires R.EpochsInOrder(env.audit.epochs) && CheckerAccepts(env, row, rec)
    requires row.coinbase.Outputs? && !row.schedule.NoSchedule?
    requires row.schedule.NotPool? ==> UnscheduledSays(w, rec.entitlement)
    requires row.schedule.PoolScheduled? ==>
      ScheduledSays(w, row.schedule.required, row.coinbase.outputs, rec.entitlement)
    requires PaysSlots(env, row) <==>
      && row.schedule.PoolScheduled? && row.coinbase.Outputs?
      && multiset(row.schedule.required) <= multiset(C.Classes(row.coinbase.outputs))
      && w.state == PresentValid && R.Governed(env.audit, row.height)
    ensures ResultSays(env, row, rec)
  {
    R.RecognizeMeaning(env.audit, row.height);
    if rec.entitlement.Classified? && rec.entitlement.cls == Owed && row.schedule.PoolScheduled? {
      OwedMatched(env, row, rec);
    }
    hide R.EpochsInOrder, R.AnswerMeans, R.Recognize, R.Governed, E.EligibilityAt, SlotsAccepted,
         C.Matched, C.Unexplained, C.Classes, C.Amounts;
  }

  lemma OwedMatched(env: Envelope, row: CoreRow, rec: Record)
    requires |env.audit.epochs| > 0 && CheckerAccepts(env, row, rec)
    requires row.coinbase.Outputs? && row.schedule.PoolScheduled?
    requires rec.entitlement.Classified? && rec.entitlement.cls == Owed
    ensures C.Amounts(C.Classes(rec.entitlement.evidence.matched)) == C.Amounts(row.schedule.required)
  {
    hide E.EligibilityAt, R.Recognize, SlotsAccepted, C.Matched, C.Unexplained, C.Classes, C.Amounts;
    C.MatchedPaysRequired(row.schedule.required, row.coinbase.outputs);
  }

  lemma VerdictFollows(env: Envelope, row: CoreRow, rec: Record)
    requires 0 <= row.height - 1 - env.evidence.base.height <= |env.evidence.walk|
    requires E.EligibilityAt(env.evidence, env.audit.journal, row.height).Ok?
    requires var v := E.EligibilityAt(env.evidence, env.audit.journal, row.height).value;
      && v.state == StateOf(WalkedAt(env.evidence, row.height))
      && rec.entitlement == Classify(env.evidence.chainLock, v, row)
      && v.listRoot ==
           (var h := row.height - 1 - env.evidence.base.height;
            if h == 0 then env.evidence.base.listRoot else Some(env.evidence.walk[h - 1].listRoot))
    ensures VerdictSays(env.evidence, row.height, rec.entitlement)
  {
    hide E.EligibilityAt, C.Matched, C.Unexplained, PresentBefore;
  }

  // ---------- what every slot record says ----------

  // Who is paid, at which closing block: the operator before the first sale below it, and
  // afterwards the buyer of the last one.
  predicate PaidTo(chain: seq<O.Hop>, closing: O.Closing, owner: string, snapshot: Option<O.Position>,
                   operator: string)
  {
    match snapshot
    case None =>
      owner == operator && forall i :: 0 <= i < |chain| ==> chain[i].position.key.height >= closing.platformHeight
    case Some(p) =>
      exists i :: 0 <= i < |chain| && O.LastBuyer(chain, i, p, owner, closing.platformHeight)
  }

  // Slot k's record, its share that of the book.
  ghost predicate SlotSays(env: Envelope, H: int, k: nat, r: SlotRecord, share: L.Share) {
    && r.slotIndex == k && r.share == share
    && (r.allocation.Unclosed? <==> forall i :: 0 <= i < |env.ledger| ==> env.ledger[i].anchor < H)
    && (r.allocation.Resolved? ==>
         && var a := r.allocation;
         && (exists c :: O.Closes(env.ledger, c, H)
               && a.closing == O.Closing(env.ledger[c].height, env.ledger[c].anchor))
         && PaidTo(ChainOf(env, k), a.closing, a.owner, a.snapshot, env.operator))
  }

  // The slots of an owed, governed height: one per share of the first book of the audited pool in
  // the covering epoch, each paid within one duff of its exact quota, and all of it handed out.
  ghost predicate SlotsSay(env: Envelope, row: CoreRow, records: seq<SlotRecord>, ci: int, bi: int) {
    && R.BooksFirst(env.audit, row.height, ci, bi) && row.schedule.PoolScheduled?
    && var shares, gross := env.audit.epochs[ci].books[bi].shares, C.Amounts(row.schedule.required);
    && L.PartitionOfOne(shares) && |records| == |shares|
    && (forall k :: 0 <= k < |records| ==> SlotSays(env, row.height, k, records[k], shares[k]))
    && (forall k :: 0 <= k < |records| ==>
         L.Quota(gross, shares[k]) - 1.0 < records[k].duffs as real < L.Quota(gross, shares[k]) + 1.0)
    && L.Sum(Allocated(records)) == gross
  }

  lemma SlotsMeaning(env: Envelope, rows: seq<CoreRow>, i: nat, rec: Record, slots: seq<O.Slot>, m: O.PosMap)
    requires EnvelopeChecked(env, rows) && i < |rows| && |env.audit.epochs| > 0
    requires OwnershipChecked(env, slots, m) && O.ConsecutiveRows(env.ledger)
    requires CheckerAccepts(env, rows[i], rec) && rec.fanout.Slots?
    ensures exists ci, bi :: SlotsSay(env, rows[i], rec.fanout.records, ci, bi)
  {
    hide *;
    CheckedRow(env, rows, i);
    SlotsOwed(env, rows[i], rec);
    var H, gross, records := rows[i].height, C.Amounts(rows[i].schedule.required), rec.fanout.records;
    BookFound(env, H, gross, records);
    var ci, bi :| R.BooksFirst(env.audit, H, ci, bi) && BookIs(env, H, ci, bi);
    AcceptedParts(env, H, gross, records, ci, bi);
    var shares := env.audit.epochs[ci].books[bi].shares;
    forall k | 0 <= k < |records|
      ensures SlotSays(env, H, k, records[k], shares[k])
      ensures L.Quota(gross, shares[k]) - 1.0 < records[k].duffs as real < L.Quota(gross, shares[k]) + 1.0
    {
      SlotFollows(env, H, k, records[k], shares[k], slots, m);
      L.ToppedBelowCeiling(gross, shares, Allocated(records), k);
    }
    SlotsSayFrom(env, rows[i], records, ci, bi);
  }

  ghost predicate BookIs(env: Envelope, H: int, ci: int, bi: int) {
    && 0 <= ci < |env.audit.epochs| && 0 <= bi < |env.audit.epochs[ci].books|
    && R.BookAt(env.audit, H) == Some(env.audit.epochs[ci].books[bi])
  }

  lemma SlotsOwed(env: Envelope, row: CoreRow, rec: Record)
    requires |env.audit.epochs| > 0 && CheckerAccepts(env, row, rec) && rec.fanout.Slots?
    ensures row.schedule.PoolScheduled?
    ensures SlotsAccepted(env, row.height, C.Amounts(row.schedule.required), rec.fanout.records)
  {
    hide E.EligibilityAt, R.Recognize, SlotsAccepted, C.Matched, C.Unexplained, C.Classes, C.Amounts;
    OwedMatched(env, row, rec);
  }

  lemma BookFound(env: Envelope, H: int, gross: int, records: seq<SlotRecord>)
    requires R.EpochsInOrder(env.audit.epochs) && SlotsAccepted(env, H, gross, records)
    ensures exists ci, bi :: R.BooksFirst(env.audit, H, ci, bi) && BookIs(env, H, ci, bi)
  {
    R.BookMeaning(env.audit, H);
    assert R.BookAt(env.audit, H).Some?;
    var b := R.BookAt(env.audit, H).value;
    var ci, bi :| R.BooksFirst(env.audit, H, ci, bi) && env.audit.epochs[ci].books[bi] == b;
    assert BookIs(env, H, ci, bi);
  }

  lemma AcceptedParts(env: Envelope, H: int, gross: int, records: seq<SlotRecord>, ci: int, bi: int)
    requires SlotsAccepted(env, H, gross, records) && BookIs(env, H, ci, bi)
    ensures 0 <= ci < |env.audit.epochs| && 0 <= bi < |env.audit.epochs[ci].books|
    ensures var shares := env.audit.epochs[ci].books[bi].shares;
      && |records| == |shares| == |Allocated(records)| && L.ValidShares(shares) && L.PartitionOfOne(shares)
      && L.IsLargestRemainder(gross, shares, Allocated(records))
      && L.Sum(Allocated(records)) == gross
      && (forall k :: 0 <= k < |records| ==> shares[k].den > 0 && Allocated(records)[k] == records[k].duffs)
      && forall k :: 0 <= k < |records| ==>
           && records[k].slotIndex == k && records[k].share == shares[k]
           && records[k].allocation == O.Resolve(ChainOf(env, k), env.ledger, env.operator, H)
  {
    hide R.BookAt, O.Resolve, ChainOf;
  }

  lemma SlotFollows(env: Envelope, H: int, k: nat, r: SlotRecord, share: L.Share, slots: seq<O.Slot>, m: O.PosMap)
    requires OwnershipChecked(env, slots, m) && O.ConsecutiveRows(env.ledger)
    requires r.slotIndex == k && r.share == share
    requires r.allocation == O.Resolve(ChainOf(env, k), env.ledger, env.operator, H)
    ensures SlotSays(env, H, k, r, share)
  {
    hide *;
    O.ClosingMeaning(ChainOf(env, k), env.ledger, env.operator, H);
    if r.allocation.Resolved? { PaidFollows(env, H, k, slots, m); }
    SlotSaysFrom(env, H, k, r, share);
  }

  lemma SlotSaysFrom(env: Envelope, H: int, k: nat, r: SlotRecord, share: L.Share)
    requires r.slotIndex == k && r.share == share
    requires r.allocation.Unclosed? <==> forall i :: 0 <= i < |env.ledger| ==> env.ledger[i].anchor < H
    requires r.allocation.Resolved? ==>
      exists c :: O.Closes(env.ledger, c, H)
        && r.allocation.closing == O.Closing(env.ledger[c].height, env.ledger[c].anchor)
    requires r.allocation.Resolved? ==>
      PaidTo(ChainOf(env, k), r.allocation.closing, r.allocation.owner, r.allocation.snapshot, env.operator)
    ensures SlotSays(env, H, k, r, share)
  {
    hide PaidTo, ChainOf;
  }

  lemma PaidFollows(env: Envelope, H: int, k: nat, slots: seq<O.Slot>, m: O.PosMap)
    requires OwnershipChecked(env, slots, m) && O.ConsecutiveRows(env.ledger)
    requires O.Resolve(ChainOf(env, k), env.ledger, env.operator, H).Resolved?
    ensures var a := O.Resolve(ChainOf(env, k), env.ledger, env.operator, H);
      PaidTo(ChainOf(env, k), a.closing, a.owner, a.snapshot, env.operator)
  {
    hide O.Resolve, O.ConsecutiveRows, OwnershipChecked;
    if k < |env.chains| {
      OwnedChain(env, slots, m, k);
      hide ChainOf;
      O.OwnerIsLastBuyerBeforeClosing(slots[k], m, env.ledger, env.operator, H);
    } else {
      NoChainPays(env, H);
    }
  }

  lemma OwnedChain(env: Envelope, slots: seq<O.Slot>, m: O.PosMap, k: nat)
    requires OwnershipChecked(env, slots, m) && k < |env.chains|
    ensures k < |slots| && O.ChainOk(slots[k], m, env.ledger, env.operator) && O.AnchorsNonDecreasing(env.ledger)
    ensures ChainOf(env, k) == slots[k].chain
  {
    hide O.ChainOk, O.AnchorsNonDecreasing;
  }

  lemma NoChainPays(env: Envelope, H: int)
    ensures var a := O.Resolve([], env.ledger, env.operator, H);
      a.Resolved? ==> a.owner == env.operator && a.snapshot == None
  {
    O.FirstClosingBounds(env.ledger, H);
  }

  lemma SlotsSayFrom(env: Envelope, row: CoreRow, records: seq<SlotRecord>, ci: int, bi: int)
    requires R.BooksFirst(env.audit, row.height, ci, bi) && row.schedule.PoolScheduled?
    requires 0 <= ci < |env.audit.epochs| && 0 <= bi < |env.audit.epochs[ci].books|
    requires var shares := env.audit.epochs[ci].books[bi].shares;
      L.PartitionOfOne(shares) && L.ValidShares(shares) && |records| == |shares|
    requires L.Sum(Allocated(records)) == C.Amounts(row.schedule.required)
    requires forall k :: 0 <= k < |records| ==>
      SlotSays(env, row.height, k, records[k], env.audit.epochs[ci].books[bi].shares[k])
    requires forall k :: 0 <= k < |records| ==>
      var gross, share := C.Amounts(row.schedule.required), env.audit.epochs[ci].books[bi].shares[k];
      share.den > 0 && L.Quota(gross, share) - 1.0 < records[k].duffs as real < L.Quota(gross, share) + 1.0
    ensures SlotsSay(env, row, records, ci, bi)
  {
    hide SlotSays, L.PartitionOfOne, L.Quota, C.Amounts;
  }
}
