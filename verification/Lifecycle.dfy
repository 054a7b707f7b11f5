/**
 Lifecycle journal reconstruction (check_vectors.py).

 The list walk gives the audited node's state at every height from the base on: `states[k]`
 below is the state at height `base + k`.  From it the checker rebuilds a journal of state
 transitions, the terminal height and the suspensions.
 */
module Lifecycle {
  import opened Outcomes

  datatype NodeState = Absent | PresentInvalid | PresentValid

  datatype Transition = Transition(height: int, from: NodeState, to: NodeState)

  datatype Start = PreBase | Observed(banHeight: int)

  datatype EndReason = Revoked | Terminated | RangeEnd

  datatype Suspension = Suspension(start: Start, endHeight: int, endReason: EndReason)

  datatype Journal = Journal(
    terminalHeight: Option<int>,
    observedThrough: int,
    suspensions: seq<Suspension>,
    transitions: seq<Transition>)

  datatype Failure = TransitionAfterTerminal

  // First height whose reward a suspension withholds.
  function FirstSuspended(s: Suspension, base: int): int {
    match s.start
    case Observed(ban) => ban + 1
    case PreBase => base + 1
  }

  predicate Suspends(s: Suspension, base: int, H: int) {
    FirstSuspended(s, base) <= H <= s.endHeight
  }

  predicate SuspendedAt(j: Journal, base: int, H: int) {
    exists s :: s in j.suspensions && Suspends(s, base, H)
  }

  // ---------- the functions the two loops compute ----------

  function Transitions(base: int, states: seq<NodeState>): seq<Transition> {
    if |states| <= 1 then []
    else
      var k := |states| - 1;
      Transitions(base, states[..k]) +
      if states[k - 1] != states[k] then [Transition(base + k, states[k - 1], states[k])] else []
  }

  datatype Scan = Scan(terminal: Option<int>, open: Option<Start>, closed: seq<Suspension>)

  // One turn of the scan over transitions, after the terminal check has passed.
  function Step(c: Scan, t: Transition): Scan {
    var c1 :=
      if t.to == PresentInvalid then c.(open := Some(Observed(t.height)))
      else if t.from == PresentInvalid && t.to == PresentValid then
        c.(closed := c.closed + Close(c.open, t.height, Revoked), open := None)
      else c;
    if t.to == Absent then
      Scan(Some(t.height), None, c1.closed + Close(c1.open, t.height, Terminated))
    else c1
  }

  function Close(open: Option<Start>, end: int, reason: EndReason): seq<Suspension> {
    if open.Some? then [Suspension(open.value, end, reason)] else []
  }

  function InitialScan(st0: NodeState): Scan {
    Scan(None, if st0 == PresentInvalid then Some(PreBase) else None, [])
  }

  function ScanAll(st0: NodeState, ts: seq<Transition>): Option<Scan> {
    if |ts| == 0 then Some(InitialScan(st0))
    else
      var k := |ts| - 1;
      match ScanAll(st0, ts[..k])
      case None => None
      case Some(c) => if c.terminal.Some? then None else Some(Step(c, ts[k]))
  }

  function Rebuild(base: int, states: seq<NodeState>): Result<Journal, Failure>
    requires |states| > 0
  {
    var ts := Transitions(base, states);
    var obs := base + |states| - 1;
    match ScanAll(states[0], ts)
    case None => Err(TransitionAfterTerminal)
    case Some(c) => Ok(Journal(c.terminal, obs, c.closed + Close(c.open, obs, RangeEnd), ts))
  }

  // ---------- the loops themselves ----------

  lemma {:induction false} ScanFailsOnward(st0: NodeState, ts: seq<Transition>, k: nat)
    requires k <= |ts| && ScanAll(st0, ts[..k]).None?
    ensures ScanAll(st0, ts).None?
    decreases |ts| - k
  {
    if k < |ts| {
      assert ts[..k + 1][..k] == ts[..k];
      ScanFailsOnward(st0, ts, k + 1);
    } else {
      assert ts[..k] == ts;
    }
  }

  lemma NextTransition(base: int, states: seq<NodeState>, k: nat)
    requires 0 < k < |states|
    ensures var before := Transitions(base, states[..k]);
      Transitions(base, states[..k + 1]) ==
        if states[k - 1] != states[k] then before + [Transition(base + k, states[k - 1], states[k])] else before
  {
    assert states[..k + 1][..k] == states[..k];
    assert Transitions(base, states[..k]) + [] == Transitions(base, states[..k]);
  }

  // First loop: one transition for every height at which the state changes.
  method CollectTransitions(base: int, st0: NodeState, walk: seq<NodeState>) returns (ts: seq<Transition>)
    ensures ts == Transitions(base, [st0] + walk)
  {
    ghost var all := [st0] + walk;
    assert Transitions(base, all[..1]) == [];
    hide *;
    ts := [];
    var previous := st0;
    for i := 0 to |walk|
      invariant previous == all[i]
      invariant ts == Transitions(base, all[..i + 1])
    {
      NextTransition(base, all, i + 1);
      if previous != walk[i] {
        ts := ts + [Transition(base + 1 + i, previous, walk[i])];
      }
      previous := walk[i];
    }
    assert all[..|walk| + 1] == all;
  }

  // Second loop: terminal height, open ban and closed suspensions.
  method ScanTransitions(st0: NodeState, ts: seq<Transition>) returns (r: Option<Scan>)
    ensures r == ScanAll(st0, ts)
  {
    var terminal: Option<int> := None;
    var openBan: Option<Start> := if st0 == PresentInvalid then Some(PreBase) else None;
    var suspensions: seq<Suspension> := [];
    for i := 0 to |ts|
      invariant ScanAll(st0, ts[..i]) == Some(Scan(terminal, openBan, suspensions))
    {
      var t := ts[i];
      assert ts[..i + 1][..i] == ts[..i];
      if terminal.Some? {
        ScanFailsOnward(st0, ts, i + 1);
        return None;
      }
      if t.to == PresentInvalid {
        openBan := Some(Observed(t.height));
      } else if t.from == PresentInvalid && t.to == PresentValid {
        suspensions := suspensions + Close(openBan, t.height, Revoked);
        openBan := None;
      }
      if t.to == Absent {
        terminal := Some(t.height);
        suspensions := suspensions + Close(openBan, t.height, Terminated);
        openBan := None;
      }
    }
    assert ts[..|ts|] == ts;
    return Some(Scan(terminal, openBan, suspensions));
  }

  method Reconstruct(base: int, st0: NodeState, walk: seq<NodeState>) returns (r: Result<Journal, Failure>)
    ensures r == Rebuild(base, [st0] + walk)
  {
    var transitions := CollectTransitions(base, st0, walk);
    var scan := ScanTransitions(st0, transitions);
    if scan.None? { return Err(TransitionAfterTerminal); }
    var obs := base + |walk|;
    return Ok(Journal(scan.value.terminal, obs,
                      scan.value.closed + Close(scan.value.open, obs, RangeEnd), transitions));
  }

  // ---------- the same scan, driven by the walk ----------

  // The scan after the last state of a walk, without the intermediate transition list.
  function WalkScan(base: int, states: seq<NodeState>): Option<Scan>
    requires |states| > 0
  {
    var k := |states| - 1;
    if k == 0 then Some(InitialScan(states[0]))
    else match WalkScan(base, states[..k])
      case None => None
      case Some(c) =>
        if states[k - 1] == states[k] then Some(c)
        else if c.terminal.Some? then None
        else Some(Step(c, Transition(base + k, states[k - 1], states[k])))
  }

  lemma {:induction false} ScanIsWalkScan(base: int, states: seq<NodeState>)
    requires |states| > 0
    ensures ScanAll(states[0], Transitions(base, states)) == WalkScan(base, states)
  {
    var k := |states| - 1;
    if k > 0 {
      ScanIsWalkScan(base, states[..k]);
      var ts := Transitions(base, states[..k]);
      assert (ts + [Transition(base + k, states[k - 1], states[k])])[..|ts|] == ts;
      assert ts + [] == ts;
    }
  }

  // ---------- the terminal height ----------

  // The node comes back after a removal: present, then absent, then present again.
  ghost predicate ReturnsAfterRemoval(states: seq<NodeState>) {
    exists i, j, k :: Returns(states, i, j, k)
  }

  predicate Returns(states: seq<NodeState>, i: int, j: int, k: int) {
    0 <= i < j < k < |states| && states[i] != Absent && states[j] == Absent && states[k] != Absent
  }

  // Before index m, a node once present stays present.
  ghost predicate NeverRemoved(states: seq<NodeState>, m: int)
    requires m <= |states|
  {
    forall i, j :: 0 <= i < j < m && states[i] != Absent ==> states[j] != Absent
  }

  ghost predicate RemovedForGood(states: seq<NodeState>, m: int) {
    && 0 < m < |states| && states[m - 1] != Absent
    && NeverRemoved(states, m)
    && forall k :: m <= k < |states| ==> states[k] == Absent
  }

  ghost predicate TerminalMeans(r: Option<Scan>, base: int, states: seq<NodeState>) {
    match r
    case None => ReturnsAfterRemoval(states)
    case Some(c) =>
      match c.terminal
      case None => NeverRemoved(states, |states|)
      case Some(t) => RemovedForGood(states, t - base)
  }

  lemma {:induction false} TerminalScan(base: int, states: seq<NodeState>)
    requires |states| > 0
    ensures TerminalMeans(WalkScan(base, states), base, states)
  {
    hide *;
    if |states| == 1 {
      TerminalOfOne(base, states);
    } else {
      var s := states[..|states| - 1];
      TerminalScan(base, s);
      match WalkScan(base, s)
      case None => StillReturns(base, states);
      case Some(c) => if c.terminal.Some? { TerminalStays(base, states, c); } else { TerminalReached(base, states, c); }
    }
  }

  lemma TerminalOfOne(base: int, states: seq<NodeState>)
    requires |states| == 1
    ensures TerminalMeans(WalkScan(base, states), base, states)
  {
  }

  lemma StillReturns(base: int, states: seq<NodeState>)
    requires |states| > 1
    requires WalkScan(base, states[..|states| - 1]) == None && TerminalMeans(None, base, states[..|states| - 1])
    ensures TerminalMeans(WalkScan(base, states), base, states)
  {
    ReturnsGrows(states);
    hide ReturnsAfterRemoval;
  }

  lemma ReturnsGrows(states: seq<NodeState>)
    requires |states| > 0 && ReturnsAfterRemoval(states[..|states| - 1])
    ensures ReturnsAfterRemoval(states)
  {
    var s := states[..|states| - 1];
    var i, j, m :| Returns(s, i, j, m);
    assert Returns(states, i, j, m);
  }

  lemma TerminalStays(base: int, states: seq<NodeState>, c: Scan)
    requires |states| > 1 && WalkScan(base, states[..|states| - 1]) == Some(c)
    requires c.terminal.Some? && TerminalMeans(Some(c), base, states[..|states| - 1])
    ensures TerminalMeans(WalkScan(base, states), base, states)
  {
    var k, m := |states| - 1, c.terminal.value - base;
    assert states[..k][m - 1] != Absent && states[..k][m] == Absent && states[..k][k - 1] == Absent;
    if states[k] == Absent {
      NeverRemovedPrefix(states, m);
      hide NeverRemoved, Step;
    } else {
      assert Returns(states, m - 1, m, k);
      hide NeverRemoved, Step;
    }
  }

  lemma NeverRemovedPrefix(states: seq<NodeState>, m: nat)
    requires |states| > 0 && m < |states| && NeverRemoved(states[..|states| - 1], m)
    ensures NeverRemoved(states, m)
  {
    var s := states[..|states| - 1];
    forall i, j | 0 <= i < j < m && states[i] != Absent ensures states[j] != Absent {
      assert s[i] != Absent;
    }
  }

  lemma TerminalReached(base: int, states: seq<NodeState>, c: Scan)
    requires |states| > 1 && WalkScan(base, states[..|states| - 1]) == Some(c)
    requires c.terminal.None? && TerminalMeans(Some(c), base, states[..|states| - 1])
    ensures TerminalMeans(WalkScan(base, states), base, states)
  {
    NeverRemovedGrows(states);
    hide NeverRemoved, RemovedForGood;
  }

  lemma NeverRemovedGrows(states: seq<NodeState>)
    requires |states| > 1 && NeverRemoved(states[..|states| - 1], |states| - 1)
    ensures var k := |states| - 1;
      if states[k] == Absent && states[k - 1] != Absent then RemovedForGood(states, k)
      else NeverRemoved(states, |states|)
  {
    var k := |states| - 1;
    var s := states[..k];
    forall i, j | 0 <= i < j < k && states[i] != Absent ensures states[j] != Absent {
      assert s[i] != Absent;
    }
  }

  // The journal is refused exactly when the node returns after a removal.
  lemma AcceptedIffNoReturn(base: int, states: seq<NodeState>)
    requires |states| > 0
    ensures Rebuild(base, states).Ok? <==> !ReturnsAfterRemoval(states)
    ensures Rebuild(base, states).Ok? ==> Rebuild(base, states).value.observedThrough == base + |states| - 1
  {
    ScanIsWalkScan(base, states);
    TerminalScan(base, states);
    var r := WalkScan(base, states);
    if r.Some? {
      forall i, j, k ensures !Returns(states, i, j, k) {
        if r.value.terminal.Some? && 0 <= i < j < |states| && states[i] != Absent && states[j] == Absent {
          GoneAfter(states, r.value.terminal.value - base, i, j);
        }
      }
    }
  }

  lemma GoneAfter(states: seq<NodeState>, m: int, i: nat, j: nat)
    requires RemovedForGood(states, m) && i < j < |states|
    requires states[i] != Absent && states[j] == Absent
    ensures m <= j
  {
  }

  ghost predicate PresentBefore(states: seq<NodeState>, h: int)
    requires h <= |states|
  {
    exists k :: 0 <= k < h && states[k] != Absent
  }

  // The terminal height lies below H exactly when the node was present and is gone at H-1.
  lemma TerminalIffRemoved(base: int, states: seq<NodeState>, H: int)
    requires |states| > 0 && Rebuild(base, states).Ok?
    requires base + 1 <= H <= base + |states|
    ensures var t := Rebuild(base, states).value.terminalHeight;
      (t.Some? && t.value < H) <==>
      (states[H - 1 - base] == Absent && PresentBefore(states, H - 1 - base))
  {
    ScanIsWalkScan(base, states);
    TerminalScan(base, states);
    RemovedIff(states, WalkScan(base, states).value.terminal, base, H - 1 - base);
  }

  lemma RemovedIff(states: seq<NodeState>, t: Option<int>, base: int, h: nat)
    requires h < |states|
    requires match t case None => NeverRemoved(states, |states|) case Some(v) => RemovedForGood(states, v - base)
    ensures (t.Some? && t.value - base <= h) <==> (states[h] == Absent && PresentBefore(states, h))
  {
    if t.Some? && t.value - base <= h {
      assert states[t.value - base - 1] != Absent;
    }
    if states[h] == Absent && PresentBefore(states, h) {
      var k :| 0 <= k < h && states[k] != Absent;
      GoneAfter(states, t.value - base, k, h);
    }
  }

  // ---------- the suspensions ----------

  // A maximal PRESENT_INVALID run begins at index a.
  predicate RunStart(states: seq<NodeState>, a: int) {
    0 <= a < |states| && states[a] == PresentInvalid && (a == 0 || states[a - 1] != PresentInvalid)
  }

  predicate InvalidThroughout(states: seq<NodeState>, a: int, b: int) {
    0 <= a <= b < |states| && forall k :: a <= k <= b ==> states[k] == PresentInvalid
  }

  // Index of the first invalid state a start record names.
  function StartIndex(st: Start, base: int): int {
    match st
    case PreBase => 0
    case Observed(ban) => ban - base
  }

  // The start record names the beginning of a run, and names it in the right form.
  predicate NamesRun(st: Start, base: int, states: seq<NodeState>) {
    RunStart(states, StartIndex(st, base)) && (st == PreBase <==> StartIndex(st, base) == 0)
  }

  function ReasonFor(after: NodeState): EndReason {
    match after
    case PresentValid => Revoked
    case Absent => Terminated
    case PresentInvalid => RangeEnd
  }

  // s records one whole run that ended inside the walk: the state at its end height is
  // the first one after the run and gives the reason.
  predicate RecordsEndedRun(s: Suspension, base: int, states: seq<NodeState>) {
    var e := s.endHeight - base;
    && NamesRun(s.start, base, states)
    && 0 < e < |states|
    && InvalidThroughout(states, StartIndex(s.start, base), e - 1)
    && states[e] != PresentInvalid
    && s.endReason == ReasonFor(states[e])
  }

  // s records the run the walk ends in.
  predicate RecordsLastRun(s: Suspension, base: int, states: seq<NodeState>) {
    && NamesRun(s.start, base, states)
    && InvalidThroughout(states, StartIndex(s.start, base), |states| - 1)
    && s.endHeight == base + |states| - 1
    && s.endReason == RangeEnd
  }

  ghost predicate OpenMeans(open: Option<Start>, base: int, states: seq<NodeState>)
    requires |states| > 0
  {
    match open
    case None => states[|states| - 1] != PresentInvalid
    case Some(st) => NamesRun(st, base, states) && InvalidThroughout(states, StartIndex(st, base), |states| - 1)
  }

  lemma {:induction false} OpenScan(base: int, states: seq<NodeState>)
    requires |states| > 0 && WalkScan(base, states).Some?
    ensures OpenMeans(WalkScan(base, states).value.open, base, states)
  {
    var k := |states| - 1;
    if k > 0 { OpenScan(base, states[..k]); }
  }

  ghost predicate ClosedMeans(closed: seq<Suspension>, base: int, states: seq<NodeState>) {
    forall x :: 0 <= x < |closed| ==> RecordsEndedRun(closed[x], base, states)
  }

  lemma RecordsGrow(closed: seq<Suspension>, base: int, s: seq<NodeState>, states: seq<NodeState>)
    requires ClosedMeans(closed, base, s) && |states| > 0 && s == states[..|states| - 1]
    ensures ClosedMeans(closed, base, states)
  {
    forall x | 0 <= x < |closed| ensures RecordsEndedRun(closed[x], base, states) {
      assert RecordsEndedRun(closed[x], base, s);
    }
  }

  // One step keeps the closed list and adds at most the run that was open.
  lemma StepCloses(c: Scan, base: int, states: seq<NodeState>)
    requires |states| > 1
    requires OpenMeans(c.open, base, states[..|states| - 1])
    requires states[|states| - 2] != states[|states| - 1]
    ensures var k := |states| - 1;
      var c' := Step(c, Transition(base + k, states[k - 1], states[k]));
      if c.open.Some? then
        c'.closed == c.closed + [Suspension(c.open.value, base + k, ReasonFor(states[k]))]
        && RecordsEndedRun(c'.closed[|c.closed|], base, states) && c'.open.None?
      else c'.closed == c.closed
  {
  }

  lemma {:induction false} ClosedScan(base: int, states: seq<NodeState>)
    requires |states| > 0 && WalkScan(base, states).Some?
    ensures ClosedMeans(WalkScan(base, states).value.closed, base, states)
  {
    var k := |states| - 1;
    if k > 0 {
      var s := states[..k];
      ClosedScan(base, s);
      OpenScan(base, s);
      var c := WalkScan(base, s).value;
      RecordsGrow(c.closed, base, s, states);
      if states[k - 1] != states[k] { StepCloses(c, base, states); }
    }
  }

  // Each suspension ends no later than the next one's run begins.
  predicate Ascending(ss: seq<Suspension>, base: int) {
    forall x, y :: 0 <= x < y < |ss| ==> ss[x].endHeight <= base + StartIndex(ss[y].start, base)
  }

  ghost predicate ScanOrdered(c: Scan, base: int, last: int) {
    && Ascending(c.closed, base)
    && forall x :: 0 <= x < |c.closed| ==>
         c.closed[x].endHeight <= base + (if c.open.Some? then StartIndex(c.open.value, base) else last)
  }

  lemma {:induction false} OrderedScan(base: int, states: seq<NodeState>)
    requires |states| > 0 && WalkScan(base, states).Some?
    ensures ScanOrdered(WalkScan(base, states).value, base, |states| - 1)
  {
    var k := |states| - 1;
    if k > 0 {
      var s := states[..k];
      OrderedScan(base, s);
      OpenScan(base, s);
      if states[k - 1] != states[k] {
        StepCloses(WalkScan(base, s).value, base, states);
      }
    }
  }

  // Every run start is recorded, either as closed or as the open one.
  ghost predicate Recorded(c: Scan, base: int, a: int) {
    (c.open.Some? && StartIndex(c.open.value, base) == a)
    || exists x :: 0 <= x < |c.closed| && StartIndex(c.closed[x].start, base) == a
  }

  lemma {:induction false} RecordedScan(base: int, states: seq<NodeState>, a: int)
    requires |states| > 0 && WalkScan(base, states).Some? && RunStart(states, a)
    ensures Recorded(WalkScan(base, states).value, base, a)
  {
    var k := |states| - 1;
    if k > 0 {
      var s := states[..k];
      var c := WalkScan(base, s).value;
      OpenScan(base, s);
      if states[k - 1] != states[k] { StepCloses(c, base, states); }
      if a < k {
        RecordedScan(base, s, a);
        var c' := WalkScan(base, states).value;
        if c.open.Some? && StartIndex(c.open.value, base) == a {
          assert c'.open == c.open || c'.closed[|c.closed|].start == c.open.value;
        } else {
          var x :| 0 <= x < |c.closed| && StartIndex(c.closed[x].start, base) == a;
          assert c'.closed[x] == c.closed[x];
        }
      }
    }
  }

  // The suspensions are the maximal PRESENT_INVALID runs: each records one whole run
  // with its right ending, they ascend without overlap, and every run is recorded.
  lemma SuspensionsAreTheRuns(base: int, states: seq<NodeState>)
    requires |states| > 0 && Rebuild(base, states).Ok?
    ensures var ss := Rebuild(base, states).value.suspensions;
      && Ascending(ss, base)
      && (forall x :: 0 <= x < |ss| ==>
           RecordsEndedRun(ss[x], base, states) || (x == |ss| - 1 && RecordsLastRun(ss[x], base, states)))
      && (forall a :: RunStart(states, a) ==>
           exists x :: 0 <= x < |ss| && StartIndex(ss[x].start, base) == a)
  {
    hide *;
    RebuiltFrom(base, states);
    OpenScan(base, states);
    ClosedScan(base, states);
    OrderedScan(base, states);
    var c := WalkScan(base, states).value;
    var ss := Rebuild(base, states).value.suspensions;
    EachRecordsRun(c, base, states);
    AllAscend(c, base, states);
    forall a | RunStart(states, a) ensures exists x :: 0 <= x < |ss| && StartIndex(ss[x].start, base) == a {
      RecordedScan(base, states, a);
      RecordedInAll(c, base, base + |states| - 1, a);
    }
  }

  lemma RebuiltFrom(base: int, states: seq<NodeState>)
    requires |states| > 0 && Rebuild(base, states).Ok?
    ensures WalkScan(base, states).Some?
    ensures Rebuild(base, states).value.suspensions == AllSuspensions(WalkScan(base, states).value, base + |states| - 1)
  {
    ScanIsWalkScan(base, states);
    hide ScanAll, WalkScan, Transitions;
  }

  function AllSuspensions(c: Scan, end: int): seq<Suspension> {
    c.closed + Close(c.open, end, RangeEnd)
  }

  lemma EachRecordsRun(c: Scan, base: int, states: seq<NodeState>)
    requires |states| > 0 && ClosedMeans(c.closed, base, states) && OpenMeans(c.open, base, states)
    ensures var ss := AllSuspensions(c, base + |states| - 1);
      forall x :: 0 <= x < |ss| ==>
        RecordsEndedRun(ss[x], base, states) || (x == |ss| - 1 && RecordsLastRun(ss[x], base, states))
  {
    hide RecordsEndedRun, NamesRun, InvalidThroughout;
  }

  lemma AllAscend(c: Scan, base: int, states: seq<NodeState>)
    requires |states| > 0 && ScanOrdered(c, base, |states| - 1)
    ensures Ascending(AllSuspensions(c, base + |states| - 1), base)
  {
  }

  lemma RecordedInAll(c: Scan, base: int, end: int, a: int)
    requires Recorded(c, base, a)
    ensures var ss := AllSuspensions(c, end);
      exists x :: 0 <= x < |ss| && StartIndex(ss[x].start, base) == a
  {
    var ss := AllSuspensions(c, end);
    if c.open.Some? && StartIndex(c.open.value, base) == a {
      assert ss[|c.closed|].start == c.open.value;
    } else {
      var x :| 0 <= x < |c.closed| && StartIndex(c.closed[x].start, base) == a;
      assert ss[x] == c.closed[x];
    }
  }

  lemma {:induction false} RunAround(states: seq<NodeState>, k: nat) returns (a: nat)
    requires k < |states| && states[k] == PresentInvalid
    ensures a <= k && RunStart(states, a) && InvalidThroughout(states, a, k)
  {
    if k == 0 || states[k - 1] != PresentInvalid { a := k; } else { a := RunAround(states, k - 1); }
  }

  // A reward height is suspended exactly when the node was banned one height earlier.
  lemma SuspendedIffBanned(base: int, states: seq<NodeState>, H: int)
    requires |states| > 0 && Rebuild(base, states).Ok?
    requires base + 1 <= H <= base + |states| - 1
    ensures SuspendedAt(Rebuild(base, states).value, base, H) <==> states[H - 1 - base] == PresentInvalid
  {
    var ss := Rebuild(base, states).value.suspensions;
    SuspensionsAreTheRuns(base, states);
    hide Rebuild, Ascending, RecordsEndedRun, RecordsLastRun, InvalidThroughout, RunStart, Suspends;
    if states[H - 1 - base] == PresentInvalid {
      var a := RunAround(states, H - 1 - base);
      var x :| 0 <= x < |ss| && StartIndex(ss[x].start, base) == a;
      assert ss[x] in ss;
      RunReaches(base, states, ss[x], a, H);
    }
    if SuspendedAt(Rebuild(base, states).value, base, H) {
      var s :| s in ss && Suspends(s, base, H);
      RunCovers(base, states, s, H);
    }
  }

  // A recorded run that begins no later than a banned index reaches it.
  lemma RunReaches(base: int, states: seq<NodeState>, s: Suspension, a: nat, H: int)
    requires RecordsEndedRun(s, base, states) || RecordsLastRun(s, base, states)
    requires base + 1 <= H <= base + |states| - 1 && a <= H - 1 - base && StartIndex(s.start, base) == a
    requires InvalidThroughout(states, a, H - 1 - base)
    ensures Suspends(s, base, H)
  {
  }

  lemma RunCovers(base: int, states: seq<NodeState>, s: Suspension, H: int)
    requires RecordsEndedRun(s, base, states) || RecordsLastRun(s, base, states)
    requires base + 1 <= H <= base + |states| - 1 && Suspends(s, base, H)
    ensures states[H - 1 - base] == PresentInvalid
  {
  }

  // ---------- losslessness ----------

  // The state at a height, replayed from the base state and the transitions alone.
  function Replay(st0: NodeState, ts: seq<Transition>, height: int): NodeState {
    if |ts| == 0 then st0
    else if ts[|ts| - 1].height <= height then ts[|ts| - 1].to
    else Replay(st0, ts[..|ts| - 1], height)
  }

  lemma {:induction false} TransitionsBelow(base: int, states: seq<NodeState>)
    ensures forall t :: t in Transitions(base, states) ==> base < t.height < base + |states|
  {
    if |states| > 1 { TransitionsBelow(base, states[..|states| - 1]); }
  }

  lemma ReplayAppend(st0: NodeState, ts: seq<Transition>, t: Transition, h: int)
    ensures Replay(st0, ts + [t], h) == if t.height <= h then t.to else Replay(st0, ts, h)
  {
    assert (ts + [t])[..|ts|] == ts;
  }

  lemma ReplayAfterAll(st0: NodeState, ts: seq<Transition>, h: int, h': int)
    requires forall t :: t in ts ==> t.height <= h
    requires h <= h'
    ensures Replay(st0, ts, h) == Replay(st0, ts, h')
  {
    if |ts| > 0 { assert ts[|ts| - 1] in ts; }
  }

  lemma LastTransition(base: int, states: seq<NodeState>)
    requires |states| > 1
    ensures var k := |states| - 1;
      var before := Transitions(base, states[..k]);
      Transitions(base, states) ==
        if states[k - 1] != states[k] then before + [Transition(base + k, states[k - 1], states[k])] else before
  {
    var k := |states| - 1;
    assert Transitions(base, states[..k]) + [] == Transitions(base, states[..k]);
  }

  // Replaying the transitions reproduces every walked state.
  lemma {:induction false} ReplayIsLossless(base: int, states: seq<NodeState>, k: nat)
    requires k < |states|
    ensures Replay(states[0], Transitions(base, states), base + k) == states[k]
  {
    var last := |states| - 1;
    if last > 0 {
      hide *;
      var s := states[..last];
      var ts := Transitions(base, s);
      var j := if k < last then k else last - 1;
      ReplayIsLossless(base, s, j);
      assert s[j] == states[j] && s[0] == states[0];
      LastTransition(base, states);
      if states[last - 1] != states[last] {
        ReplayAppend(states[0], ts, Transition(base + last, states[last - 1], states[last]), base + k);
      } else {
        if k == last {
          TransitionsBelow(base, s);
          ReplayAfterAll(states[0], ts, base + last - 1, base + last);
        }
      }
    }
  }

  // Two walks over the same heights that yield the same journal are the same walk.
  lemma JournalDeterminesWalk(base: int, a: seq<NodeState>, b: seq<NodeState>)
    requires |a| > 0 && |b| > 0 && a[0] == b[0]
    requires Rebuild(base, a).Ok? && Rebuild(base, a) == Rebuild(base, b)
    ensures a == b
  {
    forall k | 0 <= k < |a| ensures a[k] == b[k] {
      ReplayIsLossless(base, a, k);
      ReplayIsLossless(base, b, k);
    }
  }
}
