/**
 Eligibility of a reward height from the list walk and the base package
 (check_vectors.py).  A reward at height H is judged by the node's state at H-1, read
 either from the base package or from the walk row below it.
 */
module Eligibility {
  import opened Outcomes
  import opened Lifecycle

  datatype BaseMode =
    | RangeLocal
    | FirstAppearance(pHeight: int)
    | PreDml(activationHeight: int)

  // A pre-DML base carries no masternode list, so no list root.
  datatype BasePackage = BasePackage(mode: BaseMode, height: int, nodeState: NodeState, listRoot: Option<string>)

  datatype WalkRow = WalkRow(state: NodeState, listRoot: string)

  datatype Evidence = Evidence(
    base: BasePackage, walk: seq<WalkRow>,
    fromHeight: int, toHeight: int, observed: int, chainLock: int)

  datatype EligibilityState =
    | Valid | Invalid | AbsentTerminal | AbsentPreAppearance | AbsentUnknown

  datatype Verdict = Verdict(state: EligibilityState, listRoot: Option<string>)

  datatype Failure = NoWalkRow | BadHeight | BadTerminal | BadAppearance | BadTransition

  function StatesOf(rows: seq<WalkRow>): (r: seq<NodeState>)
    ensures |r| == |rows|
  {
    seq(|rows|, i requires 0 <= i < |rows| => rows[i].state)
  }

  function States(ev: Evidence): (r: seq<NodeState>)
    ensures |r| == |ev.walk| + 1
  {
    [ev.base.nodeState] + StatesOf(ev.walk)
  }

  predicate Consecutive(values: seq<int>, first: int, last: int) {
    && last >= first - 1
    && |values| == last - first + 1
    && forall i :: 0 <= i < |values| ==> values[i] == first + i
  }

  // require_consecutive accepts exactly the full ascending interval, each height once.
  lemma ConsecutiveCoversInterval(values: seq<int>, first: int, last: int, h: int)
    requires Consecutive(values, first, last)
    ensures first <= h <= last <==> h in values
    ensures forall i, j :: 0 <= i < j < |values| ==> values[i] < values[j]
  {
    if first <= h <= last { assert values[h - first] == h; }
  }

  // The range and base-mode checks an envelope passes before any reward is derived.
  predicate RangesAccepted(ev: Evidence) {
    var b := ev.base.height;
    && ev.fromHeight <= ev.toHeight <= ev.chainLock
    && ev.toHeight <= ev.observed <= ev.chainLock
    && |ev.walk| == ev.observed - b
    && (ev.base.mode.PreDml? <==> ev.base.listRoot.None?)
    && match ev.base.mode
       case RangeLocal => ev.fromHeight >= b + 1
       case FirstAppearance(p) =>
         && b == p - 1 && ev.fromHeight >= p
         && (b + 1 <= p <= ev.observed ==> ev.walk[p - (b + 1)].state != Absent)
       case PreDml(act) =>
         && b == act - 1 && ev.fromHeight >= act + 1
         && ev.base.nodeState == Absent
  }

  // Index of the walk row read for reward height H; meaningful only above the base.
  function WalkIndex(ev: Evidence, H: int): int {
    H - 1 - (ev.base.height + 1)
  }

  // The node left the list's absence at or below height h.
  predicate AppearedBy(j: Journal, h: int) {
    exists t :: t in j.transitions && t.from == Absent && t.height <= h
  }

  function AbsentVerdict(mode: BaseMode, j: Journal, hm1: int): EligibilityState {
    if j.terminalHeight.Some? && j.terminalHeight.value <= hm1 then AbsentTerminal
    else match mode
      case FirstAppearance(p) => if hm1 < p then AbsentPreAppearance else AbsentUnknown
      case PreDml(_) => if !AppearedBy(j, hm1) then AbsentPreAppearance else AbsentUnknown
      case RangeLocal => AbsentUnknown
  }

  function Judge(mode: BaseMode, j: Journal, state: NodeState, hm1: int): EligibilityState {
    match state
    case PresentValid => Valid
    case PresentInvalid => Invalid
    case Absent => AbsentVerdict(mode, j, hm1)
  }

  function EligibilityAt(ev: Evidence, j: Journal, H: int): Result<Verdict, Failure> {
    var hm1 := H - 1;
    if hm1 == ev.base.height then
      Ok(Verdict(Judge(ev.base.mode, j, ev.base.nodeState, hm1), ev.base.listRoot))
    else
      var i := WalkIndex(ev, H);
      if 0 <= i < |ev.walk| then
        Ok(Verdict(Judge(ev.base.mode, j, ev.walk[i].state, hm1), Some(ev.walk[i].listRoot)))
      else Err(NoWalkRow)
  }

  // ---------- the deriver, which types what it compares ----------

  predicate TransitionsTyped(ts: seq<Transition>) {
    forall i :: 0 <= i < |ts| ==> SafeHeight(ts[i].height)
  }

  // What is read to judge an absent node: nothing past a terminal height already reached.
  predicate AbsenceTyped(mode: BaseMode, j: Journal, hm1: int) {
    && (j.terminalHeight.Some? ==> Safe(j.terminalHeight.value))
    && ((j.terminalHeight.Some? && j.terminalHeight.value <= hm1) ||
        match mode
        case FirstAppearance(p) => Safe(p)
        case PreDml(_) => TransitionsTyped(j.transitions)
        case RangeLocal => true)
  }

  predicate StateTyped(mode: BaseMode, j: Journal, state: NodeState, hm1: int) {
    SafeHeight(hm1) && (state == Absent ==> AbsenceTyped(mode, j, hm1))
  }

  // deriveEligibility: the checker's state, refused when something it compares is untyped.
  method DeriveState(mode: BaseMode, j: Journal, state: NodeState, hm1: int)
    returns (r: Result<EligibilityState, Failure>)
    ensures r.Ok? <==> StateTyped(mode, j, state, hm1)
    ensures r.Ok? ==> r.value == Judge(mode, j, state, hm1)
  {
    if !SafeHeight(hm1) { return Err(BadHeight); }
    if state != Absent { return Ok(if state == PresentValid then Valid else Invalid); }
    if j.terminalHeight.Some? && !Safe(j.terminalHeight.value) { return Err(BadTerminal); }
    if j.terminalHeight.Some? && j.terminalHeight.value <= hm1 { return Ok(AbsentTerminal); }
    match mode {
      case FirstAppearance(p) =>
        if !Safe(p) { return Err(BadAppearance); }
        if hm1 < p { return Ok(AbsentPreAppearance); }
      case PreDml(_) =>
        var typed := AssertTransitions(j.transitions);
        if !typed { return Err(BadTransition); }
        var appeared := FindAppearance(j.transitions, hm1);
        if !appeared { return Ok(AbsentPreAppearance); }
      case RangeLocal =>
    }
    return Ok(AbsentUnknown);
  }

  method AssertTransitions(ts: seq<Transition>) returns (ok: bool)
    ensures ok <==> TransitionsTyped(ts)
  {
    for i := 0 to |ts|
      invariant TransitionsTyped(ts[..i])
    {
      if !SafeHeight(ts[i].height) { return false; }
    }
    return true;
  }

  method FindAppearance(ts: seq<Transition>, h: int) returns (found: bool)
    ensures found <==> exists t :: t in ts && t.from == Absent && t.height <= h
  {
    for i := 0 to |ts|
      invariant forall k :: 0 <= k < i ==> !(ts[k].from == Absent && ts[k].height <= h)
    {
      if ts[i].from == Absent && ts[i].height <= h { return true; }
    }
    return false;
  }

  // The state the walk shows one height below H.
  function StateBelow(ev: Evidence, H: int): Option<(NodeState, Option<string>)> {
    if H - 1 == ev.base.height then Some((ev.base.nodeState, ev.base.listRoot))
    else
      var i := WalkIndex(ev, H);
      if 0 <= i < |ev.walk| then Some((ev.walk[i].state, Some(ev.walk[i].listRoot))) else None
  }

  predicate HeightTyped(ev: Evidence, j: Journal, H: int) {
    StateBelow(ev, H).Some? ==> StateTyped(ev.base.mode, j, StateBelow(ev, H).value.0, H - 1)
  }

  // The verdict at H is the checker's, with the same missing rows, where everything is typed.
  method DeriveEligibility(ev: Evidence, j: Journal, H: int) returns (r: Result<Verdict, Failure>)
    ensures r.Ok? <==> EligibilityAt(ev, j, H).Ok? && HeightTyped(ev, j, H)
    ensures r.Ok? ==> r == EligibilityAt(ev, j, H)
  {
    hide StateTyped, Judge;
    var below := StateBelow(ev, H);
    if below.None? { return Err(NoWalkRow); }
    var state := DeriveState(ev.base.mode, j, below.value.0, H - 1);
    if state.Err? { return Err(state.error); }
    return Ok(Verdict(state.value, below.value.1));
  }

  // A journal rebuilt from a walk between safe heights is typed wherever it is read.
  lemma CheckedHeightTyped(ev: Evidence, j: Journal, H: int)
    requires RangesAccepted(ev) && ev.fromHeight <= H <= ev.toHeight
    requires Rebuild(ev.base.height, States(ev)) == Ok(j)
    requires SafeHeight(ev.base.height) && SafeHeight(ev.observed + 1)
    requires j.terminalHeight.Some? ==> Safe(j.terminalHeight.value)
    ensures HeightTyped(ev, j, H)
  {
    var base, states := ev.base.height, States(ev);
    assert j.transitions == Transitions(base, states);
    hide Rebuild, Transitions;
    forall i | 0 <= i < |j.transitions| ensures SafeHeight(j.transitions[i].height) {
      TransitionIsReal(base, states, j.transitions[i]);
    }
  }

  // ---------- what a verdict means ----------

  // The row index is never negative or past the end, and a list root is always defined.
  lemma WalkIndexInBounds(ev: Evidence, j: Journal, H: int)
    requires RangesAccepted(ev) && ev.fromHeight <= H <= ev.toHeight
    ensures H - 1 != ev.base.height ==> 0 <= WalkIndex(ev, H) < |ev.walk|
    ensures EligibilityAt(ev, j, H).Ok? && EligibilityAt(ev, j, H).value.listRoot.Some?
  {
  }

  lemma {:induction false} TransitionRecorded(base: int, states: seq<NodeState>, k: nat)
    requires 0 < k < |states| && states[k - 1] != states[k]
    ensures Transition(base + k, states[k - 1], states[k]) in Transitions(base, states)
  {
    if k < |states| - 1 { TransitionRecorded(base, states[..|states| - 1], k); }
  }

  lemma {:induction false} TransitionIsReal(base: int, states: seq<NodeState>, t: Transition)
    requires t in Transitions(base, states)
    ensures 0 < t.height - base < |states|
    ensures t.from == states[t.height - base - 1] != states[t.height - base] == t.to
  {
    var k := |states| - 1;
    if t in Transitions(base, states[..k]) { TransitionIsReal(base, states[..k], t); }
  }

  lemma {:induction false} FirstPresence(states: seq<NodeState>, k: nat) returns (m: nat)
    requires k < |states| && states[0] == Absent && states[k] != Absent
    ensures 0 < m <= k && states[m - 1] == Absent && states[m] != Absent
  {
    if states[k - 1] == Absent { m := k; } else { m := FirstPresence(states, k - 1); }
  }

  lemma AppearedIffPresent(base: int, states: seq<NodeState>, h: nat)
    requires |states| > 0 && Rebuild(base, states).Ok? && states[0] == Absent && h < |states|
    ensures AppearedBy(Rebuild(base, states).value, base + h) <==> PresentBefore(states, h + 1)
  {
    var j := Rebuild(base, states).value;
    if t :| t in j.transitions && t.from == Absent && t.height <= base + h {
      TransitionIsReal(base, states, t);
      assert states[t.height - base] != Absent;
    }
    if k :| 0 <= k < h + 1 && states[k] != Absent {
      var m := FirstPresence(states, k);
      TransitionRecorded(base, states, m);
      assert Transition(base + m, Absent, states[m]) in j.transitions;
    }
  }

  // The list a verdict rests on is the one walked at H-1, or the base's own.
  lemma RootBelow(ev: Evidence, j: Journal, H: int)
    requires RangesAccepted(ev) && ev.fromHeight <= H <= ev.toHeight
    ensures var h := H - 1 - ev.base.height;
      && 0 <= h <= |ev.walk| && EligibilityAt(ev, j, H).Ok?
      && EligibilityAt(ev, j, H).value.listRoot ==
           if h == 0 then ev.base.listRoot else Some(ev.walk[h - 1].listRoot)
  {
    hide Judge;
  }

  // What each verdict means about the walk: it names the list read at H-1, terminal absence
  // is absence after presence, and absence never preceded by presence is unknown only under
  // a range-local base.
  lemma EligibilityMeaning(ev: Evidence, j: Journal, H: int)
    requires RangesAccepted(ev) && ev.fromHeight <= H <= ev.toHeight
    requires Rebuild(ev.base.height, States(ev)) == Ok(j)
    ensures EligibilityAt(ev, j, H).Ok?
    ensures var states, h := States(ev), H - 1 - ev.base.height;
      0 <= h < |states| &&
      EligibilityAt(ev, j, H).value.state ==
        match states[h]
        case PresentValid => Valid
        case PresentInvalid => Invalid
        case Absent =>
          if PresentBefore(states, h) then AbsentTerminal
          else if ev.base.mode.RangeLocal? then AbsentUnknown
          else AbsentPreAppearance
    ensures var h := H - 1 - ev.base.height;
      0 <= h <= |ev.walk| && EligibilityAt(ev, j, H).value.listRoot ==
        if h == 0 then ev.base.listRoot else Some(ev.walk[h - 1].listRoot)
  {
    hide *;
    StateJudged(ev, j, H);
    RootBelow(ev, j, H);
    JudgeMeaning(ev, j, H);
  }

  lemma StateJudged(ev: Evidence, j: Journal, H: int)
    requires RangesAccepted(ev) && ev.fromHeight <= H <= ev.toHeight
    ensures var h := H - 1 - ev.base.height;
      && 0 <= h < |States(ev)| && EligibilityAt(ev, j, H).Ok?
      && EligibilityAt(ev, j, H).value.state == Judge(ev.base.mode, j, States(ev)[h], H - 1)
  {
    hide Judge;
  }

  lemma JudgeMeaning(ev: Evidence, j: Journal, H: int)
    requires RangesAccepted(ev) && ev.fromHeight <= H <= ev.toHeight
    requires Rebuild(ev.base.height, States(ev)) == Ok(j)
    ensures var states, h := States(ev), H - 1 - ev.base.height;
      0 <= h < |states| &&
      Judge(ev.base.mode, j, states[h], H - 1) ==
        match states[h]
        case PresentValid => Valid
        case PresentInvalid => Invalid
        case Absent =>
          if PresentBefore(states, h) then AbsentTerminal
          else if ev.base.mode.RangeLocal? then AbsentUnknown
          else AbsentPreAppearance
  {
    var base, states, h := ev.base.height, States(ev), H - 1 - ev.base.height;
    if states[h] == Absent {
      TerminalIffRemoved(base, states, H);
      hide Rebuild;
      match ev.base.mode
      case RangeLocal =>
      case FirstAppearance(p) =>
        if H - 1 >= p { assert states[p - base] != Absent; }
      case PreDml(_) =>
        AppearedIffPresent(base, states, h);
        hide AppearedBy;
    }
  }

  // An unknown eligibility arises exactly under a range-local base whose node has been
  // absent at every height from the base up to H-1.
  lemma UnknownOnlyRangeLocal(ev: Evidence, j: Journal, H: int)
    requires RangesAccepted(ev) && ev.fromHeight <= H <= ev.toHeight
    requires Rebuild(ev.base.height, States(ev)) == Ok(j)
    ensures EligibilityAt(ev, j, H).Ok?
    ensures EligibilityAt(ev, j, H).value.state == AbsentUnknown <==>
      ev.base.mode.RangeLocal? && !PresentBefore(States(ev), H - ev.base.height)
  {
    EligibilityMeaning(ev, j, H);
    var states, h := States(ev), H - 1 - ev.base.height;
    if states[h] != Absent { assert PresentBefore(states, h + 1); }
    if PresentBefore(states, h) {
      var k :| 0 <= k < h && states[k] != Absent;
      assert PresentBefore(states, h + 1);
    }
  }
}
