/**
 The cast-verification decision core (castVerify.cjs).  Deviations and stales decide the
 verdict; notes surface findings.  Rebuilding a tally from a snapshot's rows and hashing
 a vote are functions of the case, undefined where the original throws.
 */
module CastVerify {
  import opened Outcomes

  const VOTE_TIME_GRACE_SECONDS := 3600
  const CLOCK_SKEW_ALLOWANCE_SECONDS := 300
  const DEFAULT_MAX_OBSERVATIONS := 2000

  const NO_OUTCOME := "none"
  const NO_SIGNAL := "-"

  function ZeroDigits(k: nat): (s: string)
    ensures |s| == k && forall i :: 0 <= i < k ==> s[i] == '0'
  {
    if k == 0 then "" else ZeroDigits(k - 1) + "0"
  }

  const ZERO_HASH := ZeroDigits(64)

  datatype Snapshot = Snapshot(id: string, owner: string, createdAt: int, tallyHash: string, outcome: string,
                               proTx: string, platformHeight: int, rows: string, formatVersion: nat)

  datatype Kind = Cast | Missed

  datatype Receipt = Receipt(kind: Kind, id: string, owner: string, snapshotId: string, voteHash: string,
                             voteOutcome: string, voteTimestamp: int, voteSignal: string, proTx: string)

  datatype Vote = Vote(voteHash: string, outcome: string, signal: string, time: int)

  datatype Observation = Observation(id: string, owner: string, createdAt: int, voteHash: string, voteOutcome: string,
                                     voteSignal: string, voteTimestamp: int, proTx: string)

  datatype Rebuilt = Rebuilt(hash: string, outcome: string)

  // Everything the verdict may depend on.
  datatype Case = Case(operator: string, proTx: string, members: set<string>, tallyOutcome: string, tallyHash: string,
                       snapshots: seq<Snapshot>, receipts: seq<Receipt>, current: Option<Vote>, nowHeight: int,
                       rebuild: (string, nat) -> Option<Rebuilt>, hashVote: (string, string, int) -> Option<string>)

  // What members report, which the verdict must not depend on.
  datatype Observing = Observing(observations: seq<Observation>, truncatedOwners: nat, slotsSkipped: nat,
                                 maxObservations: Option<nat>, skew: Option<int>)

  const NOTHING_OBSERVED := Observing([], 0, 0, None, None)

  datatype Deviation =
    | SnapshotSigner(id: string) | SnapshotNode(id: string) | SnapshotRows(id: string)
    | SnapshotHash(id: string) | SnapshotOutcome(id: string)
    | MissedSigner(id: string) | MissedNode(id: string) | MissedHash(id: string) | MissedOutcome(id: string)
    | MissedSignal(id: string) | MissedUnknown(id: string) | MissedEarly(id: string)
    | ReceiptSigner(id: string) | ReceiptNode(id: string) | ReceiptUnhashable(id: string) | ReceiptHash(id: string)
    | ReceiptUnknown(id: string) | ReceiptOfNone(id: string) | ReceiptOutcome(id: string) | ReceiptTime(id: string)
    | Unattested | CurrentOutcome(id: string) | CurrentSignal(id: string) | CurrentTime(id: string)
    | NoVote | NoSnapshot

  datatype Stale = TallyMoved | VoteDiffers | VoteWithheld

  datatype Note =
    | CapHit(slots: nat) | SlotsSkipped(slots: nat) | TooMany(unexamined: int)
    | OtherNode(id: string) | NotReproduced(id: string) | Implausible(id: string)
    | HeightAhead(id: string) | AttestedMissed(id: string) | SuspectOrdering(receipt: Receipt)
    | Abandoned(snapshotId: string) | Orphan(voteHash: string) | NonMember(voteHash: string)
    | VoteGone(receipts: nat) | CompositionMoved

  function When<T>(b: bool, x: T): seq<T> {
    if b then [x] else []
  }

  // ---------- snapshots ----------

  function Format(o: Snapshot): nat {
    if o.formatVersion == 0 then 1 else o.formatVersion
  }

  function SnapshotDeviations(c: Case, o: Snapshot): seq<Deviation> {
    When(o.owner != c.operator, SnapshotSigner(o.id))
    + When(o.proTx != c.proTx, SnapshotNode(o.id))
    + match c.rebuild(o.rows, Format(o)) {
        case None => [SnapshotRows(o.id)]
        case Some(b) =>
          When(b.hash != o.tallyHash, SnapshotHash(o.id)) +
          When(b.outcome != o.outcome, SnapshotOutcome(o.id))
      }
  }

  // The validity kept for each snapshot id once the first k snapshots are checked: an id
  // is checked when it is first met and never again.
  function Memo(c: Case, k: nat): map<string, bool>
    requires k <= |c.snapshots|
  {
    if k == 0 then map[]
    else
      var o, memo := c.snapshots[k - 1], Memo(c, k - 1);
      if o.id in memo then memo else memo[o.id := SnapshotDeviations(c, o) == []]
  }

  function SnapshotPass(c: Case, k: nat): seq<Deviation>
    requires k <= |c.snapshots|
  {
    if k == 0 then []
    else
      var o := c.snapshots[k - 1];
      SnapshotPass(c, k - 1) + if o.id in Memo(c, k - 1) then [] else SnapshotDeviations(c, o)
  }

  // Of two snapshots with one id the later is kept.
  function ById(snapshots: seq<Snapshot>): map<string, Snapshot> {
    if |snapshots| == 0 then map[]
    else
      var k := |snapshots| - 1;
      ById(snapshots[..k])[snapshots[k].id := snapshots[k]]
  }

  lemma {:induction false} ByIdKnown(snapshots: seq<Snapshot>, id: string)
    ensures id in ById(snapshots) ==> ById(snapshots)[id].id == id && ById(snapshots)[id] in snapshots
    ensures id in ById(snapshots) <==> exists o :: o in snapshots && o.id == id
  {
    if |snapshots| > 0 {
      var k := |snapshots| - 1;
      ByIdKnown(snapshots[..k], id);
      assert snapshots == snapshots[..k] + [snapshots[k]];
    }
  }

  function Latest(c: Case): Option<Snapshot> {
    if |c.snapshots| == 0 then None else Some(c.snapshots[|c.snapshots| - 1])
  }

  // ---------- receipts ----------

  function MissedDeviations(c: Case, r: Receipt): seq<Deviation> {
    When(r.owner != c.operator, MissedSigner(r.id))
    + When(r.proTx != c.proTx, MissedNode(r.id))
    + When(r.voteHash != ZERO_HASH, MissedHash(r.id))
    + When(r.voteOutcome != NO_OUTCOME, MissedOutcome(r.id))
    + When(r.voteSignal != NO_SIGNAL, MissedSignal(r.id))
    + if r.snapshotId !in ById(c.snapshots) then [MissedUnknown(r.id)]
      else When(r.voteTimestamp * 1000 < ById(c.snapshots)[r.snapshotId].createdAt, MissedEarly(r.id))
  }

  function HashDeviations(c: Case, r: Receipt): seq<Deviation> {
    match c.hashVote(r.voteSignal, r.voteOutcome, r.voteTimestamp)
    case None => [ReceiptUnhashable(r.id)]
    case Some(h) => When(h != r.voteHash, ReceiptHash(r.id))
  }

  function CommitmentDeviations(c: Case, r: Receipt, o: Snapshot): seq<Deviation> {
    (if o.outcome == NO_OUTCOME then [ReceiptOfNone(r.id)] else When(o.outcome != r.voteOutcome, ReceiptOutcome(r.id)))
    + When(o.createdAt > (r.voteTimestamp + VOTE_TIME_GRACE_SECONDS) * 1000, ReceiptTime(r.id))
  }

  function CastDeviations(c: Case, r: Receipt): seq<Deviation> {
    When(r.owner != c.operator, ReceiptSigner(r.id))
    + When(r.proTx != c.proTx, ReceiptNode(r.id))
    + HashDeviations(c, r)
    + if r.snapshotId !in ById(c.snapshots) then [ReceiptUnknown(r.id)]
      else CommitmentDeviations(c, r, ById(c.snapshots)[r.snapshotId])
  }

  function ReceiptDeviations(c: Case, r: Receipt): seq<Deviation> {
    if r.kind == Missed then MissedDeviations(c, r) else CastDeviations(c, r)
  }

  // Only a receipt that passed every check marks its snapshot as dealt with.
  predicate Clean(c: Case, r: Receipt) {
    && ReceiptDeviations(c, r) == []
    && (r.kind == Missed ==> r.snapshotId in Memo(c, |c.snapshots|) && Memo(c, |c.snapshots|)[r.snapshotId])
  }

  function ReceiptPass(c: Case, k: nat): seq<Deviation>
    requires k <= |c.receipts|
  {
    if k == 0 then [] else ReceiptPass(c, k - 1) + ReceiptDeviations(c, c.receipts[k - 1])
  }

  function Referenced(c: Case, k: nat): set<string>
    requires k <= |c.receipts|
  {
    if k == 0 then {}
    else
      var r := c.receipts[k - 1];
      Referenced(c, k - 1) + if Clean(c, r) then {r.snapshotId} else {}
  }

  // ---------- the current vote ----------

  function Attesting(receipts: seq<Receipt>, voteHash: string): (r: Option<Receipt>)
    ensures r.Some? ==> r.value in receipts && r.value.voteHash == voteHash
    ensures r.None? ==> forall x :: x in receipts ==> x.voteHash != voteHash
  {
    if |receipts| == 0 then None
    else if receipts[0].voteHash == voteHash then Some(receipts[0])
    else
      assert forall x :: x in receipts ==> x == receipts[0] || x in receipts[1..];
      Attesting(receipts[1..], voteHash)
  }

  function VoteDeviations(c: Case): seq<Deviation> {
    match c.current
    case Some(v) =>
      (match Attesting(c.receipts, v.voteHash)
       case None => [Unattested]
       case Some(r) =>
         When(r.voteOutcome != v.outcome, CurrentOutcome(r.id))
         + When(r.voteSignal != v.signal, CurrentSignal(r.id))
         + When(r.voteTimestamp != v.time, CurrentTime(r.id)))
    case None => When(Latest(c).Some? && Latest(c).value.outcome != NO_OUTCOME, NoVote)
  }

  function Deviations(c: Case): seq<Deviation> {
    SnapshotPass(c, |c.snapshots|) + ReceiptPass(c, |c.receipts|) + VoteDeviations(c)
    + When(Latest(c).None? && (c.current.Some? || c.tallyOutcome != NO_OUTCOME), NoSnapshot)
  }

  function Stales(c: Case): seq<Stale> {
    When(Latest(c).Some? && Latest(c).value.tallyHash != c.tallyHash &&
         Latest(c).value.outcome != c.tallyOutcome, TallyMoved)
    + When(c.current.Some? && c.tallyOutcome != NO_OUTCOME && c.current.value.outcome != c.tallyOutcome, VoteDiffers)
    + When(c.current.Some? && c.tallyOutcome == NO_OUTCOME, VoteWithheld)
  }

  // ---------- observations ----------

  predicate InTime(a: Observation, b: Observation) {
    a.createdAt <= b.createdAt
  }

  // Stable insertion: x goes after everything created no later.
  function InsertByTime(s: seq<Observation>, x: Observation): seq<Observation> {
    if |s| == 0 || InTime(s[|s| - 1], x) then s + [x] else InsertByTime(s[..|s| - 1], x) + [s[|s| - 1]]
  }

  function SortByTime(s: seq<Observation>): seq<Observation> {
    if |s| == 0 then [] else InsertByTime(SortByTime(s[..|s| - 1]), s[|s| - 1])
  }

  function Bound(i: Observing): nat {
    if i.maxObservations.Some? then i.maxObservations.value else DEFAULT_MAX_OBSERVATIONS
  }

  function Skew(i: Observing): int {
    if i.skew.Some? then i.skew.value else CLOCK_SKEW_ALLOWANCE_SECONDS
  }

  function Examined(i: Observing): seq<Observation> {
    SortLength(i.observations);
    if |i.observations| > Bound(i) then SortByTime(i.observations)[..Bound(i)] else i.observations
  }

  lemma {:induction false} InsertLength(s: seq<Observation>, x: Observation)
    ensures |InsertByTime(s, x)| == |s| + 1
  {
    if |s| > 0 { InsertLength(s[..|s| - 1], x); }
  }

  lemma {:induction false} SortLength(s: seq<Observation>)
    ensures |SortByTime(s)| == |s|
  {
    if |s| > 0 {
      SortLength(s[..|s| - 1]);
      InsertLength(SortByTime(s[..|s| - 1]), s[|s| - 1]);
    }
  }

  // Names this masternode, reproduces its vote hash, and is not of a vote dated too far ahead.
  predicate Plausible(c: Case, i: Observing, ob: Observation) {
    && ob.proTx == c.proTx
    && c.hashVote(ob.voteSignal, ob.voteOutcome, ob.voteTimestamp) == Some(ob.voteHash)
    && ob.voteTimestamp * 1000 <= ob.createdAt + (VOTE_TIME_GRACE_SECONDS + Skew(i)) * 1000
  }

  // The plausible observations of one vote hash among the first k examined, in arrival order.
  function Arrived(c: Case, i: Observing, k: nat, h: string): seq<Observation>
    requires k <= |Examined(i)|
  {
    if k == 0 then []
    else
      var ob := Examined(i)[k - 1];
      Arrived(c, i, k - 1, h) + When(Plausible(c, i, ob) && ob.voteHash == h, ob)
  }

  predicate Member(c: Case, ob: Observation) {
    ob.owner in c.members
  }

  function FirstMember(c: Case, s: seq<Observation>): Option<Observation> {
    if |s| == 0 then None else if Member(c, s[0]) then Some(s[0]) else FirstMember(c, s[1..])
  }

  // A current member plausibly observed the vote of this receipt before its snapshot.
  predicate Predates(c: Case, i: Observing, r: Receipt) {
    && r.kind == Cast && r.snapshotId in ById(c.snapshots)
    && exists ob :: ob in Examined(i) && Plausible(c, i, ob) && ob.voteHash == r.voteHash && Member(c, ob)
         && ob.createdAt < ById(c.snapshots)[r.snapshotId].createdAt
  }

  // A current member plausibly observed a vote that no receipt attests.
  predicate Orphaned(c: Case, i: Observing, h: string) {
    && (exists ob :: ob in Examined(i) && Plausible(c, i, ob) && ob.voteHash == h && Member(c, ob))
    && forall r :: r in c.receipts ==> r.voteHash != h
  }

  // ---------- notes ----------

  // What a loop pushes that may push one note for each element.
  function Collect<T>(xs: seq<T>, k: nat, f: T -> Option<Note>): seq<Note>
    requires k <= |xs|
  {
    if k == 0 then [] else Collect(xs, k - 1, f) + Pushed(f(xs[k - 1]))
  }

  function Pushed(n: Option<Note>): seq<Note> {
    if n.Some? then [n.value] else []
  }

  function CapNotes(i: Observing): seq<Note> {
    When(i.truncatedOwners > 0, CapHit(i.truncatedOwners))
    + When(i.slotsSkipped > 0, SlotsSkipped(i.slotsSkipped))
    + When(|i.observations| > Bound(i), TooMany(|i.observations| - Bound(i)))
  }

  // Why an observation is ignored, if it is.
  function IgnoredAs(c: Case, i: Observing, ob: Observation): Option<Note> {
    if ob.proTx != c.proTx then Some(OtherNode(ob.id))
    else if c.hashVote(ob.voteSignal, ob.voteOutcome, ob.voteTimestamp) != Some(ob.voteHash) then
      Some(NotReproduced(ob.id))
    else if !Plausible(c, i, ob) then Some(Implausible(ob.id))
    else None
  }

  function HeightNote(c: Case, o: Snapshot): Option<Note> {
    if 0 < c.nowHeight < o.platformHeight then Some(HeightAhead(o.id)) else None
  }

  function ReceiptNote(c: Case, i: Observing, r: Receipt): Option<Note> {
    if r.kind == Missed then (if Clean(c, r) then Some(AttestedMissed(r.id)) else None)
    else if Predates(c, i, r) then Some(SuspectOrdering(r))
    else None
  }

  // No cleanly verifying receipt, cast or missed, deals with this snapshot, and it is not the latest.
  function AbandonedNote(c: Case, o: Snapshot): Option<Note> {
    if o.id !in Referenced(c, |c.receipts|) && (Latest(c).None? || o.id != Latest(c).value.id)
    then Some(Abandoned(o.id))
    else None
  }

  function UnattestedNote(c: Case, i: Observing, h: string): Option<Note> {
    if exists r :: r in c.receipts && r.voteHash == h then None
    else if Orphaned(c, i, h) then Some(Orphan(h))
    else Some(NonMember(h))
  }

  // The vote hashes plausibly observed among the first k examined, as they are first met.
  function Heard(c: Case, i: Observing, k: nat): seq<string>
    requires k <= |Examined(i)|
  {
    if k == 0 then []
    else
      var ob, before := Examined(i)[k - 1], Heard(c, i, k - 1);
      before + When(Plausible(c, i, ob) && ob.voteHash !in before, ob.voteHash)
  }

  function Screening(c: Case, i: Observing): Observation -> Option<Note> {
    (ob: Observation) => IgnoredAs(c, i, ob)
  }

  function Heights(c: Case): Snapshot -> Option<Note> {
    (o: Snapshot) => HeightNote(c, o)
  }

  function Receipting(c: Case, i: Observing): Receipt -> Option<Note> {
    (r: Receipt) => ReceiptNote(c, i, r)
  }

  function Abandoning(c: Case): Snapshot -> Option<Note> {
    (o: Snapshot) => AbandonedNote(c, o)
  }

  function Unattesting(c: Case, i: Observing): string -> Option<Note> {
    (h: string) => UnattestedNote(c, i, h)
  }

  function VoteNotes(c: Case): seq<Note> {
    When(c.current.None? && |c.receipts| > 0, VoteGone(|c.receipts|))
  }

  function FreshNotes(c: Case): seq<Note> {
    When(Latest(c).Some? && Latest(c).value.tallyHash != c.tallyHash && Latest(c).value.outcome == c.tallyOutcome,
         CompositionMoved)
  }

  // All notes, in the order they are pushed.
  function Notes(c: Case, i: Observing): seq<Note> {
    CapNotes(i)
    + Collect(Examined(i), |Examined(i)|, Screening(c, i))
    + Collect(c.snapshots, |c.snapshots|, Heights(c))
    + Collect(c.receipts, |c.receipts|, Receipting(c, i))
    + Collect(c.snapshots, |c.snapshots|, Abandoning(c))
    + Collect(Heard(c, i, |Examined(i)|), |Heard(c, i, |Examined(i)|)|, Unattesting(c, i))
    + VoteNotes(c)
    + FreshNotes(c)
  }

  // ---------- order and membership of observations ----------

  predicate Sorted(s: seq<Observation>) {
    forall i, j :: 0 <= i < j < |s| ==> InTime(s[i], s[j])
  }

  lemma {:induction false} InsertKeeps(s: seq<Observation>, x: Observation, y: Observation)
    ensures y in InsertByTime(s, x) <==> y in s || y == x
  {
    if |s| > 0 && !InTime(s[|s| - 1], x) {
      InsertKeeps(s[..|s| - 1], x, y);
      assert s == s[..|s| - 1] + [s[|s| - 1]];
    }
  }

  lemma SortedAppend(s: seq<Observation>, z: Observation)
    requires Sorted(s) && forall y :: y in s ==> InTime(y, z)
    ensures Sorted(s + [z])
  {
  }

  lemma {:induction false} InsertSorts(s: seq<Observation>, x: Observation)
    requires Sorted(s)
    ensures Sorted(InsertByTime(s, x))
  {
    if |s| > 0 {
      var k := |s| - 1;
      assert forall y :: y in s ==> InTime(y, s[k]);
      if InTime(s[k], x) {
        SortedAppend(s, x);
      } else {
        InsertSorts(s[..k], x);
        forall y | y in InsertByTime(s[..k], x) ensures InTime(y, s[k]) {
          InsertKeeps(s[..k], x, y);
        }
        SortedAppend(InsertByTime(s[..k], x), s[k]);
      }
    }
  }

  lemma {:induction false} SortMembers(s: seq<Observation>, y: Observation)
    ensures y in SortByTime(s) <==> y in s
  {
    if |s| > 0 {
      var k := |s| - 1;
      SortMembers(s[..k], y);
      InsertKeeps(SortByTime(s[..k]), s[k], y);
      assert s == s[..k] + [s[k]];
    }
  }

  lemma {:induction false} SortSorts(s: seq<Observation>)
    ensures Sorted(SortByTime(s))
  {
    if |s| > 0 {
      SortSorts(s[..|s| - 1]);
      InsertSorts(SortByTime(s[..|s| - 1]), s[|s| - 1]);
    }
  }

  lemma {:induction false} FirstMemberIsEarliest(c: Case, s: seq<Observation>)
    requires Sorted(s)
    ensures FirstMember(c, s).Some? <==> exists ob :: ob in s && Member(c, ob)
    ensures FirstMember(c, s).Some? ==> FirstMember(c, s).value in s && Member(c, FirstMember(c, s).value)
    ensures FirstMember(c, s).Some? ==> forall ob :: ob in s && Member(c, ob) ==> InTime(FirstMember(c, s).value, ob)
  {
    if |s| > 0 {
      assert s == [s[0]] + s[1..];
      assert forall ob :: ob in s ==> InTime(s[0], ob);
      if !Member(c, s[0]) { FirstMemberIsEarliest(c, s[1..]); }
    }
  }

  lemma {:induction false} ArrivedMembers(c: Case, i: Observing, k: nat, h: string, ob: Observation)
    requires k <= |Examined(i)|
    ensures ob in Arrived(c, i, k, h) <==> ob in Examined(i)[..k] && Plausible(c, i, ob) && ob.voteHash == h
  {
    if k > 0 {
      ArrivedMembers(c, i, k - 1, h, ob);
      assert Examined(i)[..k] == Examined(i)[..k - 1] + [Examined(i)[k - 1]];
      hide Plausible, Examined;
    }
  }

  // What the kept list of a vote hash says about the observations.
  lemma KeptMembers(c: Case, i: Observing, h: string)
    ensures var kept := SortByTime(Arrived(c, i, |Examined(i)|, h));
      && Sorted(kept)
      && forall ob :: ob in kept <==> ob in Examined(i) && Plausible(c, i, ob) && ob.voteHash == h
  {
    var all := Examined(i);
    var arrived := Arrived(c, i, |all|, h);
    SortSorts(arrived);
    assert all[..|all|] == all;
    forall ob
      ensures ob in SortByTime(arrived) <==> ob in all && Plausible(c, i, ob) && ob.voteHash == h
    {
      SortMembers(arrived, ob);
      ArrivedMembers(c, i, |all|, h, ob);
    }
  }

  // ---------- the verification ----------

  // The observation lists the loop has built after k observations.
  ghost predicate Arriving(c: Case, i: Observing, k: nat, byVote: map<string, seq<Observation>>)
    requires k <= |Examined(i)|
  {
    forall h :: (h in byVote <==> Arrived(c, i, k, h) != []) && (h in byVote ==> byVote[h] == Arrived(c, i, k, h))
  }

  ghost predicate Kept(c: Case, i: Observing, byVote: map<string, seq<Observation>>) {
    forall h ::
      var arrived := Arrived(c, i, |Examined(i)|, h);
      (h in byVote <==> arrived != []) && (h in byVote ==> byVote[h] == SortByTime(arrived))
  }

  function Get(byVote: map<string, seq<Observation>>, h: string): seq<Observation> {
    if h in byVote then byVote[h] else []
  }

  lemma Arrive(c: Case, i: Observing, k: nat, byVote: map<string, seq<Observation>>)
    requires k < |Examined(i)| && Arriving(c, i, k, byVote)
    ensures var ob := Examined(i)[k];
      Arriving(c, i, k + 1,
               if Plausible(c, i, ob) then byVote[ob.voteHash := Get(byVote, ob.voteHash) + [ob]] else byVote)
  {
    var ob := Examined(i)[k];
    hide Examined, Plausible;
    forall h
      ensures Arrived(c, i, k + 1, h) == Arrived(c, i, k, h) + When(Plausible(c, i, ob) && ob.voteHash == h, ob)
    {
    }
  }

  lemma KeptAt(c: Case, i: Observing, byVote: map<string, seq<Observation>>, h: string)
    requires Kept(c, i, byVote)
    ensures Get(byVote, h) == SortByTime(Arrived(c, i, |Examined(i)|, h))
  {
  }

  // The earliest member observation is before a moment exactly when some member observation is.
  lemma EarlierObservation(c: Case, i: Observing, byVote: map<string, seq<Observation>>, h: string, t: int)
    requires Kept(c, i, byVote)
    ensures FirstMember(c, Get(byVote, h)).Some? <==>
      exists ob :: ob in Examined(i) && Plausible(c, i, ob) && ob.voteHash == h && Member(c, ob)
    ensures FirstMember(c, Get(byVote, h)).Some? && FirstMember(c, Get(byVote, h)).value.createdAt < t <==>
      exists ob :: ob in Examined(i) && Plausible(c, i, ob) && ob.voteHash == h && Member(c, ob) && ob.createdAt < t
  {
    var kept := Get(byVote, h);
    KeptAt(c, i, byVote, h);
    KeptMembers(c, i, h);
    FirstMemberIsEarliest(c, kept);
    hide Examined, Plausible, Member, FirstMember, Arrived, SortByTime, Kept;
  }

  method Screen(c: Case, i: Observing)
    returns (notes: seq<Note>, byVote: map<string, seq<Observation>>, order: seq<string>)
    ensures Kept(c, i, byVote) && order == Heard(c, i, |Examined(i)|)
    ensures notes == CapNotes(i) + Collect(Examined(i), |Examined(i)|, Screening(c, i))
  {
    notes := When(i.truncatedOwners > 0, CapHit(i.truncatedOwners));
    notes := notes + When(i.slotsSkipped > 0, SlotsSkipped(i.slotsSkipped));
    var all := i.observations;
    SortLength(all);
    if |all| > Bound(i) {
      notes := notes + [TooMany(|all| - Bound(i))];
      all := SortByTime(all)[..Bound(i)];
    }
    assert all == Examined(i) && notes == CapNotes(i);
    var ignored, lists;
    hide *;
    ignored, lists, order := ScreenEach(c, i, all);
    notes := notes + ignored;
    KeptSorted(c, i, lists);
    byVote := map h | h in lists :: SortByTime(lists[h]);
  }

  lemma KeptSorted(c: Case, i: Observing, lists: map<string, seq<Observation>>)
    requires Arriving(c, i, |Examined(i)|, lists)
    ensures Kept(c, i, map h | h in lists :: SortByTime(lists[h]))
  {
  }

  lemma CollectStep<T>(xs: seq<T>, k: nat, f: T -> Option<Note>)
    requires k < |xs|
    ensures Collect(xs, k + 1, f) == Collect(xs, k, f) + Pushed(f(xs[k]))
    ensures Collect(xs, 0, f) == []
    ensures Collect(xs, k, f) + [] == Collect(xs, k, f)
  {
  }

  lemma HeardStep(c: Case, i: Observing, k: nat)
    requires k < |Examined(i)|
    ensures var ob, before := Examined(i)[k], Heard(c, i, k);
      Heard(c, i, k + 1) ==
        if Plausible(c, i, ob) && ob.voteHash !in before then before + [ob.voteHash] else before
    ensures Screening(c, i)(Examined(i)[k]) == IgnoredAs(c, i, Examined(i)[k])
  {
    hide Examined, Plausible;
  }

  method ScreenEach(c: Case, i: Observing, all: seq<Observation>)
    returns (notes: seq<Note>, byVote: map<string, seq<Observation>>, order: seq<string>)
    requires all == Examined(i)
    ensures Arriving(c, i, |Examined(i)|, byVote) && order == Heard(c, i, |Examined(i)|)
    ensures notes == Collect(Examined(i), |Examined(i)|, Screening(c, i))
  {
    hide *;
    notes, byVote, order := [], map[], [];
    NothingChecked(c, i);
    for k := 0 to |all|
      invariant Arriving(c, i, k, byVote) && order == Heard(c, i, k)
      invariant notes == Collect(all, k, Screening(c, i))
      invariant forall h :: h in order <==> h in byVote
    {
      var ob := all[k];
      Arrive(c, i, k, byVote);
      HeardStep(c, i, k);
      CollectStep(all, k, Screening(c, i));
      var refusal := Ignored(c, i, ob);
      PushedIs(refusal);
      if refusal.Some? {
        notes := notes + [refusal.value];
      } else {
        if ob.voteHash !in byVote { order := order + [ob.voteHash]; }
        byVote := byVote[ob.voteHash := Get(byVote, ob.voteHash) + [ob]];
      }
    }
  }

  lemma PushedIs(n: Option<Note>)
    ensures Pushed(n) == if n.Some? then [n.value] else []
  {
  }

  method Ignored(c: Case, i: Observing, ob: Observation) returns (r: Option<Note>)
    ensures r == IgnoredAs(c, i, ob)
    ensures r.None? <==> Plausible(c, i, ob)
  {
    if ob.proTx != c.proTx { return Some(OtherNode(ob.id)); }
    if c.hashVote(ob.voteSignal, ob.voteOutcome, ob.voteTimestamp) != Some(ob.voteHash) {
      return Some(NotReproduced(ob.id));
    }
    if ob.voteTimestamp * 1000 > ob.createdAt + (VOTE_TIME_GRACE_SECONDS + Skew(i)) * 1000 {
      return Some(Implausible(ob.id));
    }
    return None;
  }

  class Verification {
    const c: Case
    var deviations: seq<Deviation>
    var validity: map<string, bool>

    constructor (given: Case)
      ensures c == given && deviations == [] && validity == map[]
    {
      c, deviations, validity := given, [], map[];
    }

    // Memoised by id: an id already checked is answered from the first check.
    method CheckSnapshot(o: Snapshot) returns (valid: bool)
      modifies this
      ensures o.id in old(validity) ==>
        valid == old(validity)[o.id] && deviations == old(deviations) && validity == old(validity)
      ensures o.id !in old(validity) ==>
        && deviations == old(deviations) + SnapshotDeviations(c, o)
        && valid == (SnapshotDeviations(c, o) == [])
        && validity == old(validity)[o.id := valid]
    {
      if o.id in validity { return validity[o.id]; }
      var found := When(o.owner != c.operator, SnapshotSigner(o.id));
      found := found + When(o.proTx != c.proTx, SnapshotNode(o.id));
      var rebuilt := c.rebuild(o.rows, Format(o));
      if rebuilt.None? {
        found := found + [SnapshotRows(o.id)];
      } else {
        found := found + (When(rebuilt.value.hash != o.tallyHash, SnapshotHash(o.id))
                          + When(rebuilt.value.outcome != o.outcome, SnapshotOutcome(o.id)));
      }
      assert found == SnapshotDeviations(c, o);
      var before := |deviations|;
      deviations := deviations + found;
      valid := |deviations| == before;
      validity := validity[o.id := valid];
    }

    method CheckSnapshots() returns (notes: seq<Note>)
      requires deviations == [] && validity == map[]
      modifies this
      ensures deviations == SnapshotPass(c, |c.snapshots|) && validity == Memo(c, |c.snapshots|)
      ensures notes == Collect(c.snapshots, |c.snapshots|, Heights(c))
    {
      hide *;
      notes := [];
      NothingChecked(c, NOTHING_OBSERVED);
      for k := 0 to |c.snapshots|
        invariant deviations == SnapshotPass(c, k) && validity == Memo(c, k)
        invariant notes == Collect(c.snapshots, k, Heights(c))
      {
        SnapshotStep(c, k);
        CollectStep(c.snapshots, k, Heights(c));
        var o := c.snapshots[k];
        var valid := CheckSnapshot(o);
        HeightNoteIs(c, o);
        if 0 < c.nowHeight < o.platformHeight { notes := notes + [HeightAhead(o.id)]; }
      }
    }

    method CheckMissed(r: Receipt, snapById: map<string, Snapshot>) returns (bad: bool)
      requires r.kind == Missed && snapById == ById(c.snapshots) && validity == Memo(c, |c.snapshots|)
      modifies this
      ensures deviations == old(deviations) + ReceiptDeviations(c, r) && validity == old(validity)
      ensures bad <==> !Clean(c, r)
    {
      hide Memo, ById, ZERO_HASH;
      var found := When(r.owner != c.operator, MissedSigner(r.id));
      bad := false;
      found := found + When(r.proTx != c.proTx, MissedNode(r.id));
      found := found + When(r.voteHash != ZERO_HASH, MissedHash(r.id));
      found := found + When(r.voteOutcome != NO_OUTCOME, MissedOutcome(r.id));
      found := found + When(r.voteSignal != NO_SIGNAL, MissedSignal(r.id));
      if r.snapshotId !in snapById {
        found := found + [MissedUnknown(r.id)];
      } else {
        var snap := snapById[r.snapshotId];
        MemoKnows(c, r.snapshotId);
        var valid := CheckSnapshot(snap);
        if !valid { bad := true; }
        found := found + When(r.voteTimestamp * 1000 < snap.createdAt, MissedEarly(r.id));
      }
      assert found == MissedDeviations(c, r);
      deviations := deviations + found;
      bad := bad || found != [];
    }

    method CheckCast(r: Receipt, snapById: map<string, Snapshot>) returns (clean: bool)
      requires r.kind == Cast && snapById == ById(c.snapshots)
      modifies this`deviations
      ensures deviations == old(deviations) + ReceiptDeviations(c, r)
      ensures clean <==> Clean(c, r)
    {
      hide Memo, CastDeviations;
      var before := |deviations|;
      var found := CastFindings(r, snapById);
      deviations := deviations + found;
      clean := |deviations| == before;
    }

    // What is wrong with a cast receipt, check by check.
    method CastFindings(r: Receipt, snapById: map<string, Snapshot>) returns (found: seq<Deviation>)
      requires snapById == ById(c.snapshots)
      ensures found == CastDeviations(c, r)
    {
      hide ById;
      found := When(r.owner != c.operator, ReceiptSigner(r.id));
      found := found + When(r.proTx != c.proTx, ReceiptNode(r.id));
      var expected := c.hashVote(r.voteSignal, r.voteOutcome, r.voteTimestamp);
      if expected.None? {
        found := found + [ReceiptUnhashable(r.id)];
      } else {
        found := found + When(expected.value != r.voteHash, ReceiptHash(r.id));
      }
      if r.snapshotId !in snapById {
        found := found + [ReceiptUnknown(r.id)];
      } else {
        var snap, own := snapById[r.snapshotId], [];
        if snap.outcome == NO_OUTCOME {
          own := [ReceiptOfNone(r.id)];
        } else {
          own := When(snap.outcome != r.voteOutcome, ReceiptOutcome(r.id));
        }
        own := own + When(snap.createdAt > (r.voteTimestamp + VOTE_TIME_GRACE_SECONDS) * 1000, ReceiptTime(r.id));
        found := found + own;
      }
    }

    method CheckReceipts(i: Observing, byVote: map<string, seq<Observation>>)
      returns (notes: seq<Note>, referenced: set<string>)
      requires validity == Memo(c, |c.snapshots|) && Kept(c, i, byVote)
      modifies this
      ensures deviations == old(deviations) + ReceiptPass(c, |c.receipts|)
      ensures referenced == Referenced(c, |c.receipts|)
      ensures notes == Collect(c.receipts, |c.receipts|, Receipting(c, i))
    {
      hide *;
      notes, referenced := [], {};
      var snapById := ById(c.snapshots);
      NothingChecked(c, i);
      ghost var was := deviations;
      for k := 0 to |c.receipts|
        invariant deviations == was + ReceiptPass(c, k) && validity == old(validity)
        invariant referenced == Referenced(c, k)
        invariant notes == Collect(c.receipts, k, Receipting(c, i))
      {
        ReceiptStep(c, k, was);
        CollectStep(c.receipts, k, Receipting(c, i));
        ReceiptNoteIs(c, i, byVote, c.receipts[k]);
        var r := c.receipts[k];
        if r.kind == Missed {
          var bad := CheckMissed(r, snapById);
          if !bad {
            referenced := referenced + {r.snapshotId};
            notes := notes + [AttestedMissed(r.id)];
          }
        } else {
          var clean := CheckCast(r, snapById);
          var earliest := FirstMember(c, Get(byVote, r.voteHash));
          if r.snapshotId in snapById && earliest.Some? && earliest.value.createdAt < snapById[r.snapshotId].createdAt {
            notes := notes + [SuspectOrdering(r)];
          }
          if clean { referenced := referenced + {r.snapshotId}; }
        }
      }
    }
  }

  // Where every loop starts.
  lemma NothingChecked(c: Case, i: Observing)
    ensures SnapshotPass(c, 0) == [] && Memo(c, 0) == map[]
    ensures ReceiptPass(c, 0) == [] && Referenced(c, 0) == {}
    ensures Arriving(c, i, 0, map[]) && Heard(c, i, 0) == []
    ensures Collect(Examined(i), 0, Screening(c, i)) == [] && Collect(c.snapshots, 0, Heights(c)) == []
    ensures Collect(c.receipts, 0, Receipting(c, i)) == [] && Collect(c.snapshots, 0, Abandoning(c)) == []
  {
  }

  lemma SnapshotStep(c: Case, k: nat)
    requires k < |c.snapshots|
    ensures var o := c.snapshots[k];
      if o.id in Memo(c, k) then Memo(c, k + 1) == Memo(c, k) && SnapshotPass(c, k + 1) == SnapshotPass(c, k)
      else && Memo(c, k + 1) == Memo(c, k)[o.id := SnapshotDeviations(c, o) == []]
           && SnapshotPass(c, k + 1) == SnapshotPass(c, k) + SnapshotDeviations(c, o)
  {
    assert SnapshotPass(c, k) + [] == SnapshotPass(c, k);
    hide SnapshotDeviations;
  }

  lemma ReceiptStep(c: Case, k: nat, was: seq<Deviation>)
    requires k < |c.receipts|
    ensures was + ReceiptPass(c, k + 1) == was + ReceiptPass(c, k) + ReceiptDeviations(c, c.receipts[k])
    ensures Referenced(c, k + 1) == Referenced(c, k) +
        if Clean(c, c.receipts[k]) then {c.receipts[k].snapshotId} else {}
  {
    hide ReceiptDeviations, Clean;
  }

  lemma {:induction false} MemoCovers(c: Case, k: nat, o: Snapshot)
    requires k <= |c.snapshots| && o in c.snapshots[..k]
    ensures o.id in Memo(c, k)
  {
    assert c.snapshots[..k] == c.snapshots[..k - 1] + [c.snapshots[k - 1]];
    if o in c.snapshots[..k - 1] { MemoCovers(c, k - 1, o); }
  }

  lemma MemoKnows(c: Case, id: string)
    ensures id in ById(c.snapshots) ==> id in Memo(c, |c.snapshots|) && ById(c.snapshots)[id].id == id
  {
    ByIdKnown(c.snapshots, id);
    if id in ById(c.snapshots) {
      assert c.snapshots[..|c.snapshots|] == c.snapshots;
      MemoCovers(c, |c.snapshots|, ById(c.snapshots)[id]);
    }
  }

  lemma HeightNoteIs(c: Case, o: Snapshot)
    ensures Pushed(Heights(c)(o)) == if 0 < c.nowHeight < o.platformHeight then [HeightAhead(o.id)] else []
  {
  }

  // The note of one receipt, read off the kept observations.
  lemma ReceiptNoteIs(c: Case, i: Observing, byVote: map<string, seq<Observation>>, r: Receipt)
    requires Kept(c, i, byVote)
    ensures Pushed(Receipting(c, i)(r)) ==
      if r.kind == Missed then (if Clean(c, r) then [AttestedMissed(r.id)] else [])
      else
        var earliest := FirstMember(c, Get(byVote, r.voteHash));
        if r.snapshotId in ById(c.snapshots) && earliest.Some?
           && earliest.value.createdAt < ById(c.snapshots)[r.snapshotId].createdAt
        then [SuspectOrdering(r)] else []
  {
    if r.snapshotId in ById(c.snapshots) {
      EarlierObservation(c, i, byVote, r.voteHash, ById(c.snapshots)[r.snapshotId].createdAt);
    }
    hide Kept, Examined, Plausible, FirstMember, ById, Get, Member, Clean;
  }

  lemma AbandonedNoteIs(c: Case, o: Snapshot)
    ensures var latest := Latest(c);
      Pushed(Abandoning(c)(o)) ==
        if o.id !in Referenced(c, |c.receipts|) && (latest.None? || o.id != latest.value.id)
        then [Abandoned(o.id)] else []
  {
    hide Referenced, Latest;
  }

  method AbandonedNotes(c: Case, referenced: set<string>) returns (notes: seq<Note>)
    requires referenced == Referenced(c, |c.receipts|)
    ensures notes == Collect(c.snapshots, |c.snapshots|, Abandoning(c))
  {
    hide *;
    notes := [];
    var latest := Latest(c);
    NothingChecked(c, NOTHING_OBSERVED);
    for k := 0 to |c.snapshots|
      invariant notes == Collect(c.snapshots, k, Abandoning(c))
    {
      var o := c.snapshots[k];
      CollectStep(c.snapshots, k, Abandoning(c));
      AbandonedNoteIs(c, o);
      if o.id !in referenced && (latest.None? || o.id != latest.value.id) { notes := notes + [Abandoned(o.id)]; }
    }
  }

  lemma UnattestedNoteIs(c: Case, i: Observing, byVote: map<string, seq<Observation>>, h: string)
    requires Kept(c, i, byVote)
    ensures var attested := set r | r in c.receipts :: r.voteHash;
      Pushed(Unattesting(c, i)(h)) ==
        if h in attested then []
        else if FirstMember(c, Get(byVote, h)).Some? then [Orphan(h)] else [NonMember(h)]
  {
    EarlierObservation(c, i, byVote, h, 0);
    hide Kept, Examined, Plausible, FirstMember, Get, Member;
  }

  method OrphanNotes(c: Case, i: Observing, byVote: map<string, seq<Observation>>, order: seq<string>)
    returns (notes: seq<Note>)
    requires Kept(c, i, byVote)
    ensures notes == Collect(order, |order|, Unattesting(c, i))
  {
    notes := [];
    hide *;
    var attested := set r | r in c.receipts :: r.voteHash;
    if |order| == 0 { CollectNone(order, Unattesting(c, i)); } else { CollectStep(order, 0, Unattesting(c, i)); }
    for k := 0 to |order|
      invariant notes == Collect(order, k, Unattesting(c, i))
    {
      var h := order[k];
      CollectStep(order, k, Unattesting(c, i));
      UnattestedNoteIs(c, i, byVote, h);
      if h !in attested {
        notes := notes + [if FirstMember(c, Get(byVote, h)).Some? then Orphan(h) else NonMember(h)];
      }
    }
  }

  lemma CollectNone<T>(xs: seq<T>, f: T -> Option<Note>)
    ensures Collect(xs, 0, f) == []
  {
  }

  method CurrentVote(c: Case) returns (deviations: seq<Deviation>, notes: seq<Note>)
    ensures deviations == VoteDeviations(c) && notes == VoteNotes(c)
  {
    notes := [];
    if c.current.Some? {
      var v, receipt := c.current.value, Attesting(c.receipts, c.current.value.voteHash);
      if receipt.None? {
        deviations := [Unattested];
      } else {
        var r := receipt.value;
        deviations := When(r.voteOutcome != v.outcome, CurrentOutcome(r.id));
        deviations := deviations + When(r.voteSignal != v.signal, CurrentSignal(r.id));
        deviations := deviations + When(r.voteTimestamp != v.time, CurrentTime(r.id));
      }
    } else {
      var latest := Latest(c);
      deviations := When(latest.Some? && latest.value.outcome != NO_OUTCOME, NoVote);
      if |c.receipts| > 0 { notes := [VoteGone(|c.receipts|)]; }
    }
  }

  method Freshness(c: Case) returns (stales: seq<Stale>, notes: seq<Note>)
    ensures stales == Stales(c) && notes == FreshNotes(c)
  {
    var latest, vote := Latest(c), c.current;
    stales, notes := [], [];
    if latest.Some? && latest.value.tallyHash != c.tallyHash {
      if latest.value.outcome != c.tallyOutcome {
        stales := stales + [TallyMoved];
      } else {
        notes := [CompositionMoved];
      }
    }
    if vote.Some? && c.tallyOutcome != NO_OUTCOME && vote.value.outcome != c.tallyOutcome {
      stales := stales + [VoteDiffers];
    }
    if vote.Some? && c.tallyOutcome == NO_OUTCOME { stales := stales + [VoteWithheld]; }
  }

  // The verdict is a function of the case alone, whatever is observed; observations decide
  // notes and nothing else.
  method VerifyCast(c: Case, i: Observing)
    returns (deviations: seq<Deviation>, stales: seq<Stale>, notes: seq<Note>)
    ensures deviations == Deviations(c) && stales == Stales(c) && notes == Notes(c, i)
    ensures stales == [] <==> Fresh(c)
  {
    hide *;
    var screened, byVote, order := Screen(c, i);
    var v := new Verification(c);
    var heights := v.CheckSnapshots();
    ghost var fromSnapshots := v.deviations;
    var suspects, referenced := v.CheckReceipts(i, byVote);
    assert v.deviations == SnapshotPass(c, |c.snapshots|) + ReceiptPass(c, |c.receipts|);
    var abandoned := AbandonedNotes(c, referenced);
    var orphans := OrphanNotes(c, i, byVote, order);
    var voteDeviations, voteNotes := CurrentVote(c);
    deviations := v.deviations + voteDeviations;
    deviations := deviations
      + When(Latest(c).None? && (c.current.Some? || c.tallyOutcome != NO_OUTCOME), NoSnapshot);
    var freshNotes;
    stales, freshNotes := Freshness(c);
    notes := screened + heights + suspects + abandoned + orphans + voteNotes + freshNotes;
    DeviationsAre(c);
    NotesAre(c, i);
    NoStaleIffFresh(c);
  }

  // Neither the standing snapshot nor the standing vote has been left behind by the members' tally.
  predicate Fresh(c: Case) {
    && (Latest(c).Some? ==> Latest(c).value.tallyHash == c.tallyHash || Latest(c).value.outcome == c.tallyOutcome)
    && (c.current.Some? ==> c.tallyOutcome != NO_OUTCOME && c.current.value.outcome == c.tallyOutcome)
  }

  lemma NoStaleIffFresh(c: Case)
    ensures Stales(c) == [] <==> Fresh(c)
  {
  }

  lemma DeviationsAre(c: Case)
    ensures Deviations(c) == SnapshotPass(c, |c.snapshots|) + ReceiptPass(c, |c.receipts|) + VoteDeviations(c)
      + When(Latest(c).None? && (c.current.Some? || c.tallyOutcome != NO_OUTCOME), NoSnapshot)
  {
  }

  lemma NotesAre(c: Case, i: Observing)
    ensures Notes(c, i) ==
      CapNotes(i)
      + Collect(Examined(i), |Examined(i)|, Screening(c, i))
      + Collect(c.snapshots, |c.snapshots|, Heights(c))
      + Collect(c.receipts, |c.receipts|, Receipting(c, i))
      + Collect(c.snapshots, |c.snapshots|, Abandoning(c))
      + Collect(Heard(c, i, |Examined(i)|), |Heard(c, i, |Examined(i)|)|, Unattesting(c, i))
      + VoteNotes(c)
      + FreshNotes(c)
  {
  }

  // ---------- what the loud notes mean ----------

  lemma {:induction false} Collected<T>(xs: seq<T>, k: nat, f: T -> Option<Note>, n: Note)
    requires k <= |xs|
    ensures n in Collect(xs, k, f) <==> exists j :: 0 <= j < k && f(xs[j]) == Some(n)
  {
    if k > 0 { Collected(xs, k - 1, f, n); }
  }

  lemma {:induction false} HeardMeans(c: Case, i: Observing, k: nat, h: string)
    requires k <= |Examined(i)|
    ensures h in Heard(c, i, k) <==>
      exists j :: 0 <= j < k && Plausible(c, i, Examined(i)[j]) && Examined(i)[j].voteHash == h
  {
    hide Examined, Plausible;
    if k > 0 { HeardMeans(c, i, k - 1, h); }
  }

  // Findings about receipts, snapshots and votes that a reader is to act on.
  predicate Loud(n: Note) {
    n.SuspectOrdering? || n.Orphan? || n.NonMember? || n.Abandoned?
  }

  lemma QuietParts(c: Case, i: Observing, n: Note)
    requires Loud(n)
    ensures n !in CapNotes(i) && n !in VoteNotes(c) && n !in FreshNotes(c)
    ensures n !in Collect(Examined(i), |Examined(i)|, Screening(c, i))
    ensures n !in Collect(c.snapshots, |c.snapshots|, Heights(c))
  {
    QuietScreening(c, i, n);
    QuietHeights(c, n);
    hide Collect, Examined, Screening, Heights, Latest;
  }

  lemma QuietScreening(c: Case, i: Observing, n: Note)
    requires Loud(n)
    ensures n !in Collect(Examined(i), |Examined(i)|, Screening(c, i))
  {
    Collected(Examined(i), |Examined(i)|, Screening(c, i), n);
    hide Collect, Examined, Plausible;
  }

  lemma QuietHeights(c: Case, n: Note)
    requires Loud(n)
    ensures n !in Collect(c.snapshots, |c.snapshots|, Heights(c))
  {
    Collected(c.snapshots, |c.snapshots|, Heights(c), n);
    hide Collect, Latest;
  }

  lemma ReceiptPart(c: Case, i: Observing, n: Note)
    requires Loud(n)
    ensures n in Collect(c.receipts, |c.receipts|, Receipting(c, i)) <==>
      n.SuspectOrdering? && n.receipt in c.receipts && Predates(c, i, n.receipt)
  {
    Collected(c.receipts, |c.receipts|, Receipting(c, i), n);
    assert n.SuspectOrdering? && Predates(c, i, n.receipt) ==> n.receipt.kind == Cast;
    hide Collect, Predates, Clean;
    assert forall j :: 0 <= j < |c.receipts| ==> Receipting(c, i)(c.receipts[j]) == ReceiptNote(c, i, c.receipts[j]);
  }

  // No cleanly verifying receipt deals with the snapshot id, and it is not the latest.
  predicate IsAbandoned(c: Case, id: string) {
    && (exists o :: o in c.snapshots && o.id == id)
    && id !in Referenced(c, |c.receipts|)
    && id != Latest(c).value.id
  }

  lemma AbandonedPart(c: Case, n: Note)
    requires Loud(n)
    ensures n in Collect(c.snapshots, |c.snapshots|, Abandoning(c)) <==>
      n.Abandoned? && IsAbandoned(c, n.snapshotId)
  {
    Collected(c.snapshots, |c.snapshots|, Abandoning(c), n);
    hide Collect, Referenced;
    assert forall j :: 0 <= j < |c.snapshots| ==> Abandoning(c)(c.snapshots[j]) == AbandonedNote(c, c.snapshots[j]);
  }

  // Plausibly observed, by no current member, and attested by no receipt.
  predicate Unweighted(c: Case, i: Observing, h: string) {
    && (exists ob :: ob in Examined(i) && Plausible(c, i, ob) && ob.voteHash == h)
    && (forall ob :: ob in Examined(i) && Plausible(c, i, ob) && ob.voteHash == h ==> !Member(c, ob))
    && forall r :: r in c.receipts ==> r.voteHash != h
  }

  lemma UnattestedPart(c: Case, i: Observing, n: Note)
    requires Loud(n)
    ensures var heard := Heard(c, i, |Examined(i)|);
      n in Collect(heard, |heard|, Unattesting(c, i)) <==>
        (n.Orphan? && Orphaned(c, i, n.voteHash)) || (n.NonMember? && Unweighted(c, i, n.voteHash))
  {
    var heard := Heard(c, i, |Examined(i)|);
    Collected(heard, |heard|, Unattesting(c, i), n);
    hide Collect, Heard, Examined, Plausible, Member;
    assert forall j :: 0 <= j < |heard| ==> Unattesting(c, i)(heard[j]) == UnattestedNote(c, i, heard[j]);
    if n.Orphan? || n.NonMember? {
      HeardMeans(c, i, |Examined(i)|, n.voteHash);
    }
  }

  // When each loud note appears.
  lemma LoudNotesMean(c: Case, i: Observing, n: Note)
    requires Loud(n)
    ensures n in Notes(c, i) <==>
      match n
      case SuspectOrdering(r) => r in c.receipts && Predates(c, i, r)
      case Orphan(h) => Orphaned(c, i, h)
      case NonMember(h) => Unweighted(c, i, h)
      case Abandoned(id) => IsAbandoned(c, id)
      case _ => false
  {
    assert n.SuspectOrdering? || n.Orphan? || n.NonMember? || n.Abandoned?;
    hide *;
    NotesAre(c, i);
    QuietParts(c, i, n);
    ReceiptPart(c, i, n);
    AbandonedPart(c, n);
    UnattestedPart(c, i, n);
  }

  // ---------- the observations examined, and what the other notes say ----------

  lemma {:induction false} InsertIsPermutation(s: seq<Observation>, x: Observation)
    ensures multiset(InsertByTime(s, x)) == multiset(s) + multiset{x}
  {
    if |s| > 0 && !InTime(s[|s| - 1], x) {
      InsertIsPermutation(s[..|s| - 1], x);
      assert s == s[..|s| - 1] + [s[|s| - 1]];
    }
  }

  lemma {:induction false} SortIsPermutation(s: seq<Observation>)
    ensures multiset(SortByTime(s)) == multiset(s)
  {
    hide *;
    SortUnfolds(s);
    if |s| > 0 {
      SortIsPermutation(s[..|s| - 1]);
      InsertIsPermutation(SortByTime(s[..|s| - 1]), s[|s| - 1]);
      LastAdded(s);
    }
  }

  lemma SortUnfolds(s: seq<Observation>)
    ensures SortByTime(s) == if |s| == 0 then s else InsertByTime(SortByTime(s[..|s| - 1]), s[|s| - 1])
  {
  }

  lemma LastAdded(s: seq<Observation>)
    requires |s| > 0
    ensures multiset(s) == multiset(s[..|s| - 1]) + multiset{s[|s| - 1]}
  {
    assert s == s[..|s| - 1] + [s[|s| - 1]];
  }

  // Within the bound everything is examined as it came; beyond it exactly as many as the bound,
  // and nothing left out is older than anything examined.
  lemma ExaminedMeans(i: Observing) returns (rest: seq<Observation>)
    ensures |i.observations| <= Bound(i) ==> Examined(i) == i.observations && rest == []
    ensures |i.observations| > Bound(i) ==> |Examined(i)| == Bound(i)
    ensures multiset(Examined(i)) + multiset(rest) == multiset(i.observations)
    ensures forall x, y :: x in Examined(i) && y in rest ==> x.createdAt <= y.createdAt
  {
    rest := [];
    if |i.observations| > Bound(i) {
      var all, n := SortByTime(i.observations), Bound(i);
      SortLength(i.observations);
      assert Examined(i) == all[..n];
      hide *;
      SortIsPermutation(i.observations);
      SortSorts(i.observations);
      rest := all[n..];
      EarlierPart(all, n);
    } else {
      assert Examined(i) == i.observations;
      hide *;
    }
  }

  lemma EarlierPart(s: seq<Observation>, n: nat)
    requires Sorted(s) && n <= |s|
    ensures multiset(s[..n]) + multiset(s[n..]) == multiset(s)
    ensures forall x, y :: x in s[..n] && y in s[n..] ==> x.createdAt <= y.createdAt
  {
    assert s == s[..n] + s[n..];
    forall x, y | x in s[..n] && y in s[n..] ensures x.createdAt <= y.createdAt {
      var i :| 0 <= i < n && s[..n][i] == x;
      var j :| 0 <= j < |s| - n && s[n..][j] == y;
      assert InTime(s[i], s[n + j]);
    }
  }

  // When each of the informational notes appears.
  predicate QuietSays(c: Case, i: Observing, n: Note) {
    match n
    case CapHit(slots) => slots == i.truncatedOwners > 0
    case SlotsSkipped(slots) => slots == i.slotsSkipped > 0
    case TooMany(left) => left == |i.observations| - Bound(i) > 0
    case OtherNode(id) => exists ob :: ob in Examined(i) && ob.id == id && ob.proTx != c.proTx
    case NotReproduced(id) =>
      exists ob :: ob in Examined(i) && ob.id == id && ob.proTx == c.proTx
        && c.hashVote(ob.voteSignal, ob.voteOutcome, ob.voteTimestamp) != Some(ob.voteHash)
    case Implausible(id) =>
      exists ob :: ob in Examined(i) && ob.id == id && ob.proTx == c.proTx
        && c.hashVote(ob.voteSignal, ob.voteOutcome, ob.voteTimestamp) == Some(ob.voteHash)
        && ob.voteTimestamp * 1000 > ob.createdAt + (VOTE_TIME_GRACE_SECONDS + Skew(i)) * 1000
    case HeightAhead(id) => exists o :: o in c.snapshots && o.id == id && 0 < c.nowHeight < o.platformHeight
    case AttestedMissed(id) => exists r :: r in c.receipts && r.kind == Missed && r.id == id && Clean(c, r)
    case VoteGone(count) => c.current.None? && count == |c.receipts| > 0
    case CompositionMoved =>
      |c.snapshots| > 0 && var o := c.snapshots[|c.snapshots| - 1];
        o.tallyHash != c.tallyHash && o.outcome == c.tallyOutcome
    case _ => false
  }

  lemma QuietNotesMean(c: Case, i: Observing, n: Note)
    requires !Loud(n)
    ensures n in Notes(c, i) <==> QuietSays(c, i, n)
  {
    hide *;
    NotesAre(c, i);
    PlainNotes(c, i, n);
    ScreeningSays(c, i, n);
    HeightsSay(c, i, n);
    MissedSays(c, i, n);
    LoudOnly(c, i, n);
    QuietKinds(c, i, n);
  }

  predicate FromPlain(n: Note) {
    n.CapHit? || n.SlotsSkipped? || n.TooMany? || n.VoteGone? || n.CompositionMoved?
  }

  predicate FromScreening(n: Note) {
    n.OtherNode? || n.NotReproduced? || n.Implausible?
  }

  lemma PlainNotes(c: Case, i: Observing, n: Note)
    ensures n in CapNotes(i) || n in VoteNotes(c) || n in FreshNotes(c) <==> FromPlain(n) && QuietSays(c, i, n)
  {
    hide Examined, Clean, Bound;
  }

  lemma ScreeningSays(c: Case, i: Observing, n: Note)
    ensures n in Collect(Examined(i), |Examined(i)|, Screening(c, i)) <==> FromScreening(n) && QuietSays(c, i, n)
  {
    hide Collect, Examined, Clean, Bound;
    var xs := Examined(i);
    Collected(xs, |xs|, Screening(c, i), n);
    if FromScreening(n) && QuietSays(c, i, n) {
      var ob :| ob in xs && IgnoredAs(c, i, ob) == Some(n);
      var j :| 0 <= j < |xs| && xs[j] == ob;
      assert Screening(c, i)(xs[j]) == Some(n);
    }
  }

  lemma HeightsSay(c: Case, i: Observing, n: Note)
    ensures n in Collect(c.snapshots, |c.snapshots|, Heights(c)) <==> n.HeightAhead? && QuietSays(c, i, n)
  {
    Collected(c.snapshots, |c.snapshots|, Heights(c), n);
    hide Collect, Examined, Clean, Bound;
    if n.HeightAhead? && QuietSays(c, i, n) {
      var o :| o in c.snapshots && o.id == n.id && 0 < c.nowHeight < o.platformHeight;
      var j :| 0 <= j < |c.snapshots| && c.snapshots[j] == o;
      assert Heights(c)(c.snapshots[j]) == Some(n);
    }
  }

  lemma MissedSays(c: Case, i: Observing, n: Note)
    requires !Loud(n)
    ensures n in Collect(c.receipts, |c.receipts|, Receipting(c, i)) <==> n.AttestedMissed? && QuietSays(c, i, n)
  {
    hide Collect, Examined, Clean, Bound, Predates;
    Collected(c.receipts, |c.receipts|, Receipting(c, i), n);
    assert forall r :: Receipting(c, i)(r) == Some(n) <==>
      n.AttestedMissed? && r.kind == Missed && r.id == n.id && Clean(c, r);
    hide Receipting;
    if n.AttestedMissed? && QuietSays(c, i, n) {
      var r :| r in c.receipts && r.kind == Missed && r.id == n.id && Clean(c, r);
      var j :| 0 <= j < |c.receipts| && c.receipts[j] == r;
      assert Receipting(c, i)(c.receipts[j]) == Some(n);
    }
  }

  lemma LoudOnly(c: Case, i: Observing, n: Note)
    requires !Loud(n)
    ensures n !in Collect(c.snapshots, |c.snapshots|, Abandoning(c))
    ensures var heard := Heard(c, i, |Examined(i)|); n !in Collect(heard, |heard|, Unattesting(c, i))
  {
    NeverAbandoned(c, n);
    NeverUnattested(c, i, n);
    hide *;
  }

  lemma NeverAbandoned(c: Case, n: Note)
    requires !Loud(n)
    ensures n !in Collect(c.snapshots, |c.snapshots|, Abandoning(c))
  {
    hide Collect, Referenced, Latest;
    Collected(c.snapshots, |c.snapshots|, Abandoning(c), n);
    forall o ensures Abandoning(c)(o) != Some(n) {}
    hide *;
  }

  lemma NeverUnattested(c: Case, i: Observing, n: Note)
    requires !Loud(n)
    ensures var heard := Heard(c, i, |Examined(i)|); n !in Collect(heard, |heard|, Unattesting(c, i))
  {
    hide Collect, Examined, Heard, Orphaned;
    var heard := Heard(c, i, |Examined(i)|);
    Collected(heard, |heard|, Unattesting(c, i), n);
    forall h ensures Unattesting(c, i)(h) != Some(n) {}
    hide *;
  }

  lemma QuietKinds(c: Case, i: Observing, n: Note)
    requires !Loud(n)
    ensures FromPlain(n) || FromScreening(n) || n.HeightAhead? || n.AttestedMissed?
  {
  }
}
