/**
 What a clean verdict of the cast verification means (castVerify.cjs), with and without
 repeated snapshot ids.
 */
module CastVerdict {
  import opened Outcomes
  import opened CastVerify

  // What a case is judged by: whose documents count, and the program's own two functions.
  datatype Context = Context(
    operator: string, proTx: string,
    rebuild: (string, nat) -> Option<Rebuilt>, hashVote: (string, string, int) -> Option<string>)

  function ContextOf(c: Case): Context {
    Context(c.operator, c.proTx, c.rebuild, c.hashVote)
  }

  // Signed by the operator, about this masternode, and reproduced by its own rows.
  predicate Authentic(ctx: Context, o: Snapshot) {
    && o.owner == ctx.operator && o.proTx == ctx.proTx
    && ctx.rebuild(o.rows, Format(o)) == Some(Rebuilt(o.tallyHash, o.outcome))
  }

  predicate SelfAuthenticates(c: Case, o: Snapshot) {
    Authentic(ContextOf(c), o)
  }

  // Of the snapshots with one id the first is the one authenticated, and the last the one
  // receipts are held against.
  predicate FirstOfId(os: seq<Snapshot>, i: nat)
    requires i < |os|
  {
    forall j :: 0 <= j < i ==> os[j].id != os[i].id
  }

  predicate LastOfId(os: seq<Snapshot>, i: nat)
    requires i < |os|
  {
    forall j :: i < j < |os| ==> os[j].id != os[i].id
  }

  // The vote is the snapshot's outcome, and was not cast before the snapshot (one hour's grace).
  predicate Implements(r: Receipt, o: Snapshot) {
    && o.outcome == r.voteOutcome && o.outcome != NO_OUTCOME
    && o.createdAt <= (r.voteTimestamp + VOTE_TIME_GRACE_SECONDS) * 1000
  }

  predicate CastHonest(c: Case, r: Receipt) {
    && r.owner == c.operator && r.proTx == c.proTx
    && c.hashVote(r.voteSignal, r.voteOutcome, r.voteTimestamp) == Some(r.voteHash)
    && exists i :: 0 <= i < |c.snapshots| && HeldAgainst(c, r, i) && Implements(r, c.snapshots[i])
  }

  predicate HeldAgainst(c: Case, r: Receipt, i: nat)
    requires i < |c.snapshots|
  {
    LastOfId(c.snapshots, i) && c.snapshots[i].id == r.snapshotId
  }

  predicate MissedHonest(c: Case, r: Receipt) {
    && r.owner == c.operator && r.proTx == c.proTx
    && r.voteHash == ZERO_HASH && r.voteOutcome == NO_OUTCOME && r.voteSignal == NO_SIGNAL
    && exists i :: 0 <= i < |c.snapshots| && HeldAgainst(c, r, i) && c.snapshots[i].createdAt <= r.voteTimestamp * 1000
  }

  predicate ReceiptHonest(c: Case, r: Receipt) {
    if r.kind == Missed then MissedHonest(c, r) else CastHonest(c, r)
  }

  predicate VoteAttested(c: Case) {
    match c.current
    case None => Latest(c).None? || Latest(c).value.outcome == NO_OUTCOME
    case Some(v) =>
      var r := Attesting(c.receipts, v.voteHash);
      r.Some? && r.value.voteOutcome == v.outcome && r.value.voteSignal == v.signal && r.value.voteTimestamp == v.time
  }

  lemma SnapshotCleanIff(c: Case, o: Snapshot)
    ensures SnapshotDeviations(c, o) == [] <==> Authentic(ContextOf(c), o)
  {
  }

  lemma {:induction false} MemoKeys(c: Case, k: nat, id: string)
    requires k <= |c.snapshots|
    ensures id in Memo(c, k) <==> exists j :: 0 <= j < k && c.snapshots[j].id == id
  {
    hide *;
    NothingChecked(c, NOTHING_OBSERVED);
    if k > 0 {
      MemoKeys(c, k - 1, id);
      SnapshotStep(c, k - 1);
    }
  }

  // Of the first k snapshots, those that are the first of their id authenticate themselves.
  predicate FirstsUpTo(ctx: Context, os: seq<Snapshot>, k: nat)
    requires k <= |os|
  {
    forall i :: 0 <= i < k && FirstOfId(os, i) ==> Authentic(ctx, os[i])
  }

  predicate FirstsAuthentic(ctx: Context, os: seq<Snapshot>) {
    FirstsUpTo(ctx, os, |os|)
  }

  lemma NextFirst(ctx: Context, os: seq<Snapshot>, k: nat)
    requires k <= |os|
    ensures FirstsUpTo(ctx, os, k) <==>
      k == 0 || (FirstsUpTo(ctx, os, k - 1) && (FirstOfId(os, k - 1) ==> Authentic(ctx, os[k - 1])))
  {
    hide Authentic, FirstOfId;
  }

  lemma FirstIffNotChecked(c: Case, k: nat)
    requires k < |c.snapshots|
    ensures FirstOfId(c.snapshots, k) <==> c.snapshots[k].id !in Memo(c, k)
  {
    MemoKeys(c, k, c.snapshots[k].id);
    hide Memo;
  }

  // The first pass is clean exactly when the first snapshot of every id authenticates itself.
  lemma {:induction false} SnapshotsCleanIff(c: Case, k: nat)
    requires k <= |c.snapshots|
    ensures SnapshotPass(c, k) == [] <==> FirstsUpTo(ContextOf(c), c.snapshots, k)
  {
    hide *;
    NothingChecked(c, NOTHING_OBSERVED);
    NextFirst(ContextOf(c), c.snapshots, k);
    if k > 0 {
      SnapshotsCleanIff(c, k - 1);
      FirstIffNotChecked(c, k - 1);
      SnapshotStep(c, k - 1);
      SnapshotCleanIff(c, c.snapshots[k - 1]);
    }
  }

  lemma {:induction false} LastIsKept(os: seq<Snapshot>, i: nat)
    requires i < |os| && LastOfId(os, i)
    ensures os[i].id in ById(os) && ById(os)[os[i].id] == os[i]
  {
    var k := |os| - 1;
    if i < k { LastIsKept(os[..k], i); }
  }

  lemma {:induction false} KeptIsLast(os: seq<Snapshot>, id: string) returns (i: nat)
    requires id in ById(os)
    ensures i < |os| && LastOfId(os, i) && os[i].id == id
  {
    var k := |os| - 1;
    if os[k].id == id {
      i := k;
    } else {
      i := KeptIsLast(os[..k], id);
    }
  }

  lemma ReceiptCleanIff(c: Case, r: Receipt)
    ensures ReceiptDeviations(c, r) == [] <==> ReceiptHonest(c, r)
  {
    forall i | 0 <= i < |c.snapshots| && HeldAgainst(c, r, i)
      ensures r.snapshotId in ById(c.snapshots) && ById(c.snapshots)[r.snapshotId] == c.snapshots[i]
    {
      LastIsKept(c.snapshots, i);
    }
    if r.snapshotId in ById(c.snapshots) {
      var i := KeptIsLast(c.snapshots, r.snapshotId);
      assert HeldAgainst(c, r, i);
    }
    hide ById, HeldAgainst, ZERO_HASH;
  }

  predicate AllHonest(c: Case, rs: seq<Receipt>) {
    forall r :: r in rs ==> ReceiptHonest(c, r)
  }

  lemma HonestUpTo(c: Case, k: nat)
    requires k <= |c.receipts|
    ensures AllHonest(c, c.receipts[..k]) <==>
      k == 0 || (AllHonest(c, c.receipts[..k - 1]) && ReceiptHonest(c, c.receipts[k - 1]))
  {
    hide ReceiptHonest;
    if k > 0 { assert c.receipts[..k] == c.receipts[..k - 1] + [c.receipts[k - 1]]; }
  }

  lemma {:induction false} ReceiptsCleanIff(c: Case, k: nat)
    requires k <= |c.receipts|
    ensures ReceiptPass(c, k) == [] <==> AllHonest(c, c.receipts[..k])
  {
    hide *;
    NothingChecked(c, NOTHING_OBSERVED);
    HonestUpTo(c, k);
    if k > 0 {
      ReceiptsCleanIff(c, k - 1);
      ReceiptStep(c, k - 1, []);
      ReceiptCleanIff(c, c.receipts[k - 1]);
    }
  }

  lemma VoteCleanIff(c: Case)
    ensures VoteDeviations(c) == [] <==> VoteAttested(c)
  {
    hide Attesting;
  }

  // For every case, repeated ids or not: nothing deviates exactly when the first snapshot of
  // every id authenticates itself, every receipt is honest, the standing vote is attested, and
  // some snapshot exists if there is a vote or a tally to implement.
  lemma VerdictCleanIff(c: Case)
    ensures Deviations(c) == [] <==>
      && FirstsAuthentic(ContextOf(c), c.snapshots)
      && AllHonest(c, c.receipts)
      && VoteAttested(c)
      && (c.snapshots == [] ==> c.current.None? && c.tallyOutcome == NO_OUTCOME)
  {
    VoteCleanIff(c);
    DeviationsAre(c);
    hide SnapshotPass, ReceiptPass, FirstsUpTo, AllHonest, VoteDeviations, VoteAttested, Deviations;
    SnapshotsCleanIff(c, |c.snapshots|);
    ReceiptsCleanIff(c, |c.receipts|);
    assert c.receipts[..|c.receipts|] == c.receipts;
  }

  // ---------- which deviation is named when ----------

  predicate SnapshotWrong(c: Case, o: Snapshot, d: Deviation) {
    var built := c.rebuild(o.rows, if o.formatVersion == 0 then 1 else o.formatVersion);
    match d
    case SnapshotSigner(id) => id == o.id && o.owner != c.operator
    case SnapshotNode(id) => id == o.id && o.proTx != c.proTx
    case SnapshotRows(id) => id == o.id && built == None
    case SnapshotHash(id) => id == o.id && built.Some? && built.value.hash != o.tallyHash
    case SnapshotOutcome(id) => id == o.id && built.Some? && built.value.outcome != o.outcome
    case _ => false
  }

  // Of a missed-vote attestation and of a cast, against the last snapshot of its id.
  predicate MissedWrong(c: Case, r: Receipt, d: Deviation) {
    match d
    case MissedSigner(id) => id == r.id && r.owner != c.operator
    case MissedNode(id) => id == r.id && r.proTx != c.proTx
    case MissedHash(id) => id == r.id && r.voteHash != ZERO_HASH
    case MissedOutcome(id) => id == r.id && r.voteOutcome != NO_OUTCOME
    case MissedSignal(id) => id == r.id && r.voteSignal != NO_SIGNAL
    case MissedUnknown(id) => id == r.id && forall o :: o in c.snapshots ==> o.id != r.snapshotId
    case MissedEarly(id) => id == r.id &&
      exists i :: 0 <= i < |c.snapshots| && HeldAgainst(c, r, i) && r.voteTimestamp * 1000 < c.snapshots[i].createdAt
    case _ => false
  }

  predicate CastWrong(c: Case, r: Receipt, d: Deviation) {
    var hash := c.hashVote(r.voteSignal, r.voteOutcome, r.voteTimestamp);
    match d
    case ReceiptSigner(id) => id == r.id && r.owner != c.operator
    case ReceiptNode(id) => id == r.id && r.proTx != c.proTx
    case ReceiptUnhashable(id) => id == r.id && hash == None
    case ReceiptHash(id) => id == r.id && hash.Some? && hash.value != r.voteHash
    case ReceiptUnknown(id) => id == r.id && forall o :: o in c.snapshots ==> o.id != r.snapshotId
    case ReceiptOfNone(id) => id == r.id &&
      exists i :: 0 <= i < |c.snapshots| && HeldAgainst(c, r, i) && c.snapshots[i].outcome == NO_OUTCOME
    case ReceiptOutcome(id) => id == r.id &&
      exists i :: 0 <= i < |c.snapshots| && HeldAgainst(c, r, i)
        && c.snapshots[i].outcome != NO_OUTCOME && c.snapshots[i].outcome != r.voteOutcome
    case ReceiptTime(id) => id == r.id &&
      exists i :: 0 <= i < |c.snapshots| && HeldAgainst(c, r, i)
        && c.snapshots[i].createdAt > (r.voteTimestamp + VOTE_TIME_GRACE_SECONDS) * 1000
    case _ => false
  }

  predicate ReceiptWrong(c: Case, r: Receipt, d: Deviation) {
    if r.kind == Missed then MissedWrong(c, r, d) else CastWrong(c, r, d)
  }

  // Receipt k is the first with the standing vote's hash.
  predicate Attests(c: Case, k: int) {
    && c.current.Some? && 0 <= k < |c.receipts| && c.receipts[k].voteHash == c.current.value.voteHash
    && forall j :: 0 <= j < k ==> c.receipts[j].voteHash != c.current.value.voteHash
  }

  ghost predicate VoteWrong(c: Case, d: Deviation) {
    match d
    case Unattested => c.current.Some? && forall r :: r in c.receipts ==> r.voteHash != c.current.value.voteHash
    case CurrentOutcome(id) =>
      exists k :: Attests(c, k) && c.receipts[k].id == id && c.receipts[k].voteOutcome != c.current.value.outcome
    case CurrentSignal(id) =>
      exists k :: Attests(c, k) && c.receipts[k].id == id && c.receipts[k].voteSignal != c.current.value.signal
    case CurrentTime(id) =>
      exists k :: Attests(c, k) && c.receipts[k].id == id && c.receipts[k].voteTimestamp != c.current.value.time
    case NoVote =>
      c.current.None? && |c.snapshots| > 0 && c.snapshots[|c.snapshots| - 1].outcome != NO_OUTCOME
    case NoSnapshot => |c.snapshots| == 0 && (c.current.Some? || c.tallyOutcome != NO_OUTCOME)
    case _ => false
  }

  // A deviation is reported exactly when the first snapshot of some id, some receipt or the
  // standing vote is wrong in the way it names.
  lemma DeviationsMean(c: Case, d: Deviation)
    ensures d in Deviations(c) <==>
      || (exists i :: 0 <= i < |c.snapshots| && FirstOfId(c.snapshots, i) && SnapshotWrong(c, c.snapshots[i], d))
      || (exists r :: r in c.receipts && ReceiptWrong(c, r, d))
      || VoteWrong(c, d)
  {
    hide *;
    DeviationsAre(c);
    SnapshotsFind(c, |c.snapshots|, d);
    ReceiptsFind(c, |c.receipts|, d);
    assert c.receipts[..|c.receipts|] == c.receipts;
    VoteFinds(c, d);
  }

  lemma SnapshotFinds(c: Case, o: Snapshot, d: Deviation)
    ensures d in SnapshotDeviations(c, o) <==> SnapshotWrong(c, o, d)
  {
    SnapshotFields(c, o, d);
    RowsFind(c, o, d);
    hide SnapshotDeviations, RowsPart;
  }

  function RowsPart(c: Case, o: Snapshot): seq<Deviation> {
    match c.rebuild(o.rows, Format(o))
    case None => [SnapshotRows(o.id)]
    case Some(b) =>
      When(b.hash != o.tallyHash, SnapshotHash(o.id)) + When(b.outcome != o.outcome, SnapshotOutcome(o.id))
  }

  lemma SnapshotFields(c: Case, o: Snapshot, d: Deviation)
    ensures d in SnapshotDeviations(c, o) <==>
      || (d == SnapshotSigner(o.id) && o.owner != c.operator)
      || (d == SnapshotNode(o.id) && o.proTx != c.proTx)
      || d in RowsPart(c, o)
  {
    assert SnapshotDeviations(c, o) ==
      When(o.owner != c.operator, SnapshotSigner(o.id)) + When(o.proTx != c.proTx, SnapshotNode(o.id)) + RowsPart(c, o);
    hide SnapshotDeviations, RowsPart;
  }

  lemma RowsFind(c: Case, o: Snapshot, d: Deviation)
    ensures d in RowsPart(c, o) <==>
      (d.SnapshotRows? || d.SnapshotHash? || d.SnapshotOutcome?) && SnapshotWrong(c, o, d)
  {
  }

  lemma {:induction false} SnapshotsFind(c: Case, k: nat, d: Deviation)
    requires k <= |c.snapshots|
    ensures d in SnapshotPass(c, k) <==>
      exists i :: 0 <= i < k && FirstOfId(c.snapshots, i) && SnapshotWrong(c, c.snapshots[i], d)
  {
    hide *;
    NothingChecked(c, NOTHING_OBSERVED);
    if k > 0 {
      SnapshotsFind(c, k - 1, d);
      FirstIffNotChecked(c, k - 1);
      SnapshotStep(c, k - 1);
      SnapshotFinds(c, c.snapshots[k - 1], d);
    }
  }

  // The receipt's snapshot, if it has one, is the last of its id.
  lemma HeldSnapshot(c: Case, r: Receipt)
    ensures r.snapshotId in ById(c.snapshots) <==> exists o :: o in c.snapshots && o.id == r.snapshotId
    ensures r.snapshotId in ById(c.snapshots) <==> exists i :: 0 <= i < |c.snapshots| && HeldAgainst(c, r, i)
    ensures forall i :: 0 <= i < |c.snapshots| && HeldAgainst(c, r, i) ==>
      r.snapshotId in ById(c.snapshots) && ById(c.snapshots)[r.snapshotId] == c.snapshots[i]
  {
    ByIdKnown(c.snapshots, r.snapshotId);
    forall i | 0 <= i < |c.snapshots| && HeldAgainst(c, r, i)
      ensures r.snapshotId in ById(c.snapshots) && ById(c.snapshots)[r.snapshotId] == c.snapshots[i]
    {
      LastIsKept(c.snapshots, i);
    }
    if r.snapshotId in ById(c.snapshots) {
      var i := KeptIsLast(c.snapshots, r.snapshotId);
      assert HeldAgainst(c, r, i);
    }
    hide ById, LastOfId;
  }

  lemma MissedFinds(c: Case, r: Receipt, d: Deviation)
    ensures d in MissedDeviations(c, r) <==> MissedWrong(c, r, d)
  {
    MissedFields(c, r, d);
    DeadlineFinds(c, r, d);
    hide MissedDeviations, DeadlinePart, HeldAgainst, ZERO_HASH;
  }

  function DeadlinePart(c: Case, r: Receipt): seq<Deviation> {
    if r.snapshotId !in ById(c.snapshots) then [MissedUnknown(r.id)]
    else When(r.voteTimestamp * 1000 < ById(c.snapshots)[r.snapshotId].createdAt, MissedEarly(r.id))
  }

  lemma MissedFields(c: Case, r: Receipt, d: Deviation)
    ensures d in MissedDeviations(c, r) <==>
      || (d == MissedSigner(r.id) && r.owner != c.operator)
      || (d == MissedNode(r.id) && r.proTx != c.proTx)
      || (d == MissedHash(r.id) && r.voteHash != ZERO_HASH)
      || (d == MissedOutcome(r.id) && r.voteOutcome != NO_OUTCOME)
      || (d == MissedSignal(r.id) && r.voteSignal != NO_SIGNAL)
      || d in DeadlinePart(c, r)
  {
    hide ById, ZERO_HASH;
    assert MissedDeviations(c, r) ==
      When(r.owner != c.operator, MissedSigner(r.id)) + When(r.proTx != c.proTx, MissedNode(r.id))
      + When(r.voteHash != ZERO_HASH, MissedHash(r.id)) + When(r.voteOutcome != NO_OUTCOME, MissedOutcome(r.id))
      + When(r.voteSignal != NO_SIGNAL, MissedSignal(r.id)) + DeadlinePart(c, r);
    hide DeadlinePart, MissedDeviations;
  }

  lemma DeadlineFinds(c: Case, r: Receipt, d: Deviation)
    ensures d in DeadlinePart(c, r) <==> (d.MissedUnknown? || d.MissedEarly?) && MissedWrong(c, r, d)
  {
    HeldSnapshot(c, r);
    hide ById, HeldAgainst;
    if r.snapshotId in ById(c.snapshots) {
      var i :| 0 <= i < |c.snapshots| && HeldAgainst(c, r, i);
    }
  }

  lemma CastFinds(c: Case, r: Receipt, d: Deviation)
    ensures d in CastDeviations(c, r) <==> CastWrong(c, r, d)
  {
    CastParts(c, r, d);
    HashFinds(c, r, d);
    CommitmentFinds(c, r, d);
    hide CastDeviations, HashDeviations, CommitmentPart, HeldAgainst;
  }

  // Findings about the snapshot a cast is held against.
  predicate OfCommitment(d: Deviation) {
    d.ReceiptUnknown? || d.ReceiptOfNone? || d.ReceiptOutcome? || d.ReceiptTime?
  }

  function CommitmentPart(c: Case, r: Receipt): seq<Deviation> {
    if r.snapshotId !in ById(c.snapshots) then [ReceiptUnknown(r.id)]
    else CommitmentDeviations(c, r, ById(c.snapshots)[r.snapshotId])
  }

  lemma CastParts(c: Case, r: Receipt, d: Deviation)
    ensures d in CastDeviations(c, r) <==>
      || (d == ReceiptSigner(r.id) && r.owner != c.operator)
      || (d == ReceiptNode(r.id) && r.proTx != c.proTx)
      || d in HashDeviations(c, r) || d in CommitmentPart(c, r)
  {
    hide HashDeviations, CommitmentDeviations, ById;
  }

  lemma HashFinds(c: Case, r: Receipt, d: Deviation)
    ensures d in HashDeviations(c, r) <==> (d.ReceiptUnhashable? || d.ReceiptHash?) && CastWrong(c, r, d)
  {
    hide HeldAgainst;
  }

  lemma CommitmentFinds(c: Case, r: Receipt, d: Deviation)
    ensures d in CommitmentPart(c, r) <==> OfCommitment(d) && CastWrong(c, r, d)
  {
    HeldSnapshot(c, r);
    hide ById, HeldAgainst;
    if r.snapshotId in ById(c.snapshots) {
      var i :| 0 <= i < |c.snapshots| && HeldAgainst(c, r, i);
    }
  }

  lemma ReceiptFinds(c: Case, r: Receipt, d: Deviation)
    ensures d in ReceiptDeviations(c, r) <==> ReceiptWrong(c, r, d)
  {
    MissedFinds(c, r, d);
    CastFinds(c, r, d);
    hide MissedDeviations, CastDeviations, MissedWrong, CastWrong;
  }

  lemma {:induction false} ReceiptsFind(c: Case, k: nat, d: Deviation)
    requires k <= |c.receipts|
    ensures d in ReceiptPass(c, k) <==> exists r :: r in c.receipts[..k] && ReceiptWrong(c, r, d)
  {
    hide *;
    NothingChecked(c, NOTHING_OBSERVED);
    if k > 0 {
      ReceiptsFind(c, k - 1, d);
      ReceiptStep(c, k - 1, []);
      ReceiptFinds(c, c.receipts[k - 1], d);
      assert c.receipts[..k] == c.receipts[..k - 1] + [c.receipts[k - 1]];
      assert [] + ReceiptPass(c, k) == ReceiptPass(c, k) && [] + ReceiptPass(c, k - 1) == ReceiptPass(c, k - 1);
    }
  }

  lemma {:induction false} AttestingIsFirst(receipts: seq<Receipt>, voteHash: string)
    ensures Attesting(receipts, voteHash).Some? ==> exists k ::
      && 0 <= k < |receipts| && receipts[k] == Attesting(receipts, voteHash).value
      && forall j :: 0 <= j < k ==> receipts[j].voteHash != voteHash
  {
    if |receipts| > 0 {
      if receipts[0].voteHash == voteHash {
        assert receipts[0] == Attesting(receipts, voteHash).value;
      } else {
        AttestingIsFirst(receipts[1..], voteHash);
        if Attesting(receipts, voteHash).Some? {
          var k :| 0 <= k < |receipts[1..]| && receipts[1..][k] == Attesting(receipts[1..], voteHash).value
            && forall j :: 0 <= j < k ==> receipts[1..][j].voteHash != voteHash;
          assert receipts[k + 1] == Attesting(receipts, voteHash).value;
          forall j | 0 <= j < k + 1 ensures receipts[j].voteHash != voteHash {
            if j > 0 { assert receipts[j] == receipts[1..][j - 1]; }
          }
        }
      }
    }
  }

  lemma AttestsMeans(c: Case)
    ensures c.current.Some? && Attesting(c.receipts, c.current.value.voteHash).Some? ==>
      exists k :: Attests(c, k) && c.receipts[k] == Attesting(c.receipts, c.current.value.voteHash).value
    ensures forall j, k :: Attests(c, j) && Attests(c, k) ==> j == k
    ensures c.current.Some? && Attesting(c.receipts, c.current.value.voteHash).None? ==> forall k :: !Attests(c, k)
  {
    if c.current.Some? { AttestingIsFirst(c.receipts, c.current.value.voteHash); }
    if c.current.Some? && Attesting(c.receipts, c.current.value.voteHash).Some? {
      var h := c.current.value.voteHash;
      var k :| 0 <= k < |c.receipts| && c.receipts[k] == Attesting(c.receipts, h).value
        && forall j :: 0 <= j < k ==> c.receipts[j].voteHash != h;
      assert Attests(c, k);
    }
    hide Attesting;
  }

  lemma VoteFinds(c: Case, d: Deviation)
    ensures VoteWrong(c, d) <==>
      || d in VoteDeviations(c)
      || d in When(Latest(c).None? && (c.current.Some? || c.tallyOutcome != NO_OUTCOME), NoSnapshot)
  {
    if c.current.Some? && Attesting(c.receipts, c.current.value.voteHash).Some? {
      StandingFinds(c, d);
    } else {
      AttestsMeans(c);
      hide Attesting;
    }
  }

  lemma StandingFinds(c: Case, d: Deviation)
    requires c.current.Some? && Attesting(c.receipts, c.current.value.voteHash).Some?
    ensures VoteWrong(c, d) <==>
      || d in VoteDeviations(c)
      || d in When(Latest(c).None? && (c.current.Some? || c.tallyOutcome != NO_OUTCOME), NoSnapshot)
  {
    AttestsMeans(c);
    StandingParts(c, d);
    var r := Attesting(c.receipts, c.current.value.voteHash).value;
    var k :| Attests(c, k) && c.receipts[k] == r;
    NotMissing(c, d);
    hide *;
    StandingWrong(c, k, d);
  }

  lemma NotMissing(c: Case, d: Deviation)
    requires c.current.Some? && Attesting(c.receipts, c.current.value.voteHash).Some?
    ensures Latest(c).Some? || c.snapshots == []
    ensures d in When(Latest(c).None? && (c.current.Some? || c.tallyOutcome != NO_OUTCOME), NoSnapshot) <==>
      d.NoSnapshot? && c.snapshots == []
  {
  }

  lemma StandingWrong(c: Case, k: int, d: Deviation)
    requires Attests(c, k)
    ensures var r, v := c.receipts[k], c.current.value;
      VoteWrong(c, d) <==>
        || (d == CurrentOutcome(r.id) && r.voteOutcome != v.outcome)
        || (d == CurrentSignal(r.id) && r.voteSignal != v.signal)
        || (d == CurrentTime(r.id) && r.voteTimestamp != v.time)
        || (d.NoSnapshot? && c.snapshots == [])
  {
    assert c.receipts[k] in c.receipts;
    forall j ensures Attests(c, j) ==> j == k {}
  }

  lemma StandingParts(c: Case, d: Deviation)
    requires c.current.Some? && Attesting(c.receipts, c.current.value.voteHash).Some?
    ensures var r, v := Attesting(c.receipts, c.current.value.voteHash).value, c.current.value;
      d in VoteDeviations(c) <==>
        || (d == CurrentOutcome(r.id) && r.voteOutcome != v.outcome)
        || (d == CurrentSignal(r.id) && r.voteSignal != v.signal)
        || (d == CurrentTime(r.id) && r.voteTimestamp != v.time)
  {
    hide Attesting;
  }

  // The three ways a standing vote or snapshot can have been overtaken by the members.
  lemma StalesMean(c: Case, t: Stale)
    ensures t in Stales(c) <==>
      match t
      case TallyMoved =>
        |c.snapshots| > 0 && var o := c.snapshots[|c.snapshots| - 1];
          o.tallyHash != c.tallyHash && o.outcome != c.tallyOutcome
      case VoteDiffers =>
        c.current.Some? && c.tallyOutcome != NO_OUTCOME && c.current.value.outcome != c.tallyOutcome
      case VoteWithheld => c.current.Some? && c.tallyOutcome == NO_OUTCOME
  {
  }

  // A snapshot is dealt with by an honest receipt, and by a missed-vote attestation only if
  // the first snapshot of its id authenticates itself.
  lemma DealtWithMeans(c: Case, id: string)
    ensures id in Referenced(c, |c.receipts|) <==> exists r :: r in c.receipts && DealsWith(c, r, id)
  {
    DealtWithUpTo(c, |c.receipts|, id);
    assert c.receipts[..|c.receipts|] == c.receipts;
    hide Referenced, DealsWith;
  }

  predicate DealsWith(c: Case, r: Receipt, id: string) {
    && r.snapshotId == id && ReceiptHonest(c, r)
    && (r.kind == Missed ==>
         exists i :: 0 <= i < |c.snapshots| && c.snapshots[i].id == id && FirstOfId(c.snapshots, i)
           && SelfAuthenticates(c, c.snapshots[i]))
  }

  lemma {:induction false} MemoIsFirst(c: Case, k: nat, i: nat)
    requires i < k <= |c.snapshots| && FirstOfId(c.snapshots, i)
    ensures var id := c.snapshots[i].id;
      id in Memo(c, k) && (Memo(c, k)[id] <==> SelfAuthenticates(c, c.snapshots[i]))
  {
    hide *;
    SnapshotStep(c, k - 1);
    SnapshotCleanIff(c, c.snapshots[k - 1]);
    SelfIs(c, c.snapshots[i]);
    if i == k - 1 {
      FirstIffNotChecked(c, i);
    } else {
      MemoIsFirst(c, k - 1, i);
    }
  }

  lemma SelfIs(c: Case, o: Snapshot)
    ensures SelfAuthenticates(c, o) <==> Authentic(ContextOf(c), o)
  {
  }

  lemma {:induction false} FirstExists(os: seq<Snapshot>, j: nat) returns (i: nat)
    requires j < |os|
    ensures i <= j && os[i].id == os[j].id && FirstOfId(os, i)
  {
    if k :| 0 <= k < j && os[k].id == os[j].id { i := FirstExists(os, k); } else { i := j; }
  }

  lemma CleanMeansDealt(c: Case, r: Receipt)
    ensures Clean(c, r) <==> DealsWith(c, r, r.snapshotId)
  {
    ReceiptCleanIff(c, r);
    MemoKeys(c, |c.snapshots|, r.snapshotId);
    hide ReceiptDeviations, ReceiptHonest, Memo, FirstOfId, SelfAuthenticates;
    if j :| 0 <= j < |c.snapshots| && c.snapshots[j].id == r.snapshotId {
      var i := FirstExists(c.snapshots, j);
      MemoIsFirst(c, |c.snapshots|, i);
      forall h | 0 <= h < |c.snapshots| && c.snapshots[h].id == r.snapshotId && FirstOfId(c.snapshots, h)
        ensures Memo(c, |c.snapshots|)[r.snapshotId] <==> SelfAuthenticates(c, c.snapshots[h])
      {
        MemoIsFirst(c, |c.snapshots|, h);
      }
    }
  }

  lemma {:induction false} DealtWithUpTo(c: Case, k: nat, id: string)
    requires k <= |c.receipts|
    ensures id in Referenced(c, k) <==> exists r :: r in c.receipts[..k] && DealsWith(c, r, id)
  {
    hide *;
    NothingChecked(c, NOTHING_OBSERVED);
    if k > 0 {
      DealtWithUpTo(c, k - 1, id);
      ReceiptStep(c, k - 1, []);
      CleanMeansDealt(c, c.receipts[k - 1]);
      OnlyItsOwn(c, c.receipts[k - 1], id);
      assert c.receipts[..k] == c.receipts[..k - 1] + [c.receipts[k - 1]];
    }
  }

  lemma OnlyItsOwn(c: Case, r: Receipt, id: string)
    ensures DealsWith(c, r, id) ==> r.snapshotId == id
  {
  }

  // ---------- what a clean verdict vouches for, in one context ----------

  predicate AllAuthentic(ctx: Context, os: seq<Snapshot>) {
    forall i :: 0 <= i < |os| ==> Authentic(ctx, os[i])
  }

  // A vote on the snapshot's outcome, in time and with a hash.
  predicate CastAs(ctx: Context, o: Snapshot, signal: string, time: int, hash: string) {
    && o.outcome != NO_OUTCOME
    && ctx.hashVote(signal, o.outcome, time) == Some(hash)
    && o.createdAt <= (time + VOTE_TIME_GRACE_SECONDS) * 1000
  }

  ghost predicate Castable(ctx: Context, o: Snapshot) {
    exists signal, time, hash :: CastAs(ctx, o, signal, time, hash)
  }

  // A vote with a hash of its own, not the sentinel of a missed vote.
  ghost predicate Votable(ctx: Context, o: Snapshot) {
    exists signal, time, hash :: CastAs(ctx, o, signal, time, hash) && hash != ZERO_HASH
  }

  // The snapshots that a cast receipt, or the standing vote's, can be held against.
  ghost predicate CastableAuthentic(ctx: Context, os: seq<Snapshot>) {
    forall i :: 0 <= i < |os| && LastOfId(os, i) && Castable(ctx, os[i]) ==> Authentic(ctx, os[i])
  }

  ghost predicate VotableAuthentic(ctx: Context, os: seq<Snapshot>) {
    forall i :: 0 <= i < |os| && LastOfId(os, i) && Votable(ctx, os[i]) ==> Authentic(ctx, os[i])
  }

  // Every snapshot a cast receipt is held against authenticates itself.
  predicate CastsAuthenticated(c: Case) {
    forall r, i :: r in c.receipts && r.kind == Cast && 0 <= i < |c.snapshots| && HeldAgainst(c, r, i) ==>
      SelfAuthenticates(c, c.snapshots[i])
  }

  // The snapshot that the standing vote's receipt is held against authenticates itself.
  predicate VoteAuthenticated(c: Case) {
    c.current.Some? && c.current.value.voteHash != ZERO_HASH &&
    Attesting(c.receipts, c.current.value.voteHash).Some? ==>
      var r := Attesting(c.receipts, c.current.value.voteHash).value;
      forall i :: 0 <= i < |c.snapshots| && HeldAgainst(c, r, i) ==> SelfAuthenticates(c, c.snapshots[i])
  }

  // A clean case with these snapshots in this context.
  ghost predicate CleanCase(c: Case, ctx: Context, os: seq<Snapshot>) {
    ContextOf(c) == ctx && c.snapshots == os && Deviations(c) == []
  }

  // No clean verdict passes an unauthenticated snapshot, cast or standing vote.
  ghost predicate SnapshotsSoundIn(ctx: Context, os: seq<Snapshot>) {
    forall c: Case :: CleanCase(c, ctx, os) ==> AllAuthentic(ctx, os)
  }

  ghost predicate CastsSoundIn(ctx: Context, os: seq<Snapshot>) {
    forall c: Case :: CleanCase(c, ctx, os) ==> CastsAuthenticated(c)
  }

  ghost predicate VotesSoundIn(ctx: Context, os: seq<Snapshot>) {
    forall c: Case :: CleanCase(c, ctx, os) ==> VoteAuthenticated(c)
  }

  lemma CleanMeans(c: Case, ctx: Context, os: seq<Snapshot>)
    requires CleanCase(c, ctx, os)
    ensures FirstsAuthentic(ctx, os) && AllHonest(c, c.receipts)
  {
    hide FirstsAuthentic, AllHonest, VoteAttested, Deviations;
    VerdictCleanIff(c);
  }

  // The snapshot a cast receipt is held against is one its vote implements.
  lemma HeldIsCast(c: Case, r: Receipt, i: nat)
    requires AllHonest(c, c.receipts) && r in c.receipts && r.kind == Cast
    requires i < |c.snapshots| && HeldAgainst(c, r, i)
    ensures CastAs(ContextOf(c), c.snapshots[i], r.voteSignal, r.voteTimestamp, r.voteHash)
  {
    assert ReceiptHonest(c, r) && CastHonest(c, r);
    var j :| 0 <= j < |c.snapshots| && HeldAgainst(c, r, j) && Implements(r, c.snapshots[j]);
    LastIsKept(c.snapshots, i);
    LastIsKept(c.snapshots, j);
    hide LastOfId, ById;
  }

  // A case with one receipt, whose vote stands.
  function CaseOf(ctx: Context, os: seq<Snapshot>, r: Receipt): Case {
    Case(ctx.operator, ctx.proTx, {}, NO_OUTCOME, "", os, [r],
         Some(Vote(r.voteHash, r.voteOutcome, r.voteSignal, r.voteTimestamp)), 0, ctx.rebuild, ctx.hashVote)
  }

  lemma CaseOfClean(ctx: Context, os: seq<Snapshot>, r: Receipt)
    requires os != [] && FirstsAuthentic(ctx, os) && ReceiptHonest(CaseOf(ctx, os, r), r)
    ensures CleanCase(CaseOf(ctx, os, r), ctx, os)
  {
    var c := CaseOf(ctx, os, r);
    assert AllHonest(c, c.receipts) && VoteAttested(c);
    hide FirstsAuthentic, AllHonest, VoteAttested, Deviations, ReceiptHonest;
    VerdictCleanIff(c);
  }

  function CastReceipt(ctx: Context, o: Snapshot, signal: string, time: int, hash: string): Receipt {
    Receipt(Cast, "r", ctx.operator, o.id, hash, o.outcome, time, signal, ctx.proTx)
  }

  // A receipt for any vote on the last snapshot of an id makes a clean case where the firsts authenticate.
  lemma CastIsClean(ctx: Context, os: seq<Snapshot>, n: nat, signal: string, time: int, hash: string)
    requires n < |os| && LastOfId(os, n) && CastAs(ctx, os[n], signal, time, hash) && FirstsAuthentic(ctx, os)
    ensures var r := CastReceipt(ctx, os[n], signal, time, hash);
      CleanCase(CaseOf(ctx, os, r), ctx, os) && HeldAgainst(CaseOf(ctx, os, r), r, n)
  {
    var r := CastReceipt(ctx, os[n], signal, time, hash);
    assert HeldAgainst(CaseOf(ctx, os, r), r, n) && Implements(r, os[n]);
    hide LastOfId, FirstsAuthentic;
    CaseOfClean(ctx, os, r);
    hide HeldAgainst, CleanCase;
  }

  // So does the attestation of a missed vote on the last snapshot of all.
  lemma MissedIsClean(ctx: Context, os: seq<Snapshot>) returns (c: Case)
    requires os != [] && FirstsAuthentic(ctx, os)
    ensures CleanCase(c, ctx, os)
  {
    var n := |os| - 1;
    var time := if os[n].createdAt > 0 then os[n].createdAt else 0;
    var r := Receipt(Missed, "r", ctx.operator, os[n].id, ZERO_HASH, NO_OUTCOME, time, NO_SIGNAL, ctx.proTx);
    c := CaseOf(ctx, os, r);
    assert HeldAgainst(c, r, n);
    hide FirstsAuthentic;
    CaseOfClean(ctx, os, r);
  }

  // A clean verdict vouches for every snapshot exactly when, the first ones of their ids
  // being authentic, all are.
  lemma SnapshotsSoundInIff(ctx: Context, os: seq<Snapshot>)
    ensures SnapshotsSoundIn(ctx, os) <==> (FirstsAuthentic(ctx, os) ==> AllAuthentic(ctx, os))
  {
    hide FirstsAuthentic, CleanCase;
    if FirstsAuthentic(ctx, os) ==> AllAuthentic(ctx, os) {
      forall c: Case | CleanCase(c, ctx, os) ensures AllAuthentic(ctx, os) { CleanMeans(c, ctx, os); }
    } else {
      var c := MissedIsClean(ctx, os);
    }
  }

  // It vouches for the snapshots behind its cast receipts exactly when, the first ones being
  // authentic, so is the last one of every id that a vote can be cast on.
  lemma CastsSoundInIff(ctx: Context, os: seq<Snapshot>)
    ensures CastsSoundIn(ctx, os) <==> (FirstsAuthentic(ctx, os) ==> CastableAuthentic(ctx, os))
  {
    hide FirstsAuthentic, CleanCase, CastAs, Authentic;
    if FirstsAuthentic(ctx, os) ==> CastableAuthentic(ctx, os) {
      forall c: Case | CleanCase(c, ctx, os) ensures CastsAuthenticated(c) {
        CleanMeans(c, ctx, os);
        CastsFollow(c, ctx, os);
      }
    } else {
      var n :| 0 <= n < |os| && LastOfId(os, n) && Castable(ctx, os[n]) && !Authentic(ctx, os[n]);
      var signal, time, hash :| CastAs(ctx, os[n], signal, time, hash);
      CastIsClean(ctx, os, n, signal, time, hash);
      var r := CastReceipt(ctx, os[n], signal, time, hash);
      assert r in CaseOf(ctx, os, r).receipts;
      hide HeldAgainst, LastOfId;
    }
  }

  lemma CastsFollow(c: Case, ctx: Context, os: seq<Snapshot>)
    requires CleanCase(c, ctx, os) && AllHonest(c, c.receipts) && CastableAuthentic(ctx, os)
    ensures CastsAuthenticated(c)
  {
    hide Deviations, AllHonest, CastAs;
    forall r, i | r in c.receipts && r.kind == Cast && 0 <= i < |c.snapshots| && HeldAgainst(c, r, i)
      ensures SelfAuthenticates(c, c.snapshots[i])
    {
      HeldIsCast(c, r, i);
      assert LastOfId(os, i) && Castable(ctx, os[i]);
    }
  }

  // The same for the snapshot behind the standing vote.
  lemma VotesSoundInIff(ctx: Context, os: seq<Snapshot>)
    ensures VotesSoundIn(ctx, os) <==> (FirstsAuthentic(ctx, os) ==> VotableAuthentic(ctx, os))
  {
    hide FirstsAuthentic, CleanCase, CastAs, Authentic;
    if FirstsAuthentic(ctx, os) ==> VotableAuthentic(ctx, os) {
      forall c: Case | CleanCase(c, ctx, os) ensures VoteAuthenticated(c) {
        CleanMeans(c, ctx, os);
        VoteFollows(c, ctx, os);
      }
    } else {
      var n :| 0 <= n < |os| && LastOfId(os, n) && Votable(ctx, os[n]) && !Authentic(ctx, os[n]);
      var signal, time, hash :| CastAs(ctx, os[n], signal, time, hash) && hash != ZERO_HASH;
      CastIsClean(ctx, os, n, signal, time, hash);
      StandingIsItsOwn(ctx, os, CastReceipt(ctx, os[n], signal, time, hash));
      hide HeldAgainst, LastOfId, Attesting;
    }
  }

  lemma StandingIsItsOwn(ctx: Context, os: seq<Snapshot>, r: Receipt)
    ensures var c := CaseOf(ctx, os, r); c.current.Some? && Attesting(c.receipts, c.current.value.voteHash) == Some(r)
  {
  }

  lemma VoteFollows(c: Case, ctx: Context, os: seq<Snapshot>)
    requires CleanCase(c, ctx, os) && AllHonest(c, c.receipts) && VotableAuthentic(ctx, os)
    ensures VoteAuthenticated(c)
  {
    if c.current.Some? && c.current.value.voteHash != ZERO_HASH
       && Attesting(c.receipts, c.current.value.voteHash).Some?
    {
      var r := Attesting(c.receipts, c.current.value.voteHash).value;
      hide Deviations, CastAs, Attesting;
      assert ReceiptHonest(c, r);
      hide AllHonest;
      forall i | 0 <= i < |c.snapshots| && HeldAgainst(c, r, i) ensures SelfAuthenticates(c, c.snapshots[i]) {
        HeldIsCast(c, r, i);
        assert LastOfId(os, i) && Votable(ctx, os[i]);
      }
    }
  }

  // ---------- and whatever the context: what repeated ids cost ----------

  predicate SameSigner(a: Snapshot, b: Snapshot) {
    a.owner == b.owner && a.proTx == b.proTx
  }

  predicate SameRows(a: Snapshot, b: Snapshot) {
    a.rows == b.rows && Format(a) == Format(b)
  }

  predicate SameResult(a: Snapshot, b: Snapshot) {
    a.tallyHash == b.tallyHash && a.outcome == b.outcome
  }

  // Two snapshots that some context authenticates both.
  predicate Compatible(a: Snapshot, b: Snapshot) {
    SameSigner(a, b) && (SameRows(a, b) ==> SameResult(a, b))
  }

  // Two snapshots that every context authenticates alike.
  predicate Alike(a: Snapshot, b: Snapshot) {
    SameSigner(a, b) && SameRows(a, b) && SameResult(a, b)
  }

  predicate FirstsAgree(os: seq<Snapshot>) {
    forall i, j :: 0 <= i < |os| && 0 <= j < |os| && FirstOfId(os, i) && FirstOfId(os, j) ==> Compatible(os[i], os[j])
  }

  predicate Covered(os: seq<Snapshot>, o: Snapshot) {
    exists j :: 0 <= j < |os| && FirstOfId(os, j) && Alike(os[j], o)
  }

  predicate AllCovered(os: seq<Snapshot>) {
    forall i :: 0 <= i < |os| ==> Covered(os, os[i])
  }

  // Those a cast receipt can be held against.
  predicate LastsCovered(os: seq<Snapshot>) {
    forall i :: 0 <= i < |os| && LastOfId(os, i) && os[i].outcome != NO_OUTCOME ==> Covered(os, os[i])
  }

  lemma AuthenticAgree(ctx: Context, os: seq<Snapshot>)
    requires FirstsAuthentic(ctx, os)
    ensures FirstsAgree(os)
  {
    hide FirstOfId;
  }

  lemma CoveredAuthentic(ctx: Context, os: seq<Snapshot>, o: Snapshot)
    requires FirstsAuthentic(ctx, os) && Covered(os, o)
    ensures Authentic(ctx, o)
  {
    var j :| 0 <= j < |os| && FirstOfId(os, j) && Alike(os[j], o);
    hide FirstOfId;
  }

  // A rebuilding of rows that reproduces every first snapshot of its id.
  function Lookup(os: seq<Snapshot>, k: nat, rows: string, format: nat): Option<Rebuilt>
    requires k <= |os|
  {
    if k == 0 then None
    else if FirstOfId(os, k - 1) && os[k - 1].rows == rows && Format(os[k - 1]) == format then
      Some(Rebuilt(os[k - 1].tallyHash, os[k - 1].outcome))
    else Lookup(os, k - 1, rows, format)
  }

  lemma {:induction false} LookupIsFirst(os: seq<Snapshot>, k: nat, o: Snapshot)
    requires k <= |os| && Lookup(os, k, o.rows, Format(o)).Some?
    ensures exists j ::
      && 0 <= j < k && FirstOfId(os, j) && SameRows(os[j], o)
      && Lookup(os, k, o.rows, Format(o)) == Some(Rebuilt(os[j].tallyHash, os[j].outcome))
  {
    hide FirstOfId;
    if !(FirstOfId(os, k - 1) && SameRows(os[k - 1], o)) { LookupIsFirst(os, k - 1, o); }
  }

  lemma {:induction false} LookupFinds(os: seq<Snapshot>, k: nat, i: nat)
    requires FirstsAgree(os) && i < k <= |os| && FirstOfId(os, i)
    ensures Lookup(os, k, os[i].rows, Format(os[i])) == Some(Rebuilt(os[i].tallyHash, os[i].outcome))
  {
    hide FirstOfId;
    if i < k - 1 {
      LookupFinds(os, k - 1, i);
      if FirstOfId(os, k - 1) { assert Compatible(os[k - 1], os[i]); }
    }
  }

  const SOME_HASH := "v"

  // A context that knows only the first snapshot of each id, and hashes every vote.
  function Fooled(os: seq<Snapshot>): Context
    requires |os| > 0
  {
    Context(os[0].owner, os[0].proTx, (rows: string, format: nat) => Lookup(os, |os|, rows, format),
            (signal, outcome, time) => Some(SOME_HASH))
  }

  lemma FooledFirsts(os: seq<Snapshot>)
    requires FirstsAgree(os) && |os| > 0
    ensures FirstsAuthentic(Fooled(os), os)
  {
    assert FirstOfId(os, 0);
    forall i | 0 <= i < |os| && FirstOfId(os, i) ensures Authentic(Fooled(os), os[i]) {
      LookupFinds(os, |os|, i);
      assert Compatible(os[0], os[i]);
      hide FirstOfId, Lookup;
    }
  }

  lemma FooledMisses(os: seq<Snapshot>, o: Snapshot)
    requires FirstsAgree(os) && |os| > 0 && !Covered(os, o)
    ensures !Authentic(Fooled(os), o)
  {
    if Lookup(os, |os|, o.rows, Format(o)).Some? {
      LookupIsFirst(os, |os|, o);
      var j :| 0 <= j < |os| && FirstOfId(os, j) && SameRows(os[j], o)
        && Lookup(os, |os|, o.rows, Format(o)) == Some(Rebuilt(os[j].tallyHash, os[j].outcome));
      assert FirstOfId(os, 0);
      assert Compatible(os[0], os[j]);
      assert !Alike(os[j], o);
      hide FirstOfId, Lookup;
    }
  }

  lemma FooledVotable(os: seq<Snapshot>, o: Snapshot)
    requires |os| > 0 && o.outcome != NO_OUTCOME
    ensures Castable(Fooled(os), o) && Votable(Fooled(os), o)
  {
    var time := if o.createdAt > 0 then o.createdAt else 0;
    assert |SOME_HASH| == 1 && |ZERO_HASH| == 64;
    assert CastAs(Fooled(os), o, "s", time, SOME_HASH);
  }

  // In every context a clean verdict vouches for every snapshot exactly when the first
  // snapshots of their ids contradict each other, so that no verdict is clean, or every
  // snapshot says what one of them says.
  lemma SnapshotsSoundIff(os: seq<Snapshot>)
    ensures (forall ctx :: SnapshotsSoundIn(ctx, os)) <==> (FirstsAgree(os) ==> AllCovered(os))
  {
    hide *;
    if FirstsAgree(os) ==> AllCovered(os) {
      forall ctx ensures SnapshotsSoundIn(ctx, os) {
        SnapshotsSoundInIff(ctx, os);
        if FirstsAuthentic(ctx, os) {
          AuthenticAgree(ctx, os);
          AllCoveredAuthentic(ctx, os);
        }
      }
    } else {
      var i := Uncovered(os);
      FooledFirsts(os);
      FooledMisses(os, os[i]);
      SnapshotsSoundInIff(Fooled(os), os);
      NotAllAuthentic(Fooled(os), os, i);
    }
  }

  lemma AllCoveredAuthentic(ctx: Context, os: seq<Snapshot>)
    requires FirstsAuthentic(ctx, os) && AllCovered(os)
    ensures AllAuthentic(ctx, os)
  {
    hide FirstsAuthentic, Covered, Authentic;
    forall i | 0 <= i < |os| ensures Authentic(ctx, os[i]) { CoveredAuthentic(ctx, os, os[i]); }
  }

  lemma Uncovered(os: seq<Snapshot>) returns (i: nat)
    requires !AllCovered(os)
    ensures i < |os| && !Covered(os, os[i])
  {
    hide Covered;
    i :| 0 <= i < |os| && !Covered(os, os[i]);
  }

  lemma NotAllAuthentic(ctx: Context, os: seq<Snapshot>, i: nat)
    requires i < |os| && !Authentic(ctx, os[i])
    ensures !AllAuthentic(ctx, os)
  {
    hide Authentic;
  }

  // The same for the snapshots that cast receipts, and the standing vote, are held against:
  // the last of each id.
  lemma CastsSoundIff(os: seq<Snapshot>)
    ensures (forall ctx :: CastsSoundIn(ctx, os)) <==> (FirstsAgree(os) ==> LastsCovered(os))
  {
    hide *;
    if FirstsAgree(os) ==> LastsCovered(os) {
      forall ctx ensures CastsSoundIn(ctx, os) {
        CastsSoundInIff(ctx, os);
        if FirstsAuthentic(ctx, os) {
          AuthenticAgree(ctx, os);
          LastsCoveredAuthentic(ctx, os);
        }
      }
    } else {
      FooledLast(os);
      CastsSoundInIff(Fooled(os), os);
    }
  }

  lemma VotesSoundIff(os: seq<Snapshot>)
    ensures (forall ctx :: VotesSoundIn(ctx, os)) <==> (FirstsAgree(os) ==> LastsCovered(os))
  {
    hide *;
    if FirstsAgree(os) ==> LastsCovered(os) {
      forall ctx ensures VotesSoundIn(ctx, os) {
        VotesSoundInIff(ctx, os);
        if FirstsAuthentic(ctx, os) {
          AuthenticAgree(ctx, os);
          LastsCoveredAuthentic(ctx, os);
        }
      }
    } else {
      FooledLast(os);
      VotesSoundInIff(Fooled(os), os);
    }
  }

  lemma LastsCoveredAuthentic(ctx: Context, os: seq<Snapshot>)
    requires FirstsAuthentic(ctx, os) && LastsCovered(os)
    ensures CastableAuthentic(ctx, os) && VotableAuthentic(ctx, os)
  {
    hide FirstsAuthentic, Covered, Authentic, LastOfId;
    forall i | 0 <= i < |os| && LastOfId(os, i) && os[i].outcome != NO_OUTCOME ensures Authentic(ctx, os[i]) {
      CoveredAuthentic(ctx, os, os[i]);
    }
  }

  lemma FooledLast(os: seq<Snapshot>)
    requires FirstsAgree(os) && !LastsCovered(os)
    ensures |os| > 0 && FirstsAuthentic(Fooled(os), os)
    ensures !CastableAuthentic(Fooled(os), os) && !VotableAuthentic(Fooled(os), os)
  {
    var n :| 0 <= n < |os| && LastOfId(os, n) && os[n].outcome != NO_OUTCOME && !Covered(os, os[n]);
    hide FirstsAgree, Covered, LastOfId, FirstsAuthentic, Authentic, Castable, Votable;
    FooledFirsts(os);
    FooledMisses(os, os[n]);
    FooledVotable(os, os[n]);
  }

  predicate DistinctIds(os: seq<Snapshot>) {
    forall i :: 0 <= i < |os| ==> FirstOfId(os, i)
  }

  // Distinct ids are enough, and not needed: a snapshot listed twice is covered by itself.
  lemma DistinctIdsSuffice(os: seq<Snapshot>)
    ensures DistinctIds(os) ==> AllCovered(os)
    ensures AllCovered(os) ==> LastsCovered(os)
    ensures forall o :: AllCovered([o, o])
  {
    if DistinctIds(os) {
      forall i | 0 <= i < |os| ensures Covered(os, os[i]) { assert FirstOfId(os, i) && Alike(os[i], os[i]); }
    }
    forall o ensures AllCovered([o, o]) {
      assert FirstOfId([o, o], 0) && Alike([o, o][0], o);
    }
  }

  // Where verdicts are sound, a clean one is exactly every snapshot authenticating itself,
  // every receipt honest and the standing vote attested.
  lemma CleanVerdictIff(c: Case)
    requires FirstsAuthentic(ContextOf(c), c.snapshots) ==> AllAuthentic(ContextOf(c), c.snapshots)
    ensures Deviations(c) == [] <==>
      && AllAuthentic(ContextOf(c), c.snapshots)
      && AllHonest(c, c.receipts)
      && VoteAttested(c)
      && (c.snapshots == [] ==> c.current.None? && c.tallyOutcome == NO_OUTCOME)
  {
    hide Deviations, AllHonest, VoteAttested, Authentic, FirstOfId;
    VerdictCleanIff(c);
  }

  // A vote standing under a clean verdict implements a snapshot that the operator signed and
  // that its own rows reproduce, committed no later than the vote's time and the hour's grace.
  lemma StandingVoteWasCommitted(c: Case)
    requires FirstsAuthentic(ContextOf(c), c.snapshots) ==> VotableAuthentic(ContextOf(c), c.snapshots)
    requires Deviations(c) == [] && c.current.Some? && c.current.value.voteHash != ZERO_HASH
    ensures exists o ::
      && o in c.snapshots && SelfAuthenticates(c, o)
      && o.outcome == c.current.value.outcome != NO_OUTCOME
      && o.createdAt <= (c.current.value.time + VOTE_TIME_GRACE_SECONDS) * 1000
  {
    hide FirstsAuthentic, VotableAuthentic, Deviations, Attesting;
    VerdictCleanIff(c);
    VoteFollows(c, ContextOf(c), c.snapshots);
    var r := Attesting(c.receipts, c.current.value.voteHash).value;
    assert ReceiptHonest(c, r) && CastHonest(c, r);
    var i :| 0 <= i < |c.snapshots| && HeldAgainst(c, r, i) && Implements(r, c.snapshots[i]);
    assert SelfAuthenticates(c, c.snapshots[i]);
  }

  // One such case: a forged snapshot under the id of an authentic one.
  lemma RepeatedIdHidesForgery(c: Case, first: Snapshot, last: Snapshot, r: Receipt)
    requires SelfAuthenticates(c, first) && last.id == first.id && !SelfAuthenticates(c, last)
    requires r.kind == Cast && r.owner == c.operator && r.proTx == c.proTx && r.snapshotId == last.id
    requires c.hashVote(r.voteSignal, r.voteOutcome, r.voteTimestamp) == Some(r.voteHash) && Implements(r, last)
    requires c.snapshots == [first, last] && c.receipts == [r]
    requires c.current == Some(Vote(r.voteHash, r.voteOutcome, r.voteSignal, r.voteTimestamp))
    ensures Deviations(c) == []
  {
    VerdictCleanIff(c);
    assert c.snapshots[0].id == c.snapshots[1].id && !FirstOfId(c.snapshots, 1);
    assert HeldAgainst(c, r, 1);
    hide Deviations, FirstOfId, HeldAgainst;
  }
}
