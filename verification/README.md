# Tegara verification model

Tegara is the accounting layer of a pooled Dash masternode: it decides, from retained evidence,
which rewards the pool was owed, whether the pool was recognized for them, who owned each retail
slot at the time, and how the duffs are split. This project models its offline decision cores in
Dafny and proves the properties they exist for.

| files | what they model |
|---|---|
| `Lifecycle`, `Recognition`, `Eligibility`, `Ownership`, `Coinbase`, `LargestRemainder`, `Rewards`, `ClaimProfile` | the audit-envelope decisions, once as the executable specification (`docs/schema/check_vectors.py`) and once as the production deriver (`auditSeam.cjs`, `rewardEntitlement.cjs`), with the agreement between the two |
| `Bytes`, `Base58`, `CheckpointV2` | the checkpoint-v2 binary format and its identifiers |
| `CompoundJournal` | the write-ahead journal of compounded rewards, its crash recovery, and the whole protocol as a step system with a clock |
| `JsonText`, `CanonicalJson` | the RFC 8785 serializer and a reference parser |
| `ConsensusError` | the consensus-error payload reader with its running allocation limit |
| `Frames`, `Handshake` | the peer-to-peer frame reader and the capture handshake |
| `CastVerify`, `CastVerdict` | the cast-verification verdict, and what a clean one vouches for |

Code that updates state step by step is modelled by methods with loops or by classes, each proved
equal to a specification function; the properties are then lemmas about those functions.
`dafny verify dfyconfig.toml` checks everything.

## What the proofs found

* **A walk that ends on a fresh ban is refused by the deriver.** The specification closes such a ban
  at the observed height, which gives the deriver an interval that starts one above its end.
  `Recognition.FreshBanIsRefused` shows this is the only way an accepted walk is refused, and
  `Rewards.BuildableIffNoFreshBan` that it is the only obstacle to building every reward.
* **The frame reader clears the high bit of command bytes.** A field with a high bit set is read as
  the plain command. `Frames.DrainThenFrame`: framing what was drained reproduces the stream exactly
  when no consumed command field has a high bit.
* **The handshake moves to its waiting state before it builds the request.** With a block hash that
  is not 64 lower-case hex digits the request throws and is never sent, and a session whose caller
  goes on would capture a volunteered diff. `Handshake.RequestedIffHashesValid` gives the exact
  condition. (The command-line program ends on the exception.)
* **The journal's reserve accepts any request id.** An id that is not a document id is stored and
  makes the journal unreadable from then on, and the name of an inherited object property is refused
  as already journaled (`CompoundJournal.Journal.Reserve`, `CompoundJournal.MalformedIdLosesJournal`).
* **Cast verification authenticates the first snapshot of each id and holds receipts against the
  last.** For one operator, masternode, rebuilding of rows and vote hash, every clean verdict has
  authentic snapshots behind its casts if and only if, the first snapshot of every id being authentic,
  so is the last one of every id that a vote can be cast on (`CastVerdict.CastsSoundInIff`, and
  `SnapshotsSoundInIff`, `VotesSoundInIff` beside it). In every such context that holds if and only if
  the first snapshots of their ids contradict each other (no verdict is clean then) or each of those
  last ones says what a first one says (`CastVerdict.CastsSoundIff`). Distinct ids are enough but not
  needed (`CastVerdict.DistinctIdsSuffice`).
* **The journal's age gate is exactly as long as it must be.** No run overspends if and only if the
  gate covers the time within which documents can still land (`CompoundJournal.SafeIffGateCoversWindow`).

## Model

| member | source | states |
|---|---|---|
| LargestRemainder.Gcd | platform/src/scripts/auditSeam.cjs:50 | the loop returns a common divisor that every common divisor is at most |
| LargestRemainder.SumShares | platform/src/scripts/auditSeam.cjs:49-62 | accepts exactly non-negative numerators over positive denominators and returns their exact rational sum in lowest terms |
| LargestRemainder.FractionSum | platform/src/scripts/auditSeam.cjs:81-89 | the floors never exceed the base's share and miss it by less than the number of slots, so the residue lies in [0, n) |
| LargestRemainder.Allocate | platform/src/scripts/auditSeam.cjs:75-102 | succeeds exactly for a non-negative base and a non-empty partition of one, and then returns the largest-remainder allocation; the residue guard is unreachable |
| LargestRemainder.RowBeforeIsPrecedes | platform/src/scripts/auditSeam.cjs:90-98 | the cross-multiplied comparator orders slots by exact remaining fraction, ties by index |
| LargestRemainder.TopUp | platform/src/scripts/auditSeam.cjs:99-100 | raising the first residue slots of that order by one gives an allocation that sums to the base and tops no slot ahead of one with a better claim |
| LargestRemainder.CheckerAllocate | docs/schema/check_vectors.py:1150-1158 | the reduced-fraction sort also returns the largest-remainder allocation |
| LargestRemainder.AllocationUnique | docs/schema/check_vectors.py:1150-1170 | a share list has one largest-remainder allocation, so the deriver's and the checker's agree on every valid list |
| LargestRemainder.ToppedBelowCeiling | platform/src/scripts/auditSeam.cjs:64-73 | every allocation is strictly within one of its exact quota |
| LargestRemainder.GoverningSplit | docs/schema/check_vectors.py:587-591 | under equal shares the allocation is base / n, plus one for the first base mod n slots |
| Lifecycle.CollectTransitions | docs/schema/check_vectors.py:709-713 | the loop collects the state changes of the walk |
| Lifecycle.ScanTransitions | docs/schema/check_vectors.py:714-732 | the loop over transitions computes the terminal height, the open ban and the closed suspensions, or refuses a transition after removal |
| Lifecycle.Reconstruct | docs/schema/check_vectors.py:709-736 | the journal reconstructed from the base state and the walk |
| Lifecycle.AcceptedIffNoReturn | docs/schema/check_vectors.py:719-720 | a walk has a journal exactly when the node never changes state after having been removed, and the journal reaches the last walked height |
| Lifecycle.TerminalIffRemoved | docs/schema/check_vectors.py:727-728 | terminal < H exactly when the node is absent at H-1 and was present before |
| Lifecycle.SuspensionsAreTheRuns | docs/schema/check_vectors.py:714-734 | the suspensions are the maximal banned runs, ascending, each closed once with the right reason, and no run is missing |
| Lifecycle.SuspendedIffBanned | docs/schema/check_vectors.py:956-960 | H lies in a reconstructed suspension exactly when the node is banned at H-1 |
| Lifecycle.ReplayIsLossless | docs/schema/check_vectors.py:709-713 | replaying the transitions from the base state gives every walked state |
| Lifecycle.JournalDeterminesWalk | docs/schema/check_vectors.py:735-738 | two walks from one base state with equal journals are equal |
| Recognition.AssertEpochOrder | platform/src/scripts/auditSeam.cjs:177-199 | accepts exactly typed, forward, ascending, disjoint epochs and captures their bounds |
| Recognition.SearchEpoch | platform/src/scripts/auditSeam.cjs:307-316 | the binary search over captured bounds finds the epoch a scan finds |
| Recognition.SearchBook | platform/src/scripts/auditSeam.cjs:629-639 | the binary search returns the book of the covering epoch, as the specification's scan does |
| Recognition.GaplessCovers | docs/schema/check_vectors.py:606-610 | gapless epochs cover every height of their span, so the last failure of recognition is unreachable |
| Recognition.SuspensionIntervals | platform/src/scripts/auditSeam.cjs:209-230 | succeeds exactly when the intervals are typed, run forward and do not overlap, and returns them searchable and unchanged as a set |
| Recognition.SuspendedLookup | platform/src/scripts/auditSeam.cjs:240-269 | the binary search answers membership in some interval and refuses untyped heights and unordered intervals |
| Recognition.RecognizeWith | platform/src/scripts/auditSeam.cjs:279-348 | over prepared data, returns the specification's status and binding or fails for one of four named reasons; a status is what the signed epochs, bindings and activation, the suspensions and the terminal height say |
| Recognition.RecognizeAt | platform/src/scripts/auditSeam.cjs:355-357 | the exported entry point returns exactly what the linear specification returns whenever it accepts its input, with the same meaning |
| Recognition.RecognizeMeaning | docs/schema/check_vectors.py:930-965 | recognized exactly when some epoch covers H, its first binding of the audited L1 position names the audited contract and pool and is activated by H, and H is neither suspended nor past the terminal height; deferred exactly above the last epoch; the reference names exactly the epoch of that binding |
| Recognition.BookMeaning | platform/src/scripts/auditSeam.cjs:629-639 | the book at H is the first one of the audited contract and pool in the epoch that covers H |
| Recognition.RecognitionRefinement | docs/schema/check_vectors.py:930-965 | for a reconstructed journal and gapless epochs the deriver accepts a height exactly when the walk does not end on a fresh ban and the binding is typed, and the specification never fails |
| Recognition.FreshBanIsRefused | platform/src/scripts/auditSeam.cjs:209-222 | the reconstructed intervals are accepted exactly when the last walked row is not itself a fresh ban |
| Recognition.FreshBanExample | platform/src/scripts/auditSeam.cjs:222 | a two-row walk the specification accepts and the deriver refuses |
| Recognition.RecognizedMeansUnimpeded | docs/schema/check_vectors.py:954-964 | a recognized height has the node valid at H-1, or never yet present |
| Recognition.ValidNodeRecognizedByBinding | docs/schema/check_vectors.py:956-964 | with the node valid at H-1 recognition depends on epoch, binding and activation alone |
| Recognition.ValidNodeRecognizedIff | docs/schema/check_vectors.py:930-965 | with the node valid at H-1, recognized exactly when an activated binding of the audited pool covers H |
| Eligibility.ConsecutiveCoversInterval | docs/schema/check_vectors.py:461-468 | an accepted row sequence holds every height of its interval, ascending |
| Eligibility.WalkIndexInBounds | docs/schema/check_vectors.py:675-689 | for every reward height in an accepted envelope the walk row read exists and a list root is defined |
| Eligibility.AppearedIffPresent | docs/schema/check_vectors.py:984-988 | under a pre-DML base a prior transition out of absence means prior presence, and conversely |
| Eligibility.EligibilityMeaning | docs/schema/check_vectors.py:969-989 | each eligibility state stated over the walk, terminal being absence after presence and absence otherwise unknown only under a range-local base, and the list root it names is the one walked at H-1 or the base's |
| Eligibility.DeriveState | platform/src/scripts/rewardEntitlement.cjs:94-138 | the deriver's state is the specification's, and it refuses exactly an unsafe height and, for an absent node, an unsafe terminal height, first appearance or pre-DML transition it would have to compare |
| Eligibility.DeriveEligibility | platform/src/scripts/auditSeam.cjs:438-442 | the deriver's verdict is the specification's, refused exactly where the walk row is missing or something compared is untyped |
| Eligibility.CheckedHeightTyped | platform/src/scripts/rewardEntitlement.cjs:94-138 | under accepted ranges between safe heights a reconstructed journal is typed wherever it is read |
| Eligibility.UnknownOnlyRangeLocal | docs/schema/check_vectors.py:979-989 | unknown arises exactly under a range-local base with the node absent from the base up to H-1 |
| Ownership.BuildPosMap | docs/schema/check_vectors.py:789-817 | succeeds exactly when every retained position names its own location and none repeats, and maps exactly the retained positions |
| Ownership.VerifyChain | docs/schema/check_vectors.py:875-915 | accepts exactly chains whose every hop is the ledger's own retained decision, field by field, handed over from an operator minting on in ledger order, with a document exactly when non-empty |
| Ownership.VerifyOwnership | docs/schema/check_vectors.py:872-921 | accepts exactly such chains in which every retained decision of the ledger is one hop of one chain |
| Ownership.OwnershipBijection | docs/schema/check_vectors.py:917-921 | every retained position occurs in exactly one hop of exactly one chain, and every hop is retained |
| Ownership.LocateMeaning | docs/schema/check_vectors.py:789-817 | the located decisions are exactly the ledger's, each under its row's height, its transaction and its inner index |
| Ownership.ChainOkIffLedgerChain | docs/schema/check_vectors.py:872-915 | over a position map of the ledger the chain checks hold exactly when position, hash, anchor, seller, buyer and price of every hop are the ledger's and the sales follow one another |
| Ownership.OwnedIffLedger | docs/schema/check_vectors.py:872-921 | the binding is accepted exactly when that holds of every chain and every retained decision is one hop, and only one |
| Ownership.PrepareClosingIndex | platform/src/scripts/auditSeam.cjs:376-405 | accepts exactly typed non-decreasing anchors and captures them |
| Ownership.SearchClosing | platform/src/scripts/auditSeam.cjs:409-425 | the binary search finds the first row whose anchor reaches H, as the specification's scan does |
| Ownership.SearchHop | platform/src/scripts/auditSeam.cjs:684-692 | the hop found ends exactly the prefix the specification's filter keeps |
| Ownership.ResolveAllocation | platform/src/scripts/auditSeam.cjs:472-492 | owner, snapshot and closing block are the specification's |
| Ownership.ChainOkAnchors | platform/src/scripts/auditSeam.cjs:669-677 | the specification's chain order implies the deriver's anchor precondition |
| Ownership.EligibleIffBeforeClosing | docs/schema/check_vectors.py:1180 | a hop's anchor is below H exactly when its row comes before the first closing row |
| Ownership.ClosingMeaning | platform/src/scripts/auditSeam.cjs:409-425 | nothing is resolved exactly when no row's anchor reaches H, and otherwise the closing block is the first that does |
| Ownership.OwnerIsLastBuyerBeforeClosing | docs/schema/check_vectors.py:1173-1193 | the owner is the buyer of the last hop before the closing block, or the operator if there is none |
| Coinbase.MarkUsed | docs/schema/check_vectors.py:1055-1064 | the greedy scan uses an output exactly when fewer of its class precede it than are required |
| Coinbase.MatchOutputs | docs/schema/check_vectors.py:1055-1069 | the matched and unexplained lists of the greedy scan, in index order |
| Coinbase.MatchOwnerVector | platform/src/scripts/rewardEntitlement.cjs:145-193 | buckets and cursors give the scan's two lists for the outputs in index order, whatever order they come in, and exactly a repeated index is refused |
| Coinbase.SortByIndex | platform/src/scripts/rewardEntitlement.cjs:160-171 | refuses exactly a repeated index, and otherwise sorts by index |
| Coinbase.IndexOrderSorts | platform/src/scripts/rewardEntitlement.cjs:168 | without a repeated index the sorted outputs strictly ascend |
| Coinbase.IndexOrderIsPermutation | platform/src/scripts/rewardEntitlement.cjs:168 | sorting keeps every output, with its multiplicity |
| Coinbase.MatchPartitionsCoinbase | docs/schema/check_vectors.py:1051-1069 | matched and unexplained outputs partition the coinbase |
| Coinbase.MatchedPerClass | docs/schema/check_vectors.py:1055-1064 | of each (script, amount) class min(required, available) outputs are matched |
| Coinbase.LowestMatchedFirst | docs/schema/check_vectors.py:1062-1063 | within a class the lower index is matched first |
| Coinbase.MatchIgnoresOrder | docs/schema/check_vectors.py:1056-1064 | the match does not depend on the order of the requirements |
| Coinbase.AllMatchedIffSubMultiset | docs/schema/check_vectors.py:1078-1081 | everything required is matched exactly when the requirements are a sub-multiset of the outputs |
| Coinbase.AllMatchedInAnyOrder | platform/src/scripts/rewardEntitlement.cjs:168-189 | the order in which a coinbase lists its outputs does not decide whether everything required is matched |
| Coinbase.MatchedPaysRequired | docs/schema/check_vectors.py:1159-1162 | a full match pays exactly the required total |
| Rewards.DeriveEntitlement | platform/src/scripts/rewardEntitlement.cjs:282-351 | for any coinbase the whole precedence table on the row in index order: what is undecided, unknown and why, and each classification with its reason, anomaly and evidence; fails exactly on an unsafe height or ChainLock height or on a repeated output index |
| Rewards.ClassifyMeaning | platform/src/scripts/rewardEntitlement.cjs:282-351 | the table stated for any node history with the verdict's state: excluded by termination, suspension or pre-appearance, not payee, unknown, schedule disagreement, coinbase mismatch or owed, each exactly when |
| Rewards.UndecidedMeaning | docs/schema/check_vectors.py:1006-1030 | an accepted record is unfinalized exactly above the ChainLock, and below it names exactly the absent reads |
| Rewards.FanOut | platform/src/scripts/auditSeam.cjs:471-492 | the slot records are ones the specification accepts, and fanning out fails exactly on shares that are not a partition of one |
| Rewards.DeriveReward | platform/src/scripts/auditSeam.cjs:436-512 | a record is derived exactly when everything compared is typed, the walk and book are there and no output index is repeated; the specification accepts it for the row in index order, which is the row itself if it is ordered, and accepts no other |
| Rewards.AcceptedUnique | docs/schema/check_vectors.py:1076-1195 | the specification accepts at most one record per row |
| Rewards.SortedRowSame | platform/src/scripts/rewardEntitlement.cjs:168 | putting a row's coinbase in index order changes neither what it pays nor whether it can be derived |
| Rewards.BuildRewards | platform/src/scripts/auditSeam.cjs:644-716 | over a whole ledger succeeds exactly when everything prepared is typed and in order and every row derivable without a repeated output index; all records are the specification's for the rows in index order, and for the rows as they stand if they are ordered, and hand out the required total |
| Rewards.AcceptedConserves | docs/schema/check_vectors.py:1129-1195 | an accepted record allocates exactly the duffs Core was scheduled to pay at a recognized owed height |
| Rewards.RangeConserves | docs/schema/check_vectors.py:1129-1195 | over any audit range the allocated total equals the required total |
| Rewards.CheckedIsDerivable | platform/src/scripts/auditSeam.cjs:436-512 | every row of an envelope that passes the checks is derivable |
| Rewards.BuildableIffNoFreshBan | platform/src/scripts/auditSeam.cjs:644-716 | an envelope whose reward evidence and ownership binding pass the checks, with heights and anchors in the safe range, can be built exactly when its walk does not end on a fresh ban |
| Rewards.PaysSlotsMeaning | docs/schema/check_vectors.py:1076-1081 | slots are paid exactly when Core scheduled and fully paid the pool, the node was valid at H-1, and epoch, binding and activation recognize it |
| Rewards.RecordMeaning | docs/schema/check_vectors.py:1006-1195 | an accepted record of a complete row says, from the walk, the schedule and the coinbase alone, how the row is classified and why, which outputs are matched, which list it rests on, and what is conserved and handed out |
| Rewards.SlotsMeaning | platform/src/scripts/auditSeam.cjs:471-492 | its slot records follow the audited book's shares in order, each within one duff of its quota, name the last buyer before the first closing block or the operator, and hand out the required total |
| ClaimProfile.AssertDependencies | platform/src/scripts/auditSeam.cjs:558-565 | accepts exactly claims closed under direct dependencies and names a broken one otherwise |
| ClaimProfile.DeriveProfile | platform/src/scripts/auditSeam.cjs:548-581 | succeeds exactly when the claims of the verifiers that ran are dependency-closed, and returns them with their aggregate |
| ClaimProfile.AcceptedIffDerived | docs/schema/check_vectors.py:1207-1241 | the specification accepts exactly the profiles the deriver produces from some set of verifiers |
| ClaimProfile.AuthenticatedClosure | docs/schema/check_vectors.py:1208-1213 | authentication reaches dependencies of dependencies to any depth |
| ClaimProfile.StrongestUnreachable | docs/schema/check_vectors.py:1234-1241 | no accepted profile has the strongest aggregate |
| ClaimProfile.EveryVerifierRan | platform/src/scripts/auditSeam.cjs:529-570 | with every verifier run all but schedule, L1 backing and receipt validity are authenticated, and the profile is derived |
| ClaimProfile.ConservationRests | platform/src/scripts/auditSeam.cjs:529-570 | authenticated conservation rests on six other components, and those seven are closed under dependencies |
| ClaimProfile.NoVerifierRan | platform/src/scripts/auditSeam.cjs:548-556 | with no verifier run each component names the one it lacks |
| Bytes.FromLEOfLE | docs/schema/check_vectors.py:154-163 | a little-endian field reads back |
| Bytes.LEOfFromLE | docs/schema/check_vectors.py:187-198 | re-encoding what was read gives the bytes read |
| Bytes.LittleEndianWords | docs/schema/check_vectors.py:154-163 | the first byte of a field weighs one, the next 256, and so on |
| Bytes.LittleEndianLong | docs/schema/check_vectors.py:154-163 | of an eight-byte field the first four bytes are the low word |
| Bytes.BigEndianIsReversed | platform/src/scripts/consensusErrorPin.cjs:89-101 | a big-endian field is the little-endian reading of its bytes backwards |
| Bytes.LexMeaning | platform/src/scripts/canonicalJson.cjs:198-205 | the first place where two lists differ decides their order, and a proper prefix comes first |
| Bytes.LexTransitive | platform/src/scripts/canonicalJson.cjs:198-205 | lexicographic order is transitive |
| Bytes.LexTotal | platform/src/scripts/canonicalJson.cjs:198-205 | lexicographic order is total |
| Base58.B58Encode | docs/schema/check_vectors.py:55-66 | the two loops give the base-58 digits after one '1' per leading zero byte |
| Base58.EncodeInjective | docs/schema/check_vectors.py:55-66 | equal identifiers of equal length come from equal bytes |
| Base58.AlphabetMeaning | docs/schema/check_vectors.py:55-66 | the alphabet is the digits and letters without 0, O, I and l, ascending |
| Base58.EncodeExamples | docs/schema/check_vectors.py:55-66 | two identifiers written out, with leading zeros and with a high byte |
| Base58.DecimalIs | docs/schema/check_vectors.py:219-221 | the decimal text has no leading zero and its digits weigh up to the number |
| Base58.ReversedHexInjective | docs/schema/check_vectors.py:235 | a displayed hash determines its bytes |
| Base58.ReversedHexAt | docs/schema/check_vectors.py:235 | each byte, counted from the end, is shown by its two lower-case digits |
| CheckpointV2.SortByKey | docs/schema/check_vectors.py:159-164 | the records come out sorted and are the same multiset |
| CheckpointV2.Build | docs/schema/check_vectors.py:151-167 | succeeds exactly when every field fits its width, and writes the sorted tables |
| CheckpointV2.Decode | docs/schema/check_vectors.py:182-241 | accepts exactly what the format's reader reads, returns its view with every field showing its own bytes, and reports size and header failures exactly |
| CheckpointV2.ReadOfEncode | docs/schema/check_vectors.py:182-241 | decoding the encoding of a canonical payload returns it |
| CheckpointV2.EncodeOfRead | docs/schema/check_vectors.py:182-241 | re-encoding anything accepted reproduces the exact input bytes: no truncated record, no trailing byte, one order |
| CheckpointV2.DecodedFieldsShowBytes | docs/schema/check_vectors.py:182-241 | which bytes every field of the decoded record shows: the header words and tag at their offsets, the books from offset 64 on, 98 bytes and 16 per share each, the bindings after them, 105 bytes each, and nothing after the last |
| CheckpointV2.DecodedTablesAscend | docs/schema/check_vectors.py:204-234 | books strictly ascend by raw contract and pool identifier, bindings by raw masternode hash and slot |
| CheckpointV2.BuildThenDecode | docs/schema/check_vectors.py:151-241 | a payload with distinct keys and in-range fields decodes to its one sorted arrangement |
| CheckpointV2.DecodedRecordDeterminesBytes | docs/schema/check_vectors.py:222-241 | two payloads with the same decoded record are the same bytes |
| CompoundJournal.CompoundedTotal | platform/src/scripts/compoundJournal.cjs:137-138 | the loop sums the entries |
| CompoundJournal.Journal.Reserve | platform/src/scripts/compoundJournal.cjs:161-174 | debits exactly when the journal is readable, looking the id up finds nothing and the amount fits under the ceiling, returns the rest, changes nothing otherwise, and leaves the journal readable exactly for a document id |
| CompoundJournal.Journal.ReservePayout | platform/src/scripts/compoundJournal.cjs:180-194 | the same for a payout entry, whose id is checked first |
| CompoundJournal.MalformedIdLosesJournal | platform/src/scripts/compoundJournal.cjs:161-174 | two concrete ids: one is stored and makes the journal unreadable, one is refused from an empty journal |
| CompoundJournal.Journal.Confirm | platform/src/scripts/compoundJournal.cjs:197-203 | marks exactly the named entry confirmed, and takes an inherited name for an entry without changing any |
| CompoundJournal.Journal.Release | platform/src/scripts/compoundJournal.cjs:207-214 | removes exactly the named entry and returns its amount, and fails on an inherited name |
| CompoundJournal.ReadableIffWritten | platform/src/scripts/compoundJournal.cjs:82-117 | a stamped entry can be read back exactly when reserving, paying out and confirming could have left it |
| CompoundJournal.Journal.Reconcile | platform/src/scripts/compoundJournal.cjs:225-265 | with nothing else running, ends in the reconciled journal with the exact report, whatever the ledger answers to each entry's one probe |
| CompoundJournal.ReconcileExact | platform/src/scripts/compoundJournal.cjs:238-263 | promotes pending entries whose document exists, frees missing ones past the gate, an unstamped entry counting from time zero, leaves young and payout entries alone, and a readable journal stays readable |
| CompoundJournal.ReportExact | platform/src/scripts/compoundJournal.cjs:238-263 | each entry is reported kept, freed with its amount, or confirmed exactly when that happened to it, and nothing else is reported |
| CompoundJournal.ReconcileFreesReported | platform/src/scripts/compoundJournal.cjs:252-257 | lowers the consumed total by exactly the reported freed sum |
| CompoundJournal.ReconcileIdempotent | platform/src/scripts/compoundJournal.cjs:225-265 | a second run changes nothing |
| CompoundJournal.StepWithinEarned | platform/src/scripts/compoundJournal.cjs:161-214 | every step keeps the consumed total at or below the largest earned figure supplied |
| CompoundJournal.NeverAboveEarned | platform/src/scripts/compoundJournal.cjs:5-20 | so does every run, whatever the timing |
| CompoundJournal.StepKeepsBacked | platform/src/scripts/compoundJournal.cjs:216-265 | when the gate covers the landing window every step keeps each live or still possible document backed by its entry |
| CompoundJournal.NeverOverspent | platform/src/scripts/compoundJournal.cjs:5-20 | then over every run the documents and payouts that are live, or may still become so, never exceed the consumed total |
| CompoundJournal.StepKeepsTied | platform/src/scripts/compoundJournal.cjs:165-174 | every step keeps each entry at the amount, kind and stamp it was reserved with |
| CompoundJournal.ProbeIsReconcileRule | platform/src/scripts/compoundJournal.cjs:242-252 | in every reachable state a probe dooms a journaled id exactly when reconcile's rule frees its entry |
| CompoundJournal.UninterruptedReconcile | platform/src/scripts/compoundJournal.cjs:238-263 | after any run, probing and freeing every entry with nothing in between ends in what the journal's reconcile computes |
| CompoundJournal.LateLandingOverspends | platform/src/scripts/compoundJournal.cjs:216-224 | if a document may land after the gate, one run frees its entry and then overspends |
| CompoundJournal.SafeIffGateCoversWindow | platform/src/scripts/compoundJournal.cjs:216-224 | no run overspends exactly when the gate covers the landing window |
| JsonText.NumberReads | platform/src/scripts/canonicalJson.cjs:77-83 | a written integer reads back, up to the first unit that could not continue it |
| JsonText.CharsRead | platform/src/scripts/canonicalJson.cjs:84-87 | an escaped string reads back whatever follows its closing quote |
| JsonText.WrittenReads | platform/src/scripts/canonicalJson.cjs:70-212 | the reference parser recovers every written value and leaves what follows |
| JsonText.UnitSpelling | platform/src/scripts/canonicalJson.cjs:84-87 | every unit of a string stands for itself, or is one of seven short escapes, or a control escape with two lower-case digits |
| JsonText.JoinedSpelling | platform/src/scripts/canonicalJson.cjs:84-87 | the text of a joined string joins the texts |
| JsonText.NumberSpelling | platform/src/scripts/canonicalJson.cjs:77-83 | a number is its sign and its digits without a leading zero |
| JsonText.TokenSpelling | platform/src/scripts/canonicalJson.cjs:74-76 | the three literals |
| JsonText.ArraySpelling | platform/src/scripts/canonicalJson.cjs:183-190 | an array is its items in order between brackets, with single commas |
| JsonText.ObjectSpelling | platform/src/scripts/canonicalJson.cjs:191-212 | an object is its members in order between braces, each a key, a colon and its value |
| CanonicalJson.AssertStringDomain | platform/src/scripts/canonicalJson.cjs:55-68 | refuses exactly unpaired surrogates, then exactly strings that are not normalized |
| CanonicalJson.CompareKeys | platform/src/scripts/canonicalJson.cjs:198-205 | the comparator's sign is the lexicographic order on code units, zero only for equal keys |
| CanonicalJson.EncodeValue | platform/src/scripts/canonicalJson.cjs:70-212 | succeeds exactly within the depth, node and domain bounds, spends one budget unit per node, returns the canonical text, and a refusal names a bound that is broken or a fault that is there |
| CanonicalJson.FaultMeaning | platform/src/scripts/canonicalJson.cjs:55-90 | a fault is a number that is no safe integer, a value JSON cannot hold, or a string or key that is unpaired or not normalized, somewhere in the value |
| CanonicalJson.DomainMeaning | platform/src/scripts/canonicalJson.cjs:55-212 | a value is in the domain exactly when it holds no fault |
| CanonicalJson.CanonicalString | platform/src/scripts/canonicalJson.cjs:215-220 | the same from a fresh budget at depth zero |
| CanonicalJson.SortBounds | platform/src/scripts/canonicalJson.cjs:198-209 | visiting members in key order changes no bound |
| CanonicalJson.CanonAscends | platform/src/scripts/canonicalJson.cjs:192-205 | every object of the canonical form has strictly ascending keys |
| CanonicalJson.CanonicalReads | platform/src/scripts/canonicalJson.cjs:70-220 | the parser recovers every accepted value, members in key order |
| CanonicalJson.TextDeterminesValue | platform/src/scripts/canonicalJson.cjs:1-15 | two accepted values have one text exactly when they are equal up to insertion order |
| ConsensusError.ReadVarint | platform/src/scripts/consensusErrorPin.cjs:89-101 | accepts exactly the encodings in range and returns value and position |
| ConsensusError.DecodePayload | platform/src/scripts/consensusErrorPin.cjs:108-157 | the cursor and running claim compute the specification's decision |
| ConsensusError.FitsIsRunningClaim | platform/src/scripts/consensusErrorPin.cjs:113-146 | staying within the limit step by step is every running claim being within it |
| ConsensusError.PayloadDecodes | platform/src/scripts/consensusErrorPin.cjs:118-152 | a complete payload is accepted exactly when it is within the limit, its names are UTF-8 and nothing follows, so the early count test refuses nothing the loop would accept |
| ConsensusError.AcceptedExactly | platform/src/scripts/consensusErrorPin.cjs:108-157 | the bytes accepted with an id and names are exactly the payloads of that id and those names within the limit |
| ConsensusError.NothingFollows | platform/src/scripts/consensusErrorPin.cjs:151 | no accepted payload is a proper prefix of another |
| ConsensusError.EncodeDecodes | platform/src/scripts/consensusErrorPin.cjs:118-152 | encoding then decoding returns the id and the names |
| ConsensusError.OtherErrorsMean | platform/src/scripts/consensusErrorPin.cjs:108-130 | an error outside the state errors is reported by its index, another state error by both indices, exactly when the bytes begin with them |
| Frames.Frame | platform/src/scripts/captureP2PMnListDiffProbe.cjs:87-94 | header and payload of a message, refused when the length does not fit four bytes |
| Frames.FrameLayout | platform/src/scripts/captureP2PMnListDiffProbe.cjs:87-94 | byte by byte: magic, padded command, length low byte first, four bytes of the double digest, payload |
| Frames.HeadMeaning | platform/src/scripts/captureP2PMnListDiffProbe.cjs:285-313 | what the front of a buffer is read as: magic and size are judged on the header alone, the command and then the checksum once the payload is there, each refusal with its evidence |
| Frames.DrainEnds | platform/src/scripts/captureP2PMnListDiffProbe.cjs:284-318 | the drain stops right after the frames it delivered, where the next one is not all there or is refused |
| Frames.CommandMeaning | platform/src/scripts/captureP2PMnListDiffProbe.cjs:298-306 | exactly which twelve bytes are read as which command |
| Frames.DrainFrames | platform/src/scripts/captureP2PMnListDiffProbe.cjs:284-318 | the loop delivers the messages of the buffer in order and what is left or went wrong |
| Frames.FirstIsStable | platform/src/scripts/captureP2PMnListDiffProbe.cjs:285-316 | a frame once decided is not changed by later bytes |
| Frames.SplitInvariance | platform/src/scripts/captureP2PMnListDiffProbe.cjs:362-370 | any split of a stream delivers the same messages and the same error or remainder as the whole |
| Frames.Reader.Receive | platform/src/scripts/captureP2PMnListDiffProbe.cjs:362-370 | one data event drains the pending bytes with the chunk, and nothing after an error |
| Frames.FrameThenDrain | platform/src/scripts/captureP2PMnListDiffProbe.cjs:87-94 | draining framed messages returns exactly them and goes on with what follows |
| Frames.DrainThenFrame | platform/src/scripts/captureP2PMnListDiffProbe.cjs:298-306 | framing drained messages reproduces the stream exactly when no command field has a high bit |
| Frames.HighBitExample | platform/src/scripts/captureP2PMnListDiffProbe.cjs:299 | a field with the high bit set is accepted as the plain command |
| Handshake.Create | platform/src/scripts/captureP2PMnListDiffProbe.cjs:180-187 | a session exists exactly for an offer inside the decoder range |
| Handshake.Handshake.Handle | platform/src/scripts/captureP2PMnListDiffProbe.cjs:198-276 | one message moves the session and acts as the step function says |
| Handshake.AnswerOfRun | platform/src/scripts/captureP2PMnListDiffProbe.cjs:198-276 | what one more message is answered with, read off the messages before it: replies, refusals with their reason, the request, and the capture with its record |
| Handshake.VersionMeaning | platform/src/scripts/captureP2PMnListDiffProbe.cjs:140-152 | the peer's version is the signed number of its first four bytes, refused below twenty bytes or below the floor |
| Handshake.Uint256Displays | platform/src/scripts/captureP2PMnListDiffProbe.cjs:82-85 | a requested hash is the displayed one read backwards |
| Handshake.RequestDisplays | platform/src/scripts/captureP2PMnListDiffProbe.cjs:236-251 | the request is the base hash and then the tip hash |
| Handshake.PhaseOfRun | platform/src/scripts/captureP2PMnListDiffProbe.cjs:154-166 | the state after any run, read off its messages |
| Handshake.EndsOnce | platform/src/scripts/captureP2PMnListDiffProbe.cjs:193-199 | over any run at most one capture or refusal, it is the last action, and it happens exactly when the session is closed |
| Handshake.CaptureExactly | platform/src/scripts/captureP2PMnListDiffProbe.cjs:198-276 | a run captures exactly when a good version comes first, a verack later, no second version or early diff between, and then a diff; and the record is determined by those messages |
| Handshake.CaptureIsReadable | platform/src/scripts/captureP2PMnListDiffProbe.cjs:224-229 | a capture's common version is the smaller of the two offers and inside the decoder range |
| Handshake.CaptureFollowsRequest | platform/src/scripts/captureP2PMnListDiffProbe.cjs:236-251 | with valid hashes every capture comes after our own request |
| Handshake.RequestedIffHashesValid | platform/src/scripts/captureP2PMnListDiffProbe.cjs:236-251 | over all message sequences that holds exactly when both hashes are valid |
| Handshake.SeenMeaning | platform/src/scripts/captureP2PMnListDiffProbe.cjs:200 | the noted commands are the distinct commands received |
| CastVerify.Verification.CheckSnapshot | platform/src/scripts/castVerify.cjs:170-196 | a snapshot id is checked once and answered from memory after |
| CastVerify.Verification.CheckSnapshots | platform/src/scripts/castVerify.cjs:198-208 | the deviations and validity of the first snapshot of every id |
| CastVerify.Verification.CheckReceipts | platform/src/scripts/castVerify.cjs:213-304 | the receipts' deviations, the snapshots they deal with, and the ordering notes |
| CastVerify.FirstMemberIsEarliest | platform/src/scripts/castVerify.cjs:284-292 | the first member observation of a sorted list is the earliest |
| CastVerify.Screen | platform/src/scripts/castVerify.cjs:108-163 | keeps, sorted by time, exactly the plausible observations of each vote hash |
| CastVerify.VerifyCast | platform/src/scripts/castVerify.cjs:74-392 | deviations and stales are functions of the case without the observations, the notes are the specified sequence, and nothing is stale exactly when snapshot and vote still agree with the members' tally |
| CastVerify.LoudNotesMean | platform/src/scripts/castVerify.cjs:270-338 | an ordering, orphan, non-member or abandonment note appears exactly when a receipt predates its observation, a member observed an unattested vote, only non-members did, or a snapshot was left without a receipt |
| CastVerify.QuietNotesMean | platform/src/scripts/castVerify.cjs:100-389 | when each informational note appears |
| CastVerify.ExaminedMeans | platform/src/scripts/castVerify.cjs:118-129 | beyond the bound exactly as many observations as it allows are examined, and none left out is older than one examined |
| CastVerdict.VerdictCleanIff | platform/src/scripts/castVerify.cjs:165-367 | for every case, repeated ids or not: no deviation exactly when the first snapshot of every id authenticates itself, every receipt is honest against the last snapshot of its id, the standing vote is attested, and a snapshot exists if there is a vote or tally to implement |
| CastVerdict.DeviationsMean | platform/src/scripts/castVerify.cjs:165-367 | each named deviation is reported exactly when the first snapshot of an id, a receipt or the standing vote is wrong in the way it names |
| CastVerdict.StalesMean | platform/src/scripts/castVerify.cjs:369-389 | when each staleness is reported |
| CastVerdict.DealtWithMeans | platform/src/scripts/castVerify.cjs:213-304 | a snapshot is dealt with exactly by an honest receipt, a missed-vote attestation counting only for an authentic snapshot |
| CastVerdict.SnapshotsSoundInIff | platform/src/scripts/castVerify.cjs:165-208 | for a list of snapshots, under a fixed operator, masternode, rebuilding and vote hash: every clean verdict has all of them authentic if and only if the first ones of their ids being authentic makes all authentic |
| CastVerdict.CastsSoundInIff | platform/src/scripts/castVerify.cjs:165-304 | in the same fixed context every clean verdict has authentic snapshots behind its cast receipts if and only if, the first ones being authentic, so is the last one of every id that a vote can be cast on |
| CastVerdict.VotesSoundInIff | platform/src/scripts/castVerify.cjs:340-364 | the same for the snapshot behind the standing vote |
| CastVerdict.SnapshotsSoundIff | platform/src/scripts/castVerify.cjs:165-208 | that soundness holds in every context if and only if the first ones of their ids contradict each other or every snapshot says what one of these says |
| CastVerdict.CastsSoundIff | platform/src/scripts/castVerify.cjs:165-304 | for cast receipts, if and only if the same holds for the last snapshots of their ids that name an outcome |
| CastVerdict.VotesSoundIff | platform/src/scripts/castVerify.cjs:340-364 | the same condition for the snapshot behind a standing vote |
| CastVerdict.CleanVerdictIff | platform/src/scripts/castVerify.cjs:165-367 | where the verdict is sound, no deviation means exactly that every snapshot authenticates itself, every receipt is honest, and the standing vote is attested |
| CastVerdict.StandingVoteWasCommitted | platform/src/scripts/castVerify.cjs:340-364 | where the verdict is sound for votes, a standing vote implements an operator-signed, self-authenticating snapshot committed in time |

## Left out

- Networking, wallets, gRPC and the clients around these cores: I/O. Clocks, ledger probes and the earned figure are parameters.
- SHA-256, signatures, Merkle and ChainLock verification: hashes are functions given from outside, and signature checks are not part of this model.
- Unicode normalization and UTF-8: predicates given from outside. `canonicalize`'s final UTF-8 step is not modelled, and a decoded name is its bytes, so a byte-order mark that the text decoder drops stays visible.
- JavaScript's object model in the serializer (proxies, accessors, prototypes, holes, symbol keys): values are plain data, so those refusals are one `Unsupported` case; negative zero is the integer zero, as its text is.
- Built-in sorts are stable insertion sorts: with the keys distinct, or the comparator total, every correct sort gives the same list.
- Formats of scalar fields (hex scripts, roots and payloads, decimal amounts, output indices) and message texts: values arrive parsed and errors are named constructors.
- JSON Schema checks, identity pins, network names, decoder lineage, anomaly evidence pointers and the claimed creation height: one finite test each.
- The audited operator is a parameter of the reward model, so the deriver's refusal of an envelope without any book for the pool is not modelled.
- The per-component verifier and dependency tables of the claim profile are the source's; that a verifier ran is a parameter.
- The checkpoint decoder's order of error messages inside a truncated record: slices past the end come back short there and the next fixed-width read fails, so the same inputs are refused.
- CheckpointV2.Decode: does not cap a binding's activation height at 2^53-1, as the code does not; only the schema does.
- CompoundJournal.Journal.Reconcile: states the case with nothing else running; interleavings with other steps and crashes are the step system's `Probe`, `Free` and `CrashReconcile`. The order of the report is not modelled.
- CompoundJournal.Journal.Confirm: on an inherited name the code also writes a field onto the shared object it finds; the model keeps only what is saved.
- CompoundJournal.NeverOverspent: request ids are never reused after a release, as they are ledger document ids; the env-file lock is an atomic step.
- CastVerify.VerifyCast: log lines and the counts inside note texts are not modelled; timestamps are integers and note texts are named constructors.
- The probe's own version message, its timeout and its exit codes: not part of this model.
