/**
 Ownership chains bound to ledger positions, and the owner at a reward height.

 `VerifyOwnership` is the checker's binding of every slot chain to the decoded platform
 ledger (check_vectors.py).  `ResolveAllocation` is the seam's pair of binary searches
 (auditSeam.cjs), proved to give the checker's filter-and-scan answer.
 */
module Ownership {
  import opened Outcomes

  datatype Key = Key(height: int, tx: int, inner: int)

  datatype Kind = PreCreation | Creation | Purchase

  datatype Position = Position(kind: Kind, slotIndex: int, key: Key, docId: string)

  datatype Economics = Economics(seller: string, buyer: string, price: string)

  // One inner decision of a decoded transaction; anything not retained carries no position.
  datatype Decision = Retained(position: Position, economics: Economics) | Dropped

  datatype Tx = Tx(hash: string, decisions: seq<Decision>)

  datatype Row = Row(height: int, anchor: int, txs: seq<Tx>)

  datatype Hop = Hop(position: Position, anchor: int, hash: string, seller: string, buyer: string, price: string)

  datatype Slot = Slot(slotIndex: int, docId: Option<string>, chain: seq<Hop>)

  datatype Entry = Entry(hash: string, position: Position, anchor: int, economics: Economics)

  datatype Failure =
    | PreCreationRetained | WrongLocation | DuplicatePosition
    | BrokenChain | NotABijection
    | AnchorsRegress | BadHeight

  predicate Less(a: Key, b: Key) {
    || a.height < b.height
    || (a.height == b.height && a.tx < b.tx)
    || (a.height == b.height && a.tx == b.tx && a.inner < b.inner)
  }

  // ---------- the position map ----------

  // A decision together with where it sits in the ledger.
  datatype Located = Located(here: Key, anchor: int, hash: string, decision: Decision)

  function LocateDecisions(row: Row, ti: nat, k: nat): seq<Located>
    requires ti < |row.txs| && k <= |row.txs[ti].decisions|
  {
    if k == 0 then []
    else LocateDecisions(row, ti, k - 1) +
         [Located(Key(row.height, ti, k - 1), row.anchor, row.txs[ti].hash, row.txs[ti].decisions[k - 1])]
  }

  function LocateTxs(row: Row, k: nat): seq<Located>
    requires k <= |row.txs|
  {
    if k == 0 then [] else LocateTxs(row, k - 1) + LocateDecisions(row, k - 1, |row.txs[k - 1].decisions|)
  }

  function Locate(rows: seq<Row>): seq<Located> {
    if |rows| == 0 then []
    else Locate(rows[..|rows| - 1]) + LocateTxs(rows[|rows| - 1], |rows[|rows| - 1].txs|)
  }

  predicate PlacedRight(l: Located) {
    l.decision.Retained? ==>
      l.decision.position.kind != PreCreation && l.decision.position.key == l.here
  }

  function EntryOf(l: Located): Entry
    requires l.decision.Retained?
  {
    Entry(l.hash, l.decision.position, l.anchor, l.decision.economics)
  }

  type PosMap = map<Key, Entry>

  // posmap holds exactly the retained decisions, each under its own location.
  ghost predicate MapsRetained(m: PosMap, ls: seq<Located>) {
    && (forall i :: 0 <= i < |ls| && ls[i].decision.Retained? ==> ls[i].here in m && m[ls[i].here] == EntryOf(ls[i]))
    && (forall k :: k in m ==> exists i :: 0 <= i < |ls| && ls[i].decision.Retained? && ls[i].here == k)
    && (forall k :: k in m ==> m[k].position.key == k && m[k].position.kind != PreCreation)
  }

  predicate AllPlacedRight(ls: seq<Located>) {
    forall i :: 0 <= i < |ls| ==> PlacedRight(ls[i])
  }

  predicate OtherPlace(a: Located, b: Located) {
    a.decision.Retained? && b.decision.Retained? ==> a.here != b.here
  }

  // No two retained decisions sit at one location.
  predicate NoneRepeated(ls: seq<Located>) {
    forall i, j :: 0 <= i < j < |ls| ==> OtherPlace(ls[i], ls[j])
  }

  method BuildPosMap(rows: seq<Row>) returns (r: Result<PosMap, Failure>)
    ensures r.Ok? <==> AllPlacedRight(Locate(rows)) && NoneRepeated(Locate(rows))
    ensures r.Ok? ==> MapsRetained(r.value, Locate(rows))
  {
    var ls := Locate(rows);
    var m: PosMap := map[];
    for i := 0 to |ls|
      invariant MapsRetained(m, ls[..i])
      invariant AllPlacedRight(ls[..i]) && NoneRepeated(ls[..i])
    {
      hide *;
      var l := ls[i];
      PosMapNext(m, ls, i);
      if l.decision.Retained? {
        if l.decision.position.kind == PreCreation { return Err(PreCreationRetained); }
        if l.decision.position.key != l.here { return Err(WrongLocation); }
        if l.here in m { return Err(DuplicatePosition); }
        m := m[l.here := EntryOf(l)];
      }
    }
    assert ls[..|ls|] == ls;
    return Ok(m);
  }

  // What one more decision does to the map and to the two requirements.
  lemma PosMapNext(m: PosMap, ls: seq<Located>, i: nat)
    requires i < |ls| && MapsRetained(m, ls[..i]) && AllPlacedRight(ls[..i]) && NoneRepeated(ls[..i])
    ensures var l := ls[i];
      if !l.decision.Retained? then
        MapsRetained(m, ls[..i + 1]) && AllPlacedRight(ls[..i + 1]) && NoneRepeated(ls[..i + 1])
      else if l.decision.position.kind == PreCreation || l.decision.position.key != l.here then !AllPlacedRight(ls)
      else if l.here in m then !NoneRepeated(ls)
      else MapsRetained(m[l.here := EntryOf(l)], ls[..i + 1])
           && AllPlacedRight(ls[..i + 1]) && NoneRepeated(ls[..i + 1])
  {
    var l := ls[i];
    assert ls[..i + 1] == ls[..i] + [l];
    if !l.decision.Retained? {
      MapKept(m, ls[..i], l);
      AddedApart(m, ls[..i], l);
    } else if PlacedRight(l) {
      if l.here in m {
        MappedTwice(m, ls, i);
      } else {
        MapGrows(m, ls[..i], l);
        AddedApart(m, ls[..i], l);
      }
    }
    hide MapsRetained, NoneRepeated;
  }

  lemma MapKept(m: PosMap, ls: seq<Located>, l: Located)
    requires MapsRetained(m, ls) && !l.decision.Retained?
    ensures MapsRetained(m, ls + [l])
  {
    var ls' := ls + [l];
    forall k | k in m ensures exists i :: 0 <= i < |ls'| && ls'[i].decision.Retained? && ls'[i].here == k {
      var i :| 0 <= i < |ls| && ls[i].decision.Retained? && ls[i].here == k;
      assert ls'[i] == ls[i];
    }
  }

  lemma AddedApart(m: PosMap, ls: seq<Located>, l: Located)
    requires MapsRetained(m, ls) && NoneRepeated(ls) && (l.decision.Retained? ==> l.here !in m)
    ensures NoneRepeated(ls + [l])
  {
    var ls' := ls + [l];
    forall i, j | 0 <= i < j < |ls'| ensures OtherPlace(ls'[i], ls'[j]) {
      assert j < |ls| ==> OtherPlace(ls[i], ls[j]);
    }
  }

  lemma MappedTwice(m: PosMap, ls: seq<Located>, i: nat)
    requires i < |ls| && MapsRetained(m, ls[..i]) && ls[i].decision.Retained? && ls[i].here in m
    ensures !NoneRepeated(ls)
  {
    var k :| 0 <= k < i && ls[..i][k].decision.Retained? && ls[..i][k].here == ls[i].here;
    assert !OtherPlace(ls[k], ls[i]);
  }

  lemma MapGrows(m: PosMap, ls: seq<Located>, l: Located)
    requires MapsRetained(m, ls) && l.decision.Retained? && l.here !in m && PlacedRight(l)
    ensures MapsRetained(m[l.here := EntryOf(l)], ls + [l])
  {
    var m', ls' := m[l.here := EntryOf(l)], ls + [l];
    forall k | k in m' ensures exists i :: 0 <= i < |ls'| && ls'[i].decision.Retained? && ls'[i].here == k {
      if k in m {
        var i :| 0 <= i < |ls| && ls[i].decision.Retained? && ls[i].here == k;
        assert ls'[i] == ls[i];
      } else {
        assert ls'[|ls|] == l;
      }
    }
  }

  // ---------- the chains ----------

  predicate ConsecutiveRows(rows: seq<Row>) {
    forall i :: 0 < i < |rows| ==> rows[i].height == rows[0].height + i
  }

  predicate AnchorsNonDecreasing(rows: seq<Row>) {
    forall i, j :: 0 <= i < j < |rows| ==> rows[i].anchor <= rows[j].anchor
  }

  function AnchorAt(rows: seq<Row>, height: int): Option<int> {
    if |rows| > 0 && rows[0].height <= height < rows[0].height + |rows|
    then Some(rows[height - rows[0].height].anchor) else None
  }

  // A hop agrees in every field with the decoded position it cites.
  predicate HopBound(h: Hop, s: Slot, m: PosMap, rows: seq<Row>) {
    && h.position.kind != PreCreation
    && h.position.slotIndex == s.slotIndex
    && s.docId == Some(h.position.docId)
    && h.position.key in m
    && m[h.position.key].position == h.position
    && h.hash == m[h.position.key].hash
    && m[h.position.key].economics == Economics(h.seller, h.buyer, h.price)
    && Some(h.anchor) == AnchorAt(rows, h.position.key.height)
  }

  // The first hop is the operator's minting; each later hop buys from the previous buyer.
  predicate HopContinues(chain: seq<Hop>, i: nat, operator: string)
    requires i < |chain|
  {
    var h := chain[i];
    if i == 0 then h.position.kind == Creation && h.seller == h.buyer && h.buyer == operator
    else h.position.kind == Purchase && h.seller == chain[i - 1].buyer
  }

  predicate StrictlyOrdered(chain: seq<Hop>) {
    forall i, j :: 0 <= i < j < |chain| ==> Less(chain[i].position.key, chain[j].position.key)
  }

  ghost predicate ChainOk(s: Slot, m: PosMap, rows: seq<Row>, operator: string) {
    && (forall i :: 0 <= i < |s.chain| ==> HopBound(s.chain[i], s, m, rows) && HopContinues(s.chain, i, operator))
    && StrictlyOrdered(s.chain)
    && (s.docId.None? <==> s.chain == [])
  }

  method VerifyChain(s: Slot, m: PosMap, rows: seq<Row>, operator: string) returns (ok: bool)
    ensures ok <==> ChainOk(s, m, rows, operator)
    ensures LedgerMap(m, rows) ==> (ok <==> LedgerChain(s, rows, operator))
  {
    hide *;
    if LedgerMap(m, rows) { ChainOkIffLedgerChain(s, m, rows, operator); }
    var prevBuyer: Option<string> := None;
    for i := 0 to |s.chain|
      invariant forall k :: 0 <= k < i ==> HopBound(s.chain[k], s, m, rows) && HopContinues(s.chain, k, operator)
      invariant prevBuyer == if i == 0 then None else Some(s.chain[i - 1].buyer)
    {
      var h := s.chain[i];
      HopStep(s, m, rows, operator, i);
      if !HopBound(h, s, m, rows) { return false; }
      if i == 0 {
        if h.position.kind != Creation || h.seller != h.buyer || h.buyer != operator { return false; }
      } else {
        if h.position.kind != Purchase || Some(h.seller) != prevBuyer { return false; }
      }
      prevBuyer := Some(h.buyer);
    }
    ChainOkWhen(s, m, rows, operator);
    return StrictlyOrdered(s.chain) && (s.docId.None? <==> |s.chain| == 0);
  }

  lemma ChainOkWhen(s: Slot, m: PosMap, rows: seq<Row>, operator: string)
    requires forall i :: 0 <= i < |s.chain| ==> HopBound(s.chain[i], s, m, rows) && HopContinues(s.chain, i, operator)
    ensures ChainOk(s, m, rows, operator) <==> StrictlyOrdered(s.chain) && (s.docId.None? <==> |s.chain| == 0)
  {
    hide HopBound, HopContinues, StrictlyOrdered;
  }

  lemma HopStep(s: Slot, m: PosMap, rows: seq<Row>, operator: string, i: nat)
    requires i < |s.chain|
    ensures HopContinues(s.chain, i, operator) <==>
      var h := s.chain[i];
      if i == 0 then h.position.kind == Creation && h.seller == h.buyer && h.buyer == operator
      else h.position.kind == Purchase && h.seller == s.chain[i - 1].buyer
    ensures !HopBound(s.chain[i], s, m, rows) || !HopContinues(s.chain, i, operator) ==>
      !ChainOk(s, m, rows, operator)
  {
    hide HopBound;
  }

  function Keys(chain: seq<Hop>): (r: seq<Key>)
    ensures |r| == |chain|
    ensures forall i :: 0 <= i < |chain| ==> r[i] == chain[i].position.key
  {
    seq(|chain|, i requires 0 <= i < |chain| => chain[i].position.key)
  }

  function AllKeys(slots: seq<Slot>): seq<Key> {
    if |slots| == 0 then [] else AllKeys(slots[..|slots| - 1]) + Keys(slots[|slots| - 1].chain)
  }

  ghost predicate Owned(slots: seq<Slot>, m: PosMap, rows: seq<Row>, operator: string) {
    && (forall i :: 0 <= i < |slots| ==> ChainOk(slots[i], m, rows, operator))
    && multiset(AllKeys(slots)) == multiset(m.Keys)
  }

  method VerifyOwnership(slots: seq<Slot>, m: PosMap, rows: seq<Row>, operator: string)
    returns (r: Result<map<int, seq<Hop>>, Failure>)
    ensures r.Ok? <==> Owned(slots, m, rows, operator)
    ensures LedgerMap(m, rows) ==>
      (r.Ok? <==> (forall i :: 0 <= i < |slots| ==> LedgerChain(slots[i], rows, operator)) && EachOnce(slots, rows))
    ensures r.Ok? && (forall i :: 0 <= i < |slots| ==> slots[i].slotIndex == i) ==>
      forall i :: 0 <= i < |slots| ==> i in r.value && r.value[i] == slots[i].chain
  {
    hide ChainOk, LedgerChain, EachOnce, LedgerMap;
    if LedgerMap(m, rows) { OwnedIffLedger(slots, m, rows, operator); }
    var chains: map<int, seq<Hop>> := map[];
    var keys: seq<Key> := [];
    for i := 0 to |slots|
      invariant forall k :: 0 <= k < i ==> ChainOk(slots[k], m, rows, operator)
      invariant keys == AllKeys(slots[..i])
      invariant (forall k :: 0 <= k < |slots| ==> slots[k].slotIndex == k) ==>
        forall k :: 0 <= k < i ==> k in chains && chains[k] == slots[k].chain
    {
      var ok := VerifyChain(slots[i], m, rows, operator);
      if !ok { return Err(BrokenChain); }
      chains := chains[slots[i].slotIndex := slots[i].chain];
      assert slots[..i + 1][..i] == slots[..i];
      keys := keys + Keys(slots[i].chain);
    }
    assert slots[..|slots|] == slots;
    // the sorted key lists are equal exactly when the key multisets are
    if multiset(keys) != multiset(m.Keys) { return Err(NotABijection); }
    return Ok(chains);
  }

  // ---------- the bijection ----------

  predicate HopAt(slots: seq<Slot>, s: int, h: int, k: Key) {
    0 <= s < |slots| && 0 <= h < |slots[s].chain| && slots[s].chain[h].position.key == k
  }

  lemma {:induction false} KeyHasHop(slots: seq<Slot>, k: Key) returns (s: nat, h: nat)
    requires k in AllKeys(slots)
    ensures HopAt(slots, s, h, k)
  {
    var n := |slots| - 1;
    if k in Keys(slots[n].chain) {
      s := n;
      h :| 0 <= h < |slots[n].chain| && slots[n].chain[h].position.key == k;
    } else {
      s, h := KeyHasHop(slots[..n], k);
    }
  }

  lemma TwicePresent(ks: seq<Key>, i: nat, j: nat, k: Key)
    requires i < j < |ks| && ks[i] == k == ks[j]
    ensures multiset(ks)[k] >= 2
  {
    assert ks == ks[..j] + ks[j..];
    assert ks[..j][i] == k && k in multiset(ks[..j]);
    assert ks[j..][0] == k && k in multiset(ks[j..]);
  }

  function ChainCount(s: Slot, k: Key): nat {
    multiset(Keys(s.chain))[k]
  }

  // Occurrences of a key over all chains, slot by slot.
  function KeyCount(slots: seq<Slot>, k: Key): nat {
    if |slots| == 0 then 0 else KeyCount(slots[..|slots| - 1], k) + ChainCount(slots[|slots| - 1], k)
  }

  lemma {:induction false} KeyCountIsMultiplicity(slots: seq<Slot>, k: Key)
    ensures multiset(AllKeys(slots))[k] == KeyCount(slots, k)
  {
    if |slots| > 0 { KeyCountIsMultiplicity(slots[..|slots| - 1], k); }
  }

  lemma {:induction false} OneChainCounts(slots: seq<Slot>, s: nat, k: Key)
    requires s < |slots|
    ensures KeyCount(slots, k) >= ChainCount(slots[s], k)
  {
    if s < |slots| - 1 { OneChainCounts(slots[..|slots| - 1], s, k); }
  }

  lemma {:induction false} TwoChainsCount(slots: seq<Slot>, s: nat, s': nat, k: Key)
    requires s < s' < |slots|
    ensures KeyCount(slots, k) >= ChainCount(slots[s], k) + ChainCount(slots[s'], k)
  {
    if s' < |slots| - 1 {
      TwoChainsCount(slots[..|slots| - 1], s, s', k);
    } else {
      OneChainCounts(slots[..|slots| - 1], s, k);
    }
  }

  lemma HopCounts(slots: seq<Slot>, s: nat, h: nat, k: Key)
    requires HopAt(slots, s, h, k)
    ensures ChainCount(slots[s], k) >= 1
  {
    assert Keys(slots[s].chain)[h] == k;
    assert k in multiset(Keys(slots[s].chain));
  }

  lemma TwoHopsCountTwice(slots: seq<Slot>, s: nat, h: nat, s': nat, h': nat, k: Key)
    requires HopAt(slots, s, h, k) && HopAt(slots, s', h', k)
    requires s < s' || (s == s' && h < h')
    ensures multiset(AllKeys(slots))[k] >= 2
  {
    KeyCountIsMultiplicity(slots, k);
    if s < s' {
      HopCounts(slots, s, h, k);
      HopCounts(slots, s', h', k);
      TwoChainsCount(slots, s, s', k);
    } else {
      TwicePresent(Keys(slots[s].chain), h, h', k);
      OneChainCounts(slots, s, k);
    }
  }

  // Every retained ledger position is exactly one hop of exactly one slot chain.
  lemma OwnershipBijection(slots: seq<Slot>, m: PosMap, rows: seq<Row>, operator: string)
    requires Owned(slots, m, rows, operator)
    ensures forall s, h :: 0 <= s < |slots| && 0 <= h < |slots[s].chain| ==> slots[s].chain[h].position.key in m
    ensures forall k :: k in m ==> exists s, h :: HopAt(slots, s, h, k)
    ensures forall k, s, h, s', h' :: HopAt(slots, s, h, k) && HopAt(slots, s', h', k) ==> s == s' && h == h'
  {
    forall k | k in m ensures exists s, h :: HopAt(slots, s, h, k) {
      assert k in multiset(m.Keys);
      assert k in multiset(AllKeys(slots));
      var s, h := KeyHasHop(slots, k);
    }
    forall k, s, h, s', h' | HopAt(slots, s, h, k) && HopAt(slots, s', h', k) ensures s == s' && h == h' {
      if s < s' || (s == s' && h < h') { TwoHopsCountTwice(slots, s, h, s', h', k); }
      if s' < s || (s == s' && h' < h) { TwoHopsCountTwice(slots, s', h', s, h, k); }
    }
  }

  // ---------- what an accepted binding says, read off the ledger alone ----------

  predicate DecisionAt(rows: seq<Row>, r: int, ti: int, k: int) {
    0 <= r < |rows| && 0 <= ti < |rows[r].txs| && 0 <= k < |rows[r].txs[ti].decisions|
  }

  // Decision k of transaction ti of row r, with the row's anchor and the transaction's hash.
  function LocatedAt(rows: seq<Row>, r: int, ti: int, k: int): Located
    requires DecisionAt(rows, r, ti, k)
  {
    Located(Key(rows[r].height, ti, k), rows[r].anchor, rows[r].txs[ti].hash, rows[r].txs[ti].decisions[k])
  }

  // The position map of a ledger of consecutive rows.
  ghost predicate LedgerMap(m: PosMap, rows: seq<Row>) {
    MapsRetained(m, Locate(rows)) && AllPlacedRight(Locate(rows)) && ConsecutiveRows(rows)
  }

  lemma {:induction false} DecisionLocated(row: Row, ti: nat, n: nat, k: nat)
    requires ti < |row.txs| && k < n <= |row.txs[ti].decisions|
    ensures Located(Key(row.height, ti, k), row.anchor, row.txs[ti].hash, row.txs[ti].decisions[k])
      in LocateDecisions(row, ti, n)
  {
    if k < n - 1 { DecisionLocated(row, ti, n - 1, k); }
  }

  lemma {:induction false} TxLocated(row: Row, n: nat, ti: nat, l: Located)
    requires ti < n <= |row.txs| && l in LocateDecisions(row, ti, |row.txs[ti].decisions|)
    ensures l in LocateTxs(row, n)
  {
    if ti < n - 1 { TxLocated(row, n - 1, ti, l); }
  }

  lemma {:induction false} RowLocated(rows: seq<Row>, r: nat, l: Located)
    requires r < |rows| && l in LocateTxs(rows[r], |rows[r].txs|)
    ensures l in Locate(rows)
  {
    if r < |rows| - 1 { RowLocated(rows[..|rows| - 1], r, l); }
  }

  lemma {:induction false} DecisionOf(row: Row, ti: nat, n: nat, l: Located) returns (k: nat)
    requires ti < |row.txs| && n <= |row.txs[ti].decisions| && l in LocateDecisions(row, ti, n)
    ensures k < n
    ensures l == Located(Key(row.height, ti, k), row.anchor, row.txs[ti].hash, row.txs[ti].decisions[k])
  {
    if l in LocateDecisions(row, ti, n - 1) { k := DecisionOf(row, ti, n - 1, l); } else { k := n - 1; }
  }

  lemma {:induction false} TxOf(row: Row, n: nat, l: Located) returns (ti: nat)
    requires n <= |row.txs| && l in LocateTxs(row, n)
    ensures ti < n && l in LocateDecisions(row, ti, |row.txs[ti].decisions|)
  {
    if l in LocateTxs(row, n - 1) { ti := TxOf(row, n - 1, l); } else { ti := n - 1; }
  }

  lemma {:induction false} RowOf(rows: seq<Row>, l: Located) returns (r: nat)
    requires l in Locate(rows)
    ensures r < |rows| && l in LocateTxs(rows[r], |rows[r].txs|)
  {
    if l in Locate(rows[..|rows| - 1]) { r := RowOf(rows[..|rows| - 1], l); } else { r := |rows| - 1; }
  }

  // The located decisions are exactly the ledger's, each under its own row, transaction and place.
  lemma LocateMeaning(rows: seq<Row>, l: Located)
    ensures l in Locate(rows) <==> exists r, ti, k :: DecisionAt(rows, r, ti, k) && l == LocatedAt(rows, r, ti, k)
  {
    hide Locate, LocateTxs, LocateDecisions;
    if l in Locate(rows) {
      var r := RowOf(rows, l);
      var ti := TxOf(rows[r], |rows[r].txs|, l);
      var k := DecisionOf(rows[r], ti, |rows[r].txs[ti].decisions|, l);
      assert DecisionAt(rows, r, ti, k);
    }
    if r, ti, k :| DecisionAt(rows, r, ti, k) && l == LocatedAt(rows, r, ti, k) {
      DecisionLocated(rows[r], ti, |rows[r].txs[ti].decisions|, k);
      TxLocated(rows[r], |rows[r].txs|, ti, l);
      RowLocated(rows, r, l);
    }
  }

  // The ledger retains a position here, under this transaction's hash and this row's anchor.
  predicate RecordedAt(rows: seq<Row>, p: Position, e: Economics, hash: string, anchor: int) {
    && |rows| > 0
    && var r := p.key.height - rows[0].height;
    && DecisionAt(rows, r, p.key.tx, p.key.inner)
    && rows[r].anchor == anchor
    && rows[r].txs[p.key.tx].hash == hash
    && rows[r].txs[p.key.tx].decisions[p.key.inner] == Retained(p, e)
  }

  // Every field of the hop is the ledger's, and its position is one of this slot's document.
  predicate HopRecorded(h: Hop, s: Slot, rows: seq<Row>) {
    && RecordedAt(rows, h.position, Economics(h.seller, h.buyer, h.price), h.hash, h.anchor)
    && h.position.slotIndex == s.slotIndex && s.docId == Some(h.position.docId)
  }

  // Minted by the operator, then bought by one owner from the one before, in ledger order.
  predicate SalesInOrder(chain: seq<Hop>, operator: string) {
    && (forall i :: 0 <= i < |chain| ==> (chain[i].position.kind == Creation <==> i == 0))
    && (forall i :: 0 < i < |chain| ==> chain[i].position.kind == Purchase)
    && (|chain| > 0 ==> chain[0].seller == operator == chain[0].buyer)
    && (forall i :: 0 < i < |chain| ==> chain[i].seller == chain[i - 1].buyer)
    && forall i, j :: 0 <= i < j < |chain| ==> Earlier(chain[i].position.key, chain[j].position.key)
  }

  predicate Earlier(a: Key, b: Key) {
    if a.height != b.height then a.height < b.height else if a.tx != b.tx then a.tx < b.tx else a.inner < b.inner
  }

  predicate LedgerChain(s: Slot, rows: seq<Row>, operator: string) {
    && (forall i :: 0 <= i < |s.chain| ==> HopRecorded(s.chain[i], s, rows))
    && SalesInOrder(s.chain, operator)
    && (s.docId.None? <==> s.chain == [])
  }

  // What the position map holds is what the ledger records.
  lemma MappedIffRecorded(m: PosMap, rows: seq<Row>, p: Position, e: Economics, hash: string, anchor: int)
    requires LedgerMap(m, rows)
    ensures RecordedAt(rows, p, e, hash, anchor) <==> p.key in m && m[p.key] == Entry(hash, p, anchor, e)
    ensures p.key in m ==> m[p.key].position.kind != PreCreation
  {
    var ls := Locate(rows);
    hide Locate;
    if RecordedAt(rows, p, e, hash, anchor) {
      var r := p.key.height - rows[0].height;
      var l := LocatedAt(rows, r, p.key.tx, p.key.inner);
      assert rows[r].height == p.key.height;
      LocateMeaning(rows, l);
      var i :| 0 <= i < |ls| && ls[i] == l;
    }
    if p.key in m && m[p.key] == Entry(hash, p, anchor, e) {
      var i :| 0 <= i < |ls| && ls[i].decision.Retained? && ls[i].here == p.key;
      LocateMeaning(rows, ls[i]);
      var r, ti, k :| DecisionAt(rows, r, ti, k) && ls[i] == LocatedAt(rows, r, ti, k);
      assert rows[r].height == rows[0].height + r;
    }
  }

  // A hop is bound exactly when the ledger records every field of it.
  lemma BoundIffRecorded(h: Hop, s: Slot, m: PosMap, rows: seq<Row>)
    requires LedgerMap(m, rows)
    ensures HopBound(h, s, m, rows) <==> HopRecorded(h, s, rows)
  {
    hide LedgerMap;
    MappedIffRecorded(m, rows, h.position, Economics(h.seller, h.buyer, h.price), h.hash, h.anchor);
    if h.position.key in m { MappedAnchor(m, rows, h.position.key); }
  }

  lemma MappedAnchor(m: PosMap, rows: seq<Row>, key: Key)
    requires LedgerMap(m, rows) && key in m
    ensures AnchorAt(rows, key.height) == Some(m[key].anchor)
  {
    var e := m[key];
    MappedIffRecorded(m, rows, e.position, e.economics, e.hash, e.anchor);
    assert e.position.key == key;
    hide MapsRetained, Locate;
  }

  // An accepted chain is exactly one whose hops are the ledger's own retained decisions, handed
  // over from the operator's minting on, in ledger order.
  lemma ChainOkIffLedgerChain(s: Slot, m: PosMap, rows: seq<Row>, operator: string)
    requires LedgerMap(m, rows)
    ensures ChainOk(s, m, rows, operator) <==> LedgerChain(s, rows, operator)
  {
    forall i | 0 <= i < |s.chain|
      ensures HopBound(s.chain[i], s, m, rows) <==> HopRecorded(s.chain[i], s, rows)
    {
      BoundIffRecorded(s.chain[i], s, m, rows);
    }
    hide HopBound, HopRecorded, LedgerMap;
    SalesMean(s.chain, operator);
  }

  lemma SalesMean(chain: seq<Hop>, operator: string)
    ensures SalesInOrder(chain, operator) <==>
      (forall i :: 0 <= i < |chain| ==> HopContinues(chain, i, operator)) && StrictlyOrdered(chain)
  {
    if (forall i :: 0 <= i < |chain| ==> HopContinues(chain, i, operator)) && StrictlyOrdered(chain) {
      assert |chain| > 0 ==> HopContinues(chain, 0, operator);
      forall i, j | 0 <= i < j < |chain| ensures Earlier(chain[i].position.key, chain[j].position.key) {
        assert Less(chain[i].position.key, chain[j].position.key);
      }
      forall i | 0 <= i < |chain|
        ensures chain[i].position.kind == Creation <==> i == 0
        ensures i > 0 ==> chain[i].position.kind == Purchase
      {
        assert HopContinues(chain, i, operator);
      }
      forall i | 0 < i < |chain| ensures chain[i].seller == chain[i - 1].buyer {
        assert HopContinues(chain, i, operator);
      }
    }
  }

  // Every retained decision of the ledger is one hop of one chain, and only one.
  ghost predicate EachOnce(slots: seq<Slot>, rows: seq<Row>) {
    forall r, ti, k :: DecisionAt(rows, r, ti, k) && rows[r].txs[ti].decisions[k].Retained? ==>
      Once(slots, Key(rows[r].height, ti, k))
  }

  ghost predicate Once(slots: seq<Slot>, k: Key) {
    && (exists s, h :: HopAt(slots, s, h, k))
    && forall s, h, s', h' :: HopAt(slots, s, h, k) && HopAt(slots, s', h', k) ==> s == s' && h == h'
  }

  lemma {:induction false} AtMostOnce(ks: seq<Key>, k: Key)
    requires forall i, j :: 0 <= i < j < |ks| ==> ks[i] != ks[j]
    ensures multiset(ks)[k] <= 1
  {
    if |ks| > 0 {
      var front := ks[..|ks| - 1];
      assert ks == front + [ks[|ks| - 1]];
      AtMostOnce(front, k);
      if k in front {
        assert k != ks[|ks| - 1];
      } else {
        assert multiset(front)[k] == 0;
      }
    }
  }

  lemma ChainCountOnce(s: Slot, k: Key)
    requires StrictlyOrdered(s.chain)
    ensures ChainCount(s, k) <= 1
    ensures ChainCount(s, k) > 0 ==> exists h :: 0 <= h < |s.chain| && s.chain[h].position.key == k
  {
    var ks := Keys(s.chain);
    forall i, j | 0 <= i < j < |ks| ensures ks[i] != ks[j] {
      assert Less(s.chain[i].position.key, s.chain[j].position.key);
    }
    AtMostOnce(ks, k);
    if ChainCount(s, k) > 0 {
      assert k in multiset(ks);
      var h :| 0 <= h < |ks| && ks[h] == k;
    }
  }

  lemma {:induction false} CountedOnce(slots: seq<Slot>, k: Key)
    requires forall s :: 0 <= s < |slots| ==> StrictlyOrdered(slots[s].chain)
    requires forall s, h, s', h' :: HopAt(slots, s, h, k) && HopAt(slots, s', h', k) ==> s == s' && h == h'
    ensures KeyCount(slots, k) <= 1
    ensures KeyCount(slots, k) > 0 ==> exists s, h :: HopAt(slots, s, h, k)
  {
    if |slots| > 0 {
      var n := |slots| - 1;
      var front := slots[..n];
      forall s, h | HopAt(front, s, h, k) ensures HopAt(slots, s, h, k) {}
      CountedOnce(front, k);
      ChainCountOnce(slots[n], k);
      hide ChainCount, StrictlyOrdered;
      if ChainCount(slots[n], k) > 0 {
        var h :| 0 <= h < |slots[n].chain| && slots[n].chain[h].position.key == k;
        assert HopAt(slots, n, h, k);
      }
      if KeyCount(front, k) > 0 {
        var s, h :| HopAt(front, s, h, k);
        assert HopAt(slots, s, h, k);
      }
    }
  }

  // The binding is accepted exactly when every chain is one of the ledger's and every retained
  // decision is one hop.
  lemma OwnedIffLedger(slots: seq<Slot>, m: PosMap, rows: seq<Row>, operator: string)
    requires LedgerMap(m, rows)
    ensures Owned(slots, m, rows, operator) <==>
      (forall i :: 0 <= i < |slots| ==> LedgerChain(slots[i], rows, operator)) && EachOnce(slots, rows)
  {
    hide *;
    forall i | 0 <= i < |slots|
      ensures ChainOk(slots[i], m, rows, operator) <==> LedgerChain(slots[i], rows, operator)
    {
      ChainOkIffLedgerChain(slots[i], m, rows, operator);
    }
    OnceIffMapped(slots, m, rows);
    OwnedParts(slots, m, rows, operator);
    if (forall i :: 0 <= i < |slots| ==> ChainOk(slots[i], m, rows, operator)) && EachOnce(slots, rows) {
      CountsAgree(slots, m, rows, operator);
    }
  }

  lemma OwnedParts(slots: seq<Slot>, m: PosMap, rows: seq<Row>, operator: string)
    ensures Owned(slots, m, rows, operator) <==>
      (forall i :: 0 <= i < |slots| ==> ChainOk(slots[i], m, rows, operator))
      && multiset(AllKeys(slots)) == multiset(m.Keys)
    ensures Owned(slots, m, rows, operator) ==> forall k :: k in m ==> Once(slots, k)
  {
    hide ChainOk, AllKeys, HopAt;
    if Owned(slots, m, rows, operator) { OwnershipBijection(slots, m, rows, operator); }
  }

  // The retained decisions are the keys of the position map.
  lemma OnceIffMapped(slots: seq<Slot>, m: PosMap, rows: seq<Row>)
    requires LedgerMap(m, rows)
    ensures EachOnce(slots, rows) <==> forall k :: k in m ==> Once(slots, k)
  {
    var ls := Locate(rows);
    hide Locate, Once;
    forall r, ti, k | DecisionAt(rows, r, ti, k) && rows[r].txs[ti].decisions[k].Retained?
      ensures Key(rows[r].height, ti, k) in m
    {
      LocateMeaning(rows, LocatedAt(rows, r, ti, k));
      var i :| 0 <= i < |ls| && ls[i] == LocatedAt(rows, r, ti, k);
    }
    forall key | key in m
      ensures exists r, ti, k ::
        DecisionAt(rows, r, ti, k) && rows[r].txs[ti].decisions[k].Retained? && key == Key(rows[r].height, ti, k)
    {
      var i :| 0 <= i < |ls| && ls[i].decision.Retained? && ls[i].here == key;
      LocateMeaning(rows, ls[i]);
      var r, ti, k :| DecisionAt(rows, r, ti, k) && ls[i] == LocatedAt(rows, r, ti, k);
    }
    hide MapsRetained;
  }

  lemma CountsAgree(slots: seq<Slot>, m: PosMap, rows: seq<Row>, operator: string)
    requires forall i :: 0 <= i < |slots| ==> ChainOk(slots[i], m, rows, operator)
    requires forall k :: k in m ==> Once(slots, k)
    ensures multiset(AllKeys(slots)) == multiset(m.Keys)
  {
    hide HopBound, HopContinues, AllKeys;
    forall k ensures multiset(AllKeys(slots))[k] == multiset(m.Keys)[k] { CountAgrees(slots, m, rows, operator, k); }
  }

  lemma CountAgrees(slots: seq<Slot>, m: PosMap, rows: seq<Row>, operator: string, k: Key)
    requires forall i :: 0 <= i < |slots| ==> ChainOk(slots[i], m, rows, operator)
    requires k in m ==> Once(slots, k)
    ensures multiset(AllKeys(slots))[k] == multiset(m.Keys)[k]
  {
    KeyCountIsMultiplicity(slots, k);
    hide AllKeys, KeyCount;
    forall s, h | HopAt(slots, s, h, k) ensures k in m { HopIsMapped(slots, m, rows, operator, s, h); }
    forall s | 0 <= s < |slots| ensures StrictlyOrdered(slots[s].chain) {
      assert ChainOk(slots[s], m, rows, operator);
    }
    hide ChainOk, StrictlyOrdered;
    CountedOnce(slots, k);
    if k in m {
      var s, h :| HopAt(slots, s, h, k);
      HopCounts(slots, s, h, k);
      OneChainCounts(slots, s, k);
    }
  }

  lemma HopIsMapped(slots: seq<Slot>, m: PosMap, rows: seq<Row>, operator: string, s: int, h: int)
    requires 0 <= s < |slots| && 0 <= h < |slots[s].chain| && ChainOk(slots[s], m, rows, operator)
    ensures slots[s].chain[h].position.key in m
  {
    assert HopBound(slots[s].chain[h], slots[s], m, rows);
  }

  // ---------- the owner at a reward height ----------

  // The checker's scan: index of the first row whose anchor reaches H.
  function FirstClosing(rows: seq<Row>, H: int): Option<nat> {
    if |rows| == 0 then None
    else if rows[0].anchor >= H then Some(0)
    else match FirstClosing(rows[1..], H)
      case None => None
      case Some(i) => Some(i + 1)
  }

  // The checker's filter: hops anchored below H, in chain order.
  function Eligible(chain: seq<Hop>, H: int): seq<Hop> {
    if |chain| == 0 then []
    else Eligible(chain[..|chain| - 1], H) + if chain[|chain| - 1].anchor < H then [chain[|chain| - 1]] else []
  }

  datatype Closing = Closing(platformHeight: int, anchor: int)

  // snapshot None is the pre-creation snapshot, owned by the book operator.
  datatype Allocation = Unclosed | Resolved(owner: string, snapshot: Option<Position>, closing: Closing)

  function Resolve(chain: seq<Hop>, rows: seq<Row>, operator: string, H: int): Allocation {
    FirstClosingBounds(rows, H);
    match FirstClosing(rows, H)
    case None => Unclosed
    case Some(c) =>
      var closing := Closing(rows[c].height, rows[c].anchor);
      var el := Eligible(chain, H);
      if el == [] then Resolved(operator, None, closing)
      else Resolved(el[|el| - 1].buyer, Some(el[|el| - 1].position), closing)
  }

  lemma {:induction false} FirstClosingBounds(rows: seq<Row>, H: int)
    ensures var c := FirstClosing(rows, H);
      && (c.Some? ==>
           c.value < |rows| && rows[c.value].anchor >= H
           && forall i :: 0 <= i < c.value ==> rows[i].anchor < H)
      && (c.None? ==> forall i :: 0 <= i < |rows| ==> rows[i].anchor < H)
  {
    if |rows| > 0 { FirstClosingBounds(rows[1..], H); }
  }

  lemma FirstClosingIs(rows: seq<Row>, H: int, c: nat)
    requires c <= |rows| && forall i :: 0 <= i < c ==> rows[i].anchor < H
    requires c < |rows| ==> rows[c].anchor >= H
    ensures FirstClosing(rows, H) == if c < |rows| then Some(c) else None
  {
    FirstClosingBounds(rows, H);
  }

  // prepareClosingIndex: the captured anchors, or a refusal when they regress.
  method PrepareClosingIndex(rows: seq<Row>) returns (r: Result<seq<int>, Failure>)
    ensures r.Ok? <==>
      (forall i :: 0 <= i < |rows| ==> Safe(rows[i].anchor)) && AnchorsNonDecreasing(rows)
    ensures r.Ok? ==> |r.value| == |rows| && forall i :: 0 <= i < |rows| ==> r.value[i] == rows[i].anchor
  {
    var anchors: seq<int> := [];
    for i := 0 to |rows|
      invariant |anchors| == i
      invariant forall k :: 0 <= k < i ==> anchors[k] == rows[k].anchor && Safe(anchors[k])
      invariant forall k, l :: 0 <= k < l < i ==> anchors[k] <= anchors[l]
    {
      if !Safe(rows[i].anchor) { return Err(BadHeight); }
      if i > 0 && rows[i].anchor < rows[i - 1].anchor { return Err(AnchorsRegress); }
      anchors := anchors + [rows[i].anchor];
    }
    return Ok(anchors);
  }

  method SearchClosing(ghost rows: seq<Row>, anchors: seq<int>, H: int) returns (r: Option<nat>)
    requires |anchors| == |rows| && forall i :: 0 <= i < |rows| ==> anchors[i] == rows[i].anchor
    requires AnchorsNonDecreasing(rows)
    ensures r == FirstClosing(rows, H)
  {
    var lo, hi := 0, |anchors| - 1;
    r := None;
    while lo <= hi
      invariant 0 <= lo <= hi + 1 <= |anchors|
      invariant forall i :: 0 <= i < lo ==> anchors[i] < H
      invariant r == if hi + 1 < |anchors| then Some(hi + 1) else None
      invariant hi + 1 < |anchors| ==> anchors[hi + 1] >= H
      decreases hi + 1 - lo
    {
      var mid := (lo + hi) / 2;
      if anchors[mid] >= H {
        r := Some(mid);
        hi := mid - 1;
      } else {
        lo := mid + 1;
      }
    }
    FirstClosingIs(rows, H, lo);
  }

  predicate HopAnchorsNonDecreasing(chain: seq<Hop>) {
    forall i, j :: 0 <= i < j < |chain| ==> chain[i].anchor <= chain[j].anchor
  }

  lemma {:induction false} EligibleIsPrefix(chain: seq<Hop>, H: int, n: nat)
    requires n <= |chain|
    requires forall i :: 0 <= i < n ==> chain[i].anchor < H
    requires forall i :: n <= i < |chain| ==> chain[i].anchor >= H
    ensures Eligible(chain, H) == chain[..n]
  {
    if |chain| > 0 {
      var k := |chain| - 1;
      EligibleIsPrefix(chain[..k], H, if n <= k then n else k);
      if n <= k { assert chain[..k][..n] == chain[..n]; } else { assert chain == chain[..k] + [chain[k]]; }
    }
  }

  // lastEligibleHop: binary search for the last hop anchored below H.
  method SearchHop(chain: seq<Hop>, H: int) returns (r: Option<nat>)
    requires HopAnchorsNonDecreasing(chain)
    ensures match r
      case None => Eligible(chain, H) == []
      case Some(i) => i < |chain| && Eligible(chain, H) == chain[..i + 1]
  {
    var lo, hi, found := 0, |chain| - 1, -1;
    while lo <= hi
      invariant 0 <= lo <= hi + 1 <= |chain|
      invariant found == lo - 1
      invariant forall i :: 0 <= i < lo ==> chain[i].anchor < H
      invariant forall i :: hi < i < |chain| ==> chain[i].anchor >= H
      decreases hi + 1 - lo
    {
      var mid := (lo + hi) / 2;
      if chain[mid].anchor < H {
        found := mid;
        lo := mid + 1;
      } else {
        hi := mid - 1;
      }
    }
    EligibleIsPrefix(chain, H, lo);
    r := if found < 0 then None else Some(found);
  }

  method ResolveAllocation(chain: seq<Hop>, rows: seq<Row>, anchors: seq<int>, operator: string, H: int)
    returns (a: Allocation)
    requires |anchors| == |rows| && forall i :: 0 <= i < |rows| ==> anchors[i] == rows[i].anchor
    requires AnchorsNonDecreasing(rows) && HopAnchorsNonDecreasing(chain)
    ensures a == Resolve(chain, rows, operator, H)
  {
    FirstClosingBounds(rows, H);
    var closing := SearchClosing(rows, anchors, H);
    var hop := SearchHop(chain, H);
    if closing.None? {
      a := Unclosed;
    } else {
      var c := Closing(rows[closing.value].height, anchors[closing.value]);
      a := match hop
        case None => Resolved(operator, None, c)
        case Some(i) => Resolved(chain[i].buyer, Some(chain[i].position), c);
    }
  }

  // The chain checks imply what the seam's search relies on: hop anchors never regress.
  lemma ChainOkAnchors(s: Slot, m: PosMap, rows: seq<Row>, operator: string)
    requires ChainOk(s, m, rows, operator) && AnchorsNonDecreasing(rows)
    ensures HopAnchorsNonDecreasing(s.chain)
  {
    forall i, j | 0 <= i < j < |s.chain| ensures s.chain[i].anchor <= s.chain[j].anchor {
      assert Less(s.chain[i].position.key, s.chain[j].position.key);
      assert HopBound(s.chain[i], s, m, rows) && HopBound(s.chain[j], s, m, rows);
    }
  }

  // The hops anchored below H are exactly the hops recorded on rows before the closing row.
  lemma EligibleIffBeforeClosing(s: Slot, m: PosMap, rows: seq<Row>, operator: string, H: int, i: nat)
    requires ChainOk(s, m, rows, operator) && AnchorsNonDecreasing(rows)
    requires i < |s.chain|
    ensures s.chain[i].anchor < H <==>
      match FirstClosing(rows, H)
      case None => true
      case Some(c) => s.chain[i].position.key.height < rows[0].height + c
  {
    hide *;
    HopRow(s, m, rows, operator, i);
    BelowIffBeforeClosing(rows, H, s.chain[i].position.key.height - rows[0].height);
  }

  lemma BelowIffBeforeClosing(rows: seq<Row>, H: int, r: nat)
    requires AnchorsNonDecreasing(rows) && r < |rows|
    ensures rows[r].anchor < H <==>
      match FirstClosing(rows, H)
      case None => true
      case Some(c) => r < c
  {
    FirstClosingBounds(rows, H);
    hide FirstClosing;
  }

  lemma HopRow(s: Slot, m: PosMap, rows: seq<Row>, operator: string, i: nat)
    requires ChainOk(s, m, rows, operator) && i < |s.chain|
    ensures var r := s.chain[i].position.key.height - if |rows| > 0 then rows[0].height else 0;
      0 <= r < |rows| && rows[r].anchor == s.chain[i].anchor
  {
    hide HopContinues, StrictlyOrdered;
    assert HopBound(s.chain[i], s, m, rows);
  }

  // The closing block is the first row whose anchor reaches H; without one nothing is resolved.
  lemma ClosingMeaning(chain: seq<Hop>, rows: seq<Row>, operator: string, H: int)
    ensures var a := Resolve(chain, rows, operator, H);
      && (a.Unclosed? <==> forall i :: 0 <= i < |rows| ==> rows[i].anchor < H)
      && (a.Resolved? ==> exists c :: Closes(rows, c, H) && a.closing == Closing(rows[c].height, rows[c].anchor))
  {
    FirstClosingBounds(rows, H);
    var c := FirstClosing(rows, H);
    if c.Some? { assert Closes(rows, c.value, H); }
  }

  predicate Closes(rows: seq<Row>, c: int, H: int) {
    0 <= c < |rows| && rows[c].anchor >= H && forall i :: 0 <= i < c ==> rows[i].anchor < H
  }

  // Hop i put `owner` in place at p, on a row before the closing one; the next hop did not.
  predicate LastBuyer(chain: seq<Hop>, i: int, p: Position, owner: string, closingHeight: int) {
    && 0 <= i < |chain| && chain[i].position == p && chain[i].buyer == owner
    && p.key.height < closingHeight
    && (i + 1 < |chain| ==> chain[i + 1].position.key.height >= closingHeight)
  }

  // On a verified chain the resolved owner is the operator until the first hop below H,
  // and afterwards the buyer of the last hop on a row before the closing one.
  lemma OwnerIsLastBuyerBeforeClosing(s: Slot, m: PosMap, rows: seq<Row>, operator: string, H: int)
    requires ChainOk(s, m, rows, operator) && AnchorsNonDecreasing(rows) && ConsecutiveRows(rows)
    requires Resolve(s.chain, rows, operator, H).Resolved?
    ensures var a := Resolve(s.chain, rows, operator, H);
      match a.snapshot
      case None =>
        a.owner == operator
        && forall i :: 0 <= i < |s.chain| ==> s.chain[i].position.key.height >= a.closing.platformHeight
      case Some(p) =>
        exists i :: LastBuyer(s.chain, i, p, a.owner, a.closing.platformHeight)
  {
    ChainOkAnchors(s, m, rows, operator);
    FirstClosingBounds(rows, H);
    var c := FirstClosing(rows, H).value;
    forall i | 0 <= i < |s.chain|
      ensures s.chain[i].anchor < H <==> s.chain[i].position.key.height < rows[c].height
    {
      EligibleIffBeforeClosing(s, m, rows, operator, H, i);
      assert c > 0 ==> rows[c].height == rows[0].height + c;
    }
    OwnerFromPrefix(s.chain, rows, operator, H, c);
  }

  lemma OwnerFromPrefix(chain: seq<Hop>, rows: seq<Row>, operator: string, H: int, c: nat)
    requires HopAnchorsNonDecreasing(chain) && FirstClosing(rows, H) == Some(c) && c < |rows|
    requires forall i :: 0 <= i < |chain| ==>
      (chain[i].anchor < H <==> chain[i].position.key.height < rows[c].height)
    ensures var a := Resolve(chain, rows, operator, H);
      a.Resolved? && a.closing == Closing(rows[c].height, rows[c].anchor)
      && match a.snapshot
      case None =>
        a.owner == operator
        && forall i :: 0 <= i < |chain| ==> chain[i].position.key.height >= rows[c].height
      case Some(p) =>
        exists i :: LastBuyer(chain, i, p, a.owner, rows[c].height)
  {
    var n := EligibleCount(chain, H);
    EligibleIsPrefix(chain, H, n);
    if n > 0 {
      var el := Eligible(chain, H);
      assert el[|el| - 1] == chain[n - 1];
      assert LastBuyer(chain, n - 1, chain[n - 1].position, chain[n - 1].buyer, rows[c].height);
    }
  }

  lemma {:induction false} EligibleCount(chain: seq<Hop>, H: int) returns (n: nat)
    requires HopAnchorsNonDecreasing(chain)
    ensures n <= |chain|
    ensures forall i :: 0 <= i < n ==> chain[i].anchor < H
    ensures forall i :: n <= i < |chain| ==> chain[i].anchor >= H
  {
    n := |chain|;
    while n > 0 && chain[n - 1].anchor >= H
      invariant n <= |chain|
      invariant forall i :: n <= i < |chain| ==> chain[i].anchor >= H
    {
      n := n - 1;
    }
  }
}
