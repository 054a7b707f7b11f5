/**
 The compound journal (compoundJournal.cjs): a member's local write-ahead record of which
 earned rewards were spent.  `Journal` is the stored record with its operations; the second
 half is the protocol as a step system, in which anything, a crash included, may come
 between reconcile's probe and its release.
 */
module CompoundJournal {
  import opened Outcomes
  import Base58

  const MAX_SUPPLY_DUFFS := 2100000000000000

  datatype Kind = Compound | Payout

  datatype State = Pending | Confirmed

  // A missing write-time stamp marks an entry older than the stamp itself.
  datatype Entry = Entry(amount: nat, state: State, kind: Kind, at: Option<int>)

  type Entries = map<string, Entry>

  // The value of one environment key.  Anything that is not the exact JSON shape is Corrupt.
  datatype Stored = NoKey | Corrupt | Doc(contractId: string, memberId: string, entries: Entries)

  datatype Failure =
    | Unreadable | BadAmount | BadEarned | NotPositive | BadPayoutId
    | AlreadyJournaled | OverCeiling | NotJournaled | NotAnEntry

  // ---------- identifiers ----------

  predicate IsDocumentId(id: string) {
    40 <= |id| <= 50 && forall i :: 0 <= i < |id| ==> Base58.IsLetter(id[i])
  }

  predicate IsPayoutId(id: string) {
    && |id| == 39 && id[..7] == "payout-"
    && forall i :: 7 <= i < 39 ==> Base58.IsHexLetter(id[i])
  }

  // The names every object inherits.  The entries are a plain object, so looking one of
  // these up finds something although no entry has that id.
  const INHERITED: set<string> := {
    "constructor", "hasOwnProperty", "isPrototypeOf", "propertyIsEnumerable", "toLocaleString", "toString", "valueOf",
    "__defineGetter__", "__defineSetter__", "__lookupGetter__", "__lookupSetter__", "__proto__"
  }

  predicate Inherited(id: string) {
    id in INHERITED
  }

  lemma InheritedIsNoId(id: string)
    requires Inherited(id)
    ensures !IsDocumentId(id) && !IsPayoutId(id)
  {
  }

  // ---------- parsing ----------

  predicate EntryOk(id: string, e: Entry) {
    && 0 < e.amount <= MAX_SUPPLY_DUFFS
    && (e.at.Some? ==> 0 <= e.at.value <= MAX_SAFE)
    && match e.kind
       case Compound => IsDocumentId(id)
       case Payout => IsPayoutId(id) && e.state == Confirmed
  }

  predicate EntriesOk(es: Entries) {
    forall id :: id in es ==> EntryOk(id, es[id])
  }

  lemma JournaledNotInherited(es: Entries, id: string)
    requires EntriesOk(es) && id in es
    ensures !Inherited(id)
  {
    if Inherited(id) { InheritedIsNoId(id); }
  }

  // parseJournal: an absent key is an empty journal, anything malformed is refused.
  function Parse(s: Stored, contractId: string, memberId: string): Option<Entries> {
    match s
    case NoKey => Some(map[])
    case Corrupt => None
    case Doc(c, m, es) => if c == contractId && m == memberId && EntriesOk(es) then Some(es) else None
  }

  // ---------- the consumed total ----------

  ghost function Total(m: map<string, nat>): nat {
    if m == map[] then 0
    else
      var k :| k in m;
      m[k] + Total(m - {k})
  }

  lemma {:induction false} TotalRemove(m: map<string, nat>, k: string)
    requires k in m
    ensures Total(m) == m[k] + Total(m - {k})
  {
    var p :| p in m && Total(m) == m[p] + Total(m - {p});
    if p != k {
      TotalRemove(m - {p}, k);
      TotalRemove(m - {k}, p);
      assert m - {p} - {k} == m - {k} - {p};
    }
  }

  lemma TotalAdd(m: map<string, nat>, k: string, v: nat)
    requires k !in m
    ensures Total(m[k := v]) == v + Total(m)
  {
    TotalRemove(m[k := v], k);
    assert m[k := v] - {k} == m;
  }

  // A part of a map, value for value, totals no more than the whole.
  lemma {:induction false} TotalOfPart(part: map<string, nat>, whole: map<string, nat>)
    requires forall k :: k in part ==> k in whole && whole[k] == part[k]
    ensures Total(part) <= Total(whole)
  {
    if part != map[] {
      var k :| k in part;
      TotalRemove(part, k);
      TotalRemove(whole, k);
      TotalOfPart(part - {k}, whole - {k});
    }
  }

  function Amounts(es: Entries): map<string, nat> {
    map id | id in es :: es[id].amount
  }

  ghost function Consumed(es: Entries): nat {
    Total(Amounts(es))
  }

  lemma ConsumedAdd(es: Entries, id: string, e: Entry)
    requires id !in es
    ensures Consumed(es[id := e]) == Consumed(es) + e.amount
  {
    assert Amounts(es[id := e]) == Amounts(es)[id := e.amount];
    TotalAdd(Amounts(es), id, e.amount);
  }

  lemma ConsumedRemove(es: Entries, id: string)
    requires id in es
    ensures Consumed(es) == es[id].amount + Consumed(es - {id})
  {
    assert Amounts(es - {id}) == Amounts(es) - {id};
    TotalRemove(Amounts(es), id);
  }

  // compoundedTotal: the sum over all entries, compounds and payouts alike.
  method CompoundedTotal(es: Entries) returns (total: nat)
    ensures total == Consumed(es)
  {
    var rest := es;
    total := 0;
    while rest != map[]
      invariant total + Consumed(rest) == Consumed(es)
      decreases |rest|
    {
      var id :| id in rest;
      ConsumedRemove(rest, id);
      total := total + rest[id].amount;
      rest := rest - {id};
    }
  }

  // ---------- one mutation each, on the entries ----------

  ghost function Reserved(es: Entries, id: string, amount: nat, earned: nat, kind: Kind, now: int)
    : Result<Entries, Failure>
  {
    if id in es || Inherited(id) then Err(AlreadyJournaled)
    else if amount + Consumed(es) > earned then Err(OverCeiling)
    else Ok(es[id := Entry(amount, if kind == Payout then Confirmed else Pending, kind, Some(now))])
  }

  function ConfirmedIn(es: Entries, id: string): Entries {
    if id in es then es[id := es[id].(state := Confirmed)] else es
  }

  // ---------- reconcile, in one uninterrupted run ----------

  function Age(e: Entry, now: int): int {
    now - (if e.at.Some? then e.at.value else 0)
  }

  datatype Act = KeptYoung | Freed(duffs: nat) | Promoted

  // What reconcile does with one entry; nothing for payouts and settled documents.
  function Decide(e: Entry, found: bool, now: int, minAge: int): Option<Act> {
    if e.kind == Payout then None
    else if !found then Some(if Age(e, now) < minAge then KeptYoung else Freed(e.amount))
    else if e.state == Pending then Some(Promoted)
    else None
  }

  // The entries after acting on the ids in `ids`.
  function After(es: Entries, ids: set<string>, doc: string -> bool, now: int, minAge: int): Entries {
    map id | id in es && !(id in ids && Frees(es[id], doc(id), now, minAge)) ::
      if id in ids && Decide(es[id], doc(id), now, minAge) == Some(Promoted)
      then es[id].(state := Confirmed) else es[id]
  }

  predicate Frees(e: Entry, found: bool, now: int, minAge: int) {
    var d := Decide(e, found, now, minAge);
    d.Some? && d.value.Freed?
  }

  function Report(es: Entries, ids: set<string>, doc: string -> bool, now: int, minAge: int): map<string, Act> {
    map id | id in es && id in ids && Decide(es[id], doc(id), now, minAge).Some? ::
      Decide(es[id], doc(id), now, minAge).value
  }

  function Reconciled(es: Entries, doc: string -> bool, now: int, minAge: int): Entries {
    After(es, es.Keys, doc, now, minAge)
  }

  function FreedIn(report: map<string, Act>): map<string, nat> {
    map id | id in report && report[id].Freed? :: report[id].duffs
  }

  class Journal {
    const contractId: string
    const memberId: string
    var stored: Stored

    constructor (contractId: string, memberId: string, stored: Stored)
      ensures this.contractId == contractId && this.memberId == memberId && this.stored == stored
    {
      this.contractId := contractId;
      this.memberId := memberId;
      this.stored := stored;
    }

    function Entries(): Option<Entries>
      reads this
    {
      Parse(stored, contractId, memberId)
    }

    method Save(es: Entries)
      modifies this
      ensures stored == Doc(contractId, memberId, es)
    {
      stored := Doc(contractId, memberId, es);
    }

    // The shared body of reserve and reservePayout after their own argument checks.
    method Debit(id: string, amount: nat, earned: nat, kind: Kind, now: int) returns (r: Result<int, Failure>)
      modifies this
      ensures r.Err? ==> stored == old(stored)
      ensures r.Ok? <==> old(Entries()).Some? && Reserved(old(Entries()).value, id, amount, earned, kind, now).Ok?
      ensures r.Ok? ==>
        && stored == Doc(contractId, memberId, Reserved(old(Entries()).value, id, amount, earned, kind, now).value)
        && r.value == earned - Consumed(old(Entries()).value) - amount >= 0
    {
      var es := Entries();
      if es.None? { return Err(Unreadable); }
      if id in es.value || Inherited(id) { return Err(AlreadyJournaled); }
      var total := CompoundedTotal(es.value);
      var ceiling := earned - total;
      if amount > ceiling { return Err(OverCeiling); }
      Save(es.value[id := Entry(amount, if kind == Payout then Confirmed else Pending, kind, Some(now))]);
      return Ok(ceiling - amount);
    }

    // reserve does not look at the form of the request id, so the record it saves can be
    // read back exactly when that id is a document id (see MalformedIdLosesJournal).
    method Reserve(id: string, amount: int, earned: int, now: int) returns (r: Result<int, Failure>)
      requires 0 <= now <= MAX_SAFE
      modifies this
      ensures r.Err? ==> stored == old(stored)
      ensures r.Ok? <==>
        && 0 < amount <= MAX_SUPPLY_DUFFS && 0 <= earned <= MAX_SUPPLY_DUFFS
        && old(Entries()).Some? && Reserved(old(Entries()).value, id, amount, earned, Compound, now).Ok?
      ensures r.Ok? ==>
        && stored == Doc(contractId, memberId, Reserved(old(Entries()).value, id, amount, earned, Compound, now).value)
        && r.value == earned - Consumed(old(Entries()).value) - amount >= 0
      ensures r.Ok? ==> (Entries().Some? <==> IsDocumentId(id))
    {
      if !(0 <= amount <= MAX_SUPPLY_DUFFS) { return Err(BadAmount); }
      if !(0 <= earned <= MAX_SUPPLY_DUFFS) { return Err(BadEarned); }
      if amount <= 0 { return Err(NotPositive); }
      ghost var before := Entries();
      r := Debit(id, amount, earned, Compound, now);
      if r.Ok? { AddReadable(before.value, id, Entry(amount, Pending, Compound, Some(now))); }
    }

    method ReservePayout(id: string, amount: int, earned: int, now: int) returns (r: Result<int, Failure>)
      requires 0 <= now <= MAX_SAFE
      modifies this
      ensures r.Err? ==> stored == old(stored)
      ensures r.Ok? <==>
        && IsPayoutId(id) && 0 < amount <= MAX_SUPPLY_DUFFS && 0 <= earned <= MAX_SUPPLY_DUFFS
        && old(Entries()).Some? && Reserved(old(Entries()).value, id, amount, earned, Payout, now).Ok?
      ensures r.Ok? ==>
        && stored == Doc(contractId, memberId, Reserved(old(Entries()).value, id, amount, earned, Payout, now).value)
        && r.value == earned - Consumed(old(Entries()).value) - amount >= 0
      ensures r.Ok? ==> Entries().Some?
    {
      if !IsPayoutId(id) { return Err(BadPayoutId); }
      if !(0 <= amount <= MAX_SUPPLY_DUFFS) { return Err(BadAmount); }
      if !(0 <= earned <= MAX_SUPPLY_DUFFS) { return Err(BadEarned); }
      if amount <= 0 { return Err(NotPositive); }
      ghost var before := Entries();
      r := Debit(id, amount, earned, Payout, now);
      if r.Ok? { AddReadable(before.value, id, Entry(amount, Confirmed, Payout, Some(now))); }
    }

    // An inherited name passes for an entry here; the journal is saved as it was read.
    method Confirm(id: string) returns (r: Result<(), Failure>)
      modifies this
      ensures r.Err? ==> stored == old(stored)
      ensures r.Ok? <==> old(Entries()).Some? && (id in old(Entries()).value || Inherited(id))
      ensures r.Ok? ==>
        stored == Doc(contractId, memberId, ConfirmedIn(old(Entries()).value, id))
        && Entries() == Some(ConfirmedIn(old(Entries()).value, id))
    {
      var es := Entries();
      if es.None? { return Err(Unreadable); }
      if id !in es.value && !Inherited(id) { return Err(NotJournaled); }
      Save(ConfirmedIn(es.value, id));
      return Ok(());
    }

    // Freed duffs, or None when the entry was not there; the journal is saved either way.
    // What an inherited name finds has no amount, which throws before the journal is saved.
    method Release(id: string) returns (r: Result<Option<nat>, Failure>)
      modifies this
      ensures r.Err? ==> stored == old(stored)
      ensures r.Ok? <==> old(Entries()).Some? && !Inherited(id)
      ensures r.Ok? ==>
        && stored == Doc(contractId, memberId, old(Entries()).value - {id})
        && Entries() == Some(old(Entries()).value - {id})
        && r.value == (if id in old(Entries()).value then Some(old(Entries()).value[id].amount) else None)
    {
      var es := Entries();
      if es.None? { return Err(Unreadable); }
      if Inherited(id) { return Err(NotAnEntry); }
      Save(es.value - {id});
      return Ok(if id in es.value then Some(es.value[id].amount) else None);
    }

    // The loop body of reconcile for one journaled entry, whose document was probed as `found`.
    method ReconcileOne(id: string, e: Entry, found: bool, now: int, minAge: int) returns (act: Option<Act>)
      requires Entries().Some? && id in Entries().value && Entries().value[id] == e
      modifies this
      ensures act == Decide(e, found, now, minAge)
      ensures Entries().Some? && ActedOn(old(Entries()).value, id, e, found, now, minAge, Entries().value)
    {
      act := None;
      JournaledNotInherited(Entries().value, id);
      if e.kind == Payout { return; }
      if !found {
        if Age(e, now) < minAge { return Some(KeptYoung); }
        var freed := Release(id);
        return Some(Freed(freed.value.value));
      }
      if e.state == Pending {
        var _ := Confirm(id);
        return Some(Promoted);
      }
    }

    method ReconcileNext(es: Entries, ghost done: set<string>, id: string, doc: string -> bool, now: int, minAge: int,
                         told: map<string, Act>) returns (report: map<string, Act>)
      requires id in es && id !in done
      requires Entries().Some? && Progress(es, done, doc, now, minAge, Entries().value, told)
      modifies this
      ensures Entries().Some? && Progress(es, done + {id}, doc, now, minAge, Entries().value, report)
    {
      hide Progress, Decide, Frees, ActedOn, Parse;
      UntouchedSoFar(es, done, id, doc, now, minAge, Entries().value, told);
      ghost var was := Entries().value;
      var act := ReconcileOne(id, es[id], doc(id), now, minAge);
      report := if act.Some? then told[id := act.value] else told;
      OneMore(es, done, id, doc, now, minAge, was, told, Entries().value, report);
    }

    // reconcile with nothing else running.  Every entry is probed once, and `doc` is what the
    // ledger answered then.
    method Reconcile(doc: string -> bool, now: int, minAge: int) returns (r: Result<map<string, Act>, Failure>)
      modifies this
      ensures r.Ok? <==> old(Entries()).Some?
      ensures r.Err? ==> stored == old(stored)
      ensures r.Ok? ==>
        var es := old(Entries()).value;
        && Entries() == Some(Reconciled(es, doc, now, minAge))
        && r.value == Report(es, es.Keys, doc, now, minAge)
    {
      hide *;
      var snapshot := Entries();
      if snapshot.None? { return Err(Unreadable); }
      var es := snapshot.value;
      var report: map<string, Act> := map[];
      var todo := es.Keys;
      ghost var done: set<string> := {};
      NoProgress(es, doc, now, minAge);
      while todo != {}
        invariant todo + done == es.Keys && todo !! done
        invariant Entries().Some? && Progress(es, done, doc, now, minAge, Entries().value, report)
        decreases |todo|
      {
        var id :| id in todo;
        report := ReconcileNext(es, done, id, doc, now, minAge, report);
        todo, done := todo - {id}, done + {id};
      }
      assert done == es.Keys;
      AllDone(es, doc, now, minAge, Entries().value, report);
      return Ok(report);
    }
  }

  // The entries before and after acting on one of them.
  predicate ActedOn(was: Entries, id: string, e: Entry, found: bool, now: int, minAge: int, cur: Entries) {
    cur == if Frees(e, found, now, minAge) then was - {id}
           else if Decide(e, found, now, minAge) == Some(Promoted) then ConfirmedIn(was, id)
           else was
  }

  // The loop invariant of reconcile: the ids in `done` have been acted on and reported.
  ghost predicate Progress(es: Entries, done: set<string>, doc: string -> bool, now: int, minAge: int,
                           cur: Entries, report: map<string, Act>)
  {
    cur == After(es, done, doc, now, minAge) && report == Report(es, done, doc, now, minAge)
  }

  lemma NoProgress(es: Entries, doc: string -> bool, now: int, minAge: int)
    ensures Progress(es, {}, doc, now, minAge, es, map[])
  {
  }

  lemma AllDone(es: Entries, doc: string -> bool, now: int, minAge: int, cur: Entries, report: map<string, Act>)
    requires Progress(es, es.Keys, doc, now, minAge, cur, report)
    ensures cur == Reconciled(es, doc, now, minAge) && report == Report(es, es.Keys, doc, now, minAge)
  {
  }

  lemma UntouchedSoFar(es: Entries, done: set<string>, id: string, doc: string -> bool, now: int, minAge: int,
                       cur: Entries, report: map<string, Act>)
    requires Progress(es, done, doc, now, minAge, cur, report) && id in es && id !in done
    ensures id in cur && cur[id] == es[id]
  {
  }

  lemma OneMore(es: Entries, done: set<string>, id: string, doc: string -> bool, now: int, minAge: int,
                was: Entries, told: map<string, Act>, cur: Entries, report: map<string, Act>)
    requires Progress(es, done, doc, now, minAge, was, told) && id in es && id !in done
    requires ActedOn(was, id, es[id], doc(id), now, minAge, cur)
    requires var d := Decide(es[id], doc(id), now, minAge);
      report == if d.Some? then told[id := d.value] else told
    ensures Progress(es, done + {id}, doc, now, minAge, cur, report)
  {
  }

  lemma AddReadable(es: Entries, id: string, e: Entry)
    requires EntriesOk(es) && id !in es
    ensures EntriesOk(es[id := e]) <==> EntryOk(id, e)
  {
    if EntriesOk(es[id := e]) { assert id in es[id := e]; }
  }

  // Two request ids at their worst: one is stored and loses the journal, one is refused as
  // already journaled although nothing is.
  lemma MalformedIdLosesJournal(contractId: string, memberId: string)
    ensures var r := Reserved(map[], "x", 1, 1, Compound, 0);
      r.Ok? && Parse(Doc(contractId, memberId, r.value), contractId, memberId) == None
    ensures Reserved(map[], "constructor", 1, 1, Compound, 0) == Err(AlreadyJournaled)
  {
    var e := Entry(1, Pending, Compound, Some(0));
    assert Consumed(map[]) == 0;
    assert !Inherited("x");
    AddReadable(map[], "x", e);
  }

  // An entry the operations leave behind: what reserve or reservePayout writes for an id of the
  // right form, or that confirmed.
  ghost predicate Written(id: string, e: Entry) {
    exists amount: nat, kind, now :: WrittenBy(id, e, amount, kind, now)
  }

  ghost predicate WrittenBy(id: string, e: Entry, amount: nat, kind: Kind, now: int) {
    && 0 < amount <= MAX_SUPPLY_DUFFS && 0 <= now <= MAX_SAFE
    && (if kind == Compound then IsDocumentId(id) else IsPayoutId(id))
    && var r := Reserved(map[], id, amount, amount, kind, now);
    && r.Ok? && id in r.value && (e == r.value[id] || e == ConfirmedIn(r.value, id)[id])
  }

  // A stamped entry can be read back exactly when the operations could have left it.
  lemma ReadableIffWritten(id: string, e: Entry)
    requires e.at.Some?
    ensures EntryOk(id, e) <==> Written(id, e)
  {
    assert Consumed(map[]) == 0;
    hide IsDocumentId, IsPayoutId, Inherited;
    if EntryOk(id, e) {
      if Inherited(id) { InheritedIsNoId(id); }
      var first := Entry(e.amount, if e.kind == Payout then Confirmed else Pending, e.kind, e.at);
      var r := Reserved(map[], id, e.amount, e.amount, e.kind, e.at.value);
      assert r == Ok(map[][id := first]);
      assert ConfirmedIn(r.value, id)[id] == first.(state := Confirmed);
      match e.state {
        case Pending => assert e.kind == Compound && e == first;
        case Confirmed => assert e == first.(state := Confirmed);
      }
      assert WrittenBy(id, e, e.amount, e.kind, e.at.value);
    }
  }

  // ---------- what one reconcile achieves ----------

  // The consumed total drops by exactly the reported freed duffs.
  lemma ReconcileFreesReported(es: Entries, doc: string -> bool, now: int, minAge: int)
    ensures Consumed(Reconciled(es, doc, now, minAge)) + Total(FreedIn(Report(es, es.Keys, doc, now, minAge)))
      == Consumed(es)
  {
    SplitTotal(Amounts(es), FreedIn(Report(es, es.Keys, doc, now, minAge)),
               Amounts(Reconciled(es, doc, now, minAge)));
  }

  lemma {:induction false} SplitTotal(whole: map<string, nat>, a: map<string, nat>, b: map<string, nat>)
    requires whole.Keys == a.Keys + b.Keys && a.Keys !! b.Keys
    requires forall k :: k in a ==> whole[k] == a[k]
    requires forall k :: k in b ==> whole[k] == b[k]
    ensures Total(a) + Total(b) == Total(whole)
  {
    if a == map[] {
      assert whole == b;
    } else {
      var k :| k in a;
      TotalRemove(a, k);
      TotalRemove(whole, k);
      assert (whole - {k}).Keys == (a - {k}).Keys + b.Keys;
      SplitTotal(whole - {k}, a - {k}, b);
    }
  }

  // A second run with the same ledger and clock changes nothing and frees nothing.
  lemma ReconcileIdempotent(es: Entries, doc: string -> bool, now: int, minAge: int)
    ensures var once := Reconciled(es, doc, now, minAge);
      && Reconciled(once, doc, now, minAge) == once
      && forall id :: id in Report(once, once.Keys, doc, now, minAge) ==>
           Report(once, once.Keys, doc, now, minAge)[id] == KeptYoung
  {
  }

  // Past the age gate.  An entry from before the stamp existed counts from time zero.
  predicate OldEnough(at: Option<int>, now: int, minAge: int) {
    match at
    case None => now >= minAge
    case Some(t) => now - t >= minAge
  }

  // What is reported about an entry, and that nothing else is.
  lemma ReportExact(es: Entries, doc: string -> bool, now: int, minAge: int, id: string)
    requires id in es
    ensures var report, e := Report(es, es.Keys, doc, now, minAge), es[id];
      && (forall k :: k in report ==> k in es)
      && (id in report && report[id] == KeptYoung <==>
            e.kind == Compound && !doc(id) && !OldEnough(e.at, now, minAge))
      && (id in report && report[id].Freed? <==> e.kind == Compound && !doc(id) && OldEnough(e.at, now, minAge))
      && (id in report && report[id].Freed? ==> report[id].duffs == e.amount)
      && (id in report && report[id] == Promoted <==> e.kind == Compound && doc(id) && e.state == Pending)
  {
  }

  // Entry by entry: what reconcile keeps, promotes and frees.  A readable journal stays so.
  lemma ReconcileExact(es: Entries, doc: string -> bool, now: int, minAge: int, id: string)
    requires EntriesOk(es) && id in es
    ensures EntriesOk(Reconciled(es, doc, now, minAge))
    ensures var after := Reconciled(es, doc, now, minAge);
      && (id !in after <==> es[id].kind == Compound && !doc(id) && OldEnough(es[id].at, now, minAge))
      && (id in after ==>
           after[id] == if es[id].kind == Compound && doc(id) then es[id].(state := Confirmed) else es[id])
  {
  }

  // ---------- the protocol as a step system ----------

  // A compound's document is Live once landed; a payout is Live once its withdrawal is submitted.
  datatype Phase = Prepared | Submitted | Landed | Dead | Cancelled

  datatype Request = Request(amount: nat, stamp: int, kind: Kind, phase: Phase)

  datatype System = System(
    entries: Entries,
    requests: map<string, Request>,   // every id ever reserved, with the fate of its document or payout
    doomed: set<string>,              // ids a reconcile probe found missing and old, not yet released
    clock: int,
    maxEarned: nat)

  datatype Action =
    | Tick
    | ReserveJoin(id: string, amount: nat, earned: nat)
    | ReserveSweep(id: string, amount: nat, earned: nat)
    | Broadcast(id: string)
    | Land(id: string)
    | Fail(id: string)
    | ConfirmEntry(id: string)
    | Cancel(id: string)
    | ReleaseEntry(id: string)
    | Probe(id: string, now: int)
    | Free(id: string)
    | CrashReconcile

  function Move(s: System, id: string, phase: Phase): System
    requires id in s.requests
  {
    s.(requests := s.requests[id := s.requests[id].(phase := phase)])
  }

  predicate InPhase(s: System, id: string, phase: Phase) {
    id in s.requests && s.requests[id].phase == phase
  }

  ghost function DoReserve(s: System, id: string, amount: nat, earned: nat, kind: Kind): System {
    var s1 := s.(maxEarned := if earned > s.maxEarned then earned else s.maxEarned);
    var r := Reserved(s.entries, id, amount, earned, kind, s.clock);
    if id in s.requests || r.Err? then s1
    else s1.(entries := r.value, requests := s.requests[id := Request(amount, s.clock, kind, Prepared)])
  }

  // The assumption the age gate rests on, and the gate itself: a document lands, if ever,
  // within `window` of its reserve stamp, and reconcile frees a missing one from `gate` on.
  datatype Timing = Timing(window: nat, gate: nat)

  // One step; an action that is not enabled changes nothing.  Only a dead or cancelled
  // request is released by hand.
  ghost function Do(s: System, a: Action, t: Timing): System {
    match a
    case Tick => s.(clock := s.clock + 1)
    case ReserveJoin(id, amount, earned) => DoReserve(s, id, amount, earned, Compound)
    case ReserveSweep(id, amount, earned) => DoReserve(s, id, amount, earned, Payout)
    case Broadcast(id) => if InPhase(s, id, Prepared) then Move(s, id, Submitted) else s
    case Land(id) =>
      if InPhase(s, id, Submitted) && s.requests[id].kind == Compound && s.clock < s.requests[id].stamp + t.window
      then Move(s, id, Landed) else s
    case Fail(id) => if InPhase(s, id, Prepared) || InPhase(s, id, Submitted) then Move(s, id, Dead) else s
    case ConfirmEntry(id) => s.(entries := ConfirmedIn(s.entries, id))
    case Cancel(id) => if InPhase(s, id, Landed) then Move(s, id, Cancelled) else s
    case ReleaseEntry(id) =>
      if InPhase(s, id, Dead) || InPhase(s, id, Cancelled) then s.(entries := s.entries - {id}) else s
    case Probe(id, now) =>
      if id in s.requests && s.requests[id].kind == Compound && s.requests[id].phase != Landed
        && now <= s.clock && now - s.requests[id].stamp >= t.gate
      then s.(doomed := s.doomed + {id}) else s
    case Free(id) =>
      if id in s.doomed then s.(entries := s.entries - {id}, doomed := s.doomed - {id}) else s
    case CrashReconcile => s.(doomed := {})
  }

  ghost function Run(s: System, actions: seq<Action>, t: Timing): System {
    if |actions| == 0 then s else Do(Run(s, actions[..|actions| - 1], t), actions[|actions| - 1], t)
  }

  const START := System(map[], map[], {}, 0, 0)

  // The document or payout exists now, so its duffs are spent.
  predicate IsLive(q: Request) {
    if q.kind == Compound then q.phase == Landed else q.phase == Submitted
  }

  // It exists now or may still come to exist.
  predicate MayBeLive(q: Request, clock: int, window: nat) {
    || IsLive(q)
    || (q.kind == Compound && (q.phase == Prepared || q.phase == Submitted) && clock < q.stamp + window)
    || (q.kind == Payout && q.phase == Prepared)
  }

  predicate Backed(s: System, id: string)
    requires id in s.requests
  {
    id in s.entries && s.entries[id].amount == s.requests[id].amount
  }

  // Kept by every step under any timing.
  ghost predicate WithinEarned(s: System) {
    Consumed(s.entries) <= s.maxEarned
  }

  // Kept by every step while documents land within the gate.
  ghost predicate AllBacked(s: System, window: nat) {
    && (forall id :: id in s.requests && MayBeLive(s.requests[id], s.clock, window) ==> Backed(s, id))
    && (forall id :: id in s.doomed ==>
         id in s.requests && !MayBeLive(s.requests[id], s.clock, window))
  }

  lemma ReserveWithinEarned(s: System, id: string, amount: nat, earned: nat, kind: Kind)
    requires WithinEarned(s)
    ensures WithinEarned(DoReserve(s, id, amount, earned, kind))
  {
    var r := Reserved(s.entries, id, amount, earned, kind, s.clock);
    if id !in s.requests && r.Ok? { ConsumedAdd(s.entries, id, r.value[id]); }
  }

  lemma RemovalWithin(es: Entries, id: string)
    ensures Consumed(es - {id}) <= Consumed(es)
  {
    if id in es { ConsumedRemove(es, id); } else { assert es - {id} == es; }
  }

  lemma StepWithinEarned(s: System, a: Action, t: Timing)
    requires WithinEarned(s)
    ensures WithinEarned(Do(s, a, t))
  {
    hide Reserved;
    match a
    case ReserveJoin(id, amount, earned) => ReserveWithinEarned(s, id, amount, earned, Compound);
    case ReserveSweep(id, amount, earned) => ReserveWithinEarned(s, id, amount, earned, Payout);
    case ConfirmEntry(id) => assert Amounts(ConfirmedIn(s.entries, id)) == Amounts(s.entries);
    case ReleaseEntry(id) => RemovalWithin(s.entries, id); hide Consumed;
    case Free(id) => RemovalWithin(s.entries, id); hide Consumed;
    case _ => hide Consumed;
  }

  // Whatever the timing, the consumed total never exceeds the largest earned figure supplied so far.
  lemma {:induction false} NeverAboveEarned(actions: seq<Action>, t: Timing)
    ensures WithinEarned(Run(START, actions, t))
  {
    if |actions| > 0 {
      NeverAboveEarned(actions[..|actions| - 1], t);
      StepWithinEarned(Run(START, actions[..|actions| - 1], t), actions[|actions| - 1], t);
    }
  }

  lemma StepKeepsBacked(s: System, a: Action, t: Timing)
    requires AllBacked(s, t.window) && t.window <= t.gate
    ensures AllBacked(Do(s, a, t), t.window)
  {
    hide Consumed, DoReserve;
    match a
    case ReserveJoin(id, amount, earned) => ReserveKeepsBacked(s, id, amount, earned, Compound, t.window);
    case ReserveSweep(id, amount, earned) => ReserveKeepsBacked(s, id, amount, earned, Payout, t.window);
    case _ =>
  }

  lemma ReserveKeepsBacked(s: System, id: string, amount: nat, earned: nat, kind: Kind, window: nat)
    requires AllBacked(s, window)
    ensures AllBacked(DoReserve(s, id, amount, earned, kind), window)
  {
    hide Consumed, Inherited;
  }

  lemma {:induction false} RunKeepsBacked(actions: seq<Action>, t: Timing)
    requires t.window <= t.gate
    ensures AllBacked(Run(START, actions, t), t.window)
  {
    if |actions| > 0 {
      RunKeepsBacked(actions[..|actions| - 1], t);
      StepKeepsBacked(Run(START, actions[..|actions| - 1], t), actions[|actions| - 1], t);
    }
  }

  function Live(s: System): map<string, nat> {
    map id | id in s.requests && IsLive(s.requests[id]) :: s.requests[id].amount
  }

  function Possible(s: System, window: nat): map<string, nat> {
    map id | id in s.requests && MayBeLive(s.requests[id], s.clock, window) :: s.requests[id].amount
  }

  // Duffs tied up in live join documents and submitted payouts.
  ghost function LiveTotal(s: System): nat {
    Total(Live(s))
  }

  // The same with every document and payout that may still come to exist.
  ghost function PossibleTotal(s: System, window: nat): nat {
    Total(Possible(s, window))
  }

  // What is live or may still become so never exceeds what the journal has consumed.
  lemma NeverOverspent(actions: seq<Action>, t: Timing)
    requires t.window <= t.gate
    ensures var s := Run(START, actions, t);
      LiveTotal(s) <= PossibleTotal(s, t.window) <= Consumed(s.entries)
  {
    var s := Run(START, actions, t);
    RunKeepsBacked(actions, t);
    var possible := Possible(s, t.window);
    forall id | id in possible ensures id in Amounts(s.entries) && Amounts(s.entries)[id] == possible[id] {
      assert Backed(s, id);
    }
    TotalOfPart(possible, Amounts(s.entries));
    TotalOfPart(Live(s), possible);
  }

  // ---------- the step system's reconcile is the journal's ----------

  // Kept by every step: an entry carries its request's amount, kind and write-time stamp.
  ghost predicate Tied(s: System) {
    forall id :: id in s.entries ==> id in s.requests && TiedTo(s.entries[id], s.requests[id])
  }

  predicate TiedTo(e: Entry, q: Request) {
    e.amount == q.amount && e.kind == q.kind && e.at == Some(q.stamp)
  }

  lemma StepKeepsTied(s: System, a: Action, t: Timing)
    requires Tied(s)
    ensures Tied(Do(s, a, t))
  {
    hide Consumed, DoReserve;
    match a
    case ReserveJoin(id, amount, earned) => ReserveKeepsTied(s, id, amount, earned, Compound);
    case ReserveSweep(id, amount, earned) => ReserveKeepsTied(s, id, amount, earned, Payout);
    case _ =>
  }

  lemma ReserveKeepsTied(s: System, id: string, amount: nat, earned: nat, kind: Kind)
    requires Tied(s)
    ensures Tied(DoReserve(s, id, amount, earned, kind))
  {
    hide Consumed, Inherited;
  }

  lemma {:induction false} RunKeepsTied(actions: seq<Action>, t: Timing)
    ensures Tied(Run(START, actions, t))
  {
    if |actions| > 0 {
      RunKeepsTied(actions[..|actions| - 1], t);
      StepKeepsTied(Run(START, actions[..|actions| - 1], t), actions[|actions| - 1], t);
    }
  }

  function DocOf(s: System): string -> bool {
    id => InPhase(s, id, Landed)
  }

  // A probe of a journaled id dooms it exactly when reconcile's rule frees its entry.
  lemma ProbeIsReconcileRule(actions: seq<Action>, id: string, now: int, t: Timing)
    requires var s := Run(START, actions, t); id in s.entries && id !in s.doomed && now <= s.clock
    ensures var s := Run(START, actions, t);
      id in Do(s, Probe(id, now), t).doomed <==> Frees(s.entries[id], DocOf(s)(id), now, t.gate)
  {
    RunKeepsTied(actions, t);
    hide Run;
  }

  // Reconcile as a client runs it: probe, free what was doomed, confirm what was promoted.
  function Sweep(s: System, ids: seq<string>, now: int, gate: nat): seq<Action> {
    if |ids| == 0 then []
    else Sweep(s, ids[..|ids| - 1], now, gate) + SweepOne(s, ids[|ids| - 1], now, gate)
  }

  function SweepOne(s: System, id: string, now: int, gate: nat): seq<Action> {
    [Probe(id, now), Free(id)] +
    if Promotes(s, id, now, gate) then [ConfirmEntry(id)] else []
  }

  lemma SweepOneActs(s: System, cur: Entries, id: string, now: int, t: Timing)
    requires Tied(s) && s.doomed == {} && now <= s.clock
    requires id in s.entries && id in cur && cur[id] == s.entries[id]
    ensures var after := Run(s.(entries := cur), SweepOne(s, id, now, t.gate), t);
      && after == s.(entries := after.entries)
      && ActedOn(cur, id, s.entries[id], DocOf(s)(id), now, t.gate, after.entries)
  {
    hide Run, Consumed;
    SweepOneRuns(s, s.(entries := cur), id, now, t);
    hide SweepOne;
  }

  predicate Promotes(s: System, id: string, now: int, gate: int) {
    id in s.entries && Decide(s.entries[id], DocOf(s)(id), now, gate) == Some(Promoted)
  }

  lemma SweepOneRuns(s: System, s0: System, id: string, now: int, t: Timing)
    ensures var freed := Do(Do(s0, Probe(id, now), t), Free(id), t);
      Run(s0, SweepOne(s, id, now, t.gate), t) ==
        if Promotes(s, id, now, t.gate) then Do(freed, ConfirmEntry(id), t) else freed
  {
    var head := [Probe(id, now)];
    assert SweepOne(s, id, now, t.gate) ==
      head + [Free(id)] + (if Promotes(s, id, now, t.gate) then [ConfirmEntry(id)] else []);
    hide *;
    RunOne(s0, Probe(id, now), t);
    RunThen(s0, head, Free(id), t);
    RunThen(s0, head + [Free(id)], ConfirmEntry(id), t);
    assert head + [Free(id)] + [] == head + [Free(id)];
  }

  // With nothing in between, a sweep over all entries ends in what reconcile computes.
  lemma {:induction false} SweepReconciles(s: System, ids: seq<string>, now: int, t: Timing)
    requires Tied(s) && s.doomed == {} && now <= s.clock
    requires forall i :: 0 <= i < |ids| ==> ids[i] in s.entries
    requires forall i, j :: 0 <= i < j < |ids| ==> ids[i] != ids[j]
    ensures Run(s, Sweep(s, ids, now, t.gate), t)
      == s.(entries := After(s.entries, Elements(ids), DocOf(s), now, t.gate))
  {
    if |ids| == 0 {
      assert After(s.entries, {}, DocOf(s), now, t.gate) == s.entries;
    } else {
      hide *;
      var front, id := ids[..|ids| - 1], ids[|ids| - 1];
      SweepReconciles(s, front, now, t);
      SweepLast(s, ids, now, t);
      ElementsLast(ids);
      SweepNext(s, Elements(front), id, now, t);
    }
  }

  lemma SweepLast(s: System, ids: seq<string>, now: int, t: Timing)
    requires |ids| > 0
    ensures Run(s, Sweep(s, ids, now, t.gate), t) ==
      Run(Run(s, Sweep(s, ids[..|ids| - 1], now, t.gate), t), SweepOne(s, ids[|ids| - 1], now, t.gate), t)
  {
    hide Run;
    RunAppend(s, Sweep(s, ids[..|ids| - 1], now, t.gate), SweepOne(s, ids[|ids| - 1], now, t.gate), t);
  }

  function Elements(ids: seq<string>): set<string> {
    set id | id in ids
  }

  lemma ElementsLast(ids: seq<string>)
    requires |ids| > 0 && forall i, j :: 0 <= i < j < |ids| ==> ids[i] != ids[j]
    ensures var front, id := ids[..|ids| - 1], ids[|ids| - 1];
      Elements(ids) == Elements(front) + {id} && id !in Elements(front)
  {
    assert ids == ids[..|ids| - 1] + [ids[|ids| - 1]];
  }

  lemma SweepNext(s: System, done: set<string>, id: string, now: int, t: Timing)
    requires Tied(s) && s.doomed == {} && now <= s.clock
    requires id in s.entries && id !in done
    ensures Run(s.(entries := After(s.entries, done, DocOf(s), now, t.gate)), SweepOne(s, id, now, t.gate), t)
      == s.(entries := After(s.entries, done + {id}, DocOf(s), now, t.gate))
  {
    hide *;
    var es, doc := s.entries, DocOf(s);
    var cur, told := After(es, done, doc, now, t.gate), Report(es, done, doc, now, t.gate);
    ProgressMeans(es, done, doc, now, t.gate, cur, told);
    UntouchedSoFar(es, done, id, doc, now, t.gate, cur, told);
    SweepOneActs(s, cur, id, now, t);
    var after := Run(s.(entries := cur), SweepOne(s, id, now, t.gate), t);
    var d := Decide(es[id], doc(id), now, t.gate);
    var report := if d.Some? then told[id := d.value] else told;
    OneMore(es, done, id, doc, now, t.gate, cur, told, after.entries, report);
    ProgressMeans(es, done + {id}, doc, now, t.gate, after.entries, report);
  }

  lemma ProgressMeans(es: Entries, done: set<string>, doc: string -> bool, now: int, minAge: int,
                      cur: Entries, report: map<string, Act>)
    ensures Progress(es, done, doc, now, minAge, cur, report) <==>
      cur == After(es, done, doc, now, minAge) && report == Report(es, done, doc, now, minAge)
  {
  }

  lemma UninterruptedReconcile(actions: seq<Action>, ids: seq<string>, now: int, t: Timing)
    requires var s := Run(START, actions, t);
      && s.doomed == {} && now <= s.clock
      && (forall id :: id in ids <==> id in s.entries)
      && (forall i, j :: 0 <= i < j < |ids| ==> ids[i] != ids[j])
    ensures var s := Run(START, actions, t);
      Run(START, actions + Sweep(s, ids, now, t.gate), t)
        == s.(entries := Reconciled(s.entries, DocOf(s), now, t.gate))
  {
    var s := Run(START, actions, t);
    RunKeepsTied(actions, t);
    RunAppend(START, actions, Sweep(s, ids, now, t.gate), t);
    SweepReconciles(s, ids, now, t);
    assert Elements(ids) == s.entries.Keys;
  }

  // ---------- the gate must cover the landing window ----------

  function Ticks(n: nat): seq<Action> {
    if n == 0 then [] else Ticks(n - 1) + [Tick]
  }

  lemma {:induction false} RunTicks(s: System, n: nat, t: Timing)
    ensures Run(s, Ticks(n), t) == s.(clock := s.clock + n)
  {
    if n > 0 {
      RunTicks(s, n - 1, t);
      assert Ticks(n)[..|Ticks(n)| - 1] == Ticks(n - 1);
    }
  }

  lemma {:induction false} RunAppend(s: System, a: seq<Action>, b: seq<Action>, t: Timing)
    ensures Run(s, a + b, t) == Run(Run(s, a, t), b, t)
  {
    if |b| == 0 {
      assert a + b == a;
    } else {
      RunAppend(s, a, b[..|b| - 1], t);
      assert (a + b)[..|a + b| - 1] == a + b[..|b| - 1];
    }
  }

  lemma RunOne(s: System, a: Action, t: Timing)
    ensures Run(s, [a], t) == Do(s, a, t)
  {
    assert [a][..0] == [];
  }

  lemma RunThen(s: System, a: seq<Action>, b: Action, t: Timing)
    ensures Run(s, a + [b], t) == Do(Run(s, a, t), b, t)
  {
    RunAppend(s, a, [b], t);
    RunOne(Run(s, a, t), b, t);
  }

  // A reserved and broadcast join that is missing when the gate passes is freed, and then lands.
  function LateLanding(id: string, gate: nat): seq<Action> {
    [ReserveJoin(id, 1, 1), Broadcast(id)] + Ticks(gate) + [Probe(id, gate)] + [Free(id)] + [Land(id)]
  }

  lemma LateRun(id: string, t: Timing)
    ensures var s2 := Do(Do(START, ReserveJoin(id, 1, 1), t), Broadcast(id), t);
      Run(START, LateLanding(id, t.gate), t) ==
        Do(Do(Do(s2.(clock := s2.clock + t.gate), Probe(id, t.gate), t), Free(id), t), Land(id), t)
  {
    hide Do, Run;
    var head := [ReserveJoin(id, 1, 1), Broadcast(id)];
    assert head == [ReserveJoin(id, 1, 1)] + [Broadcast(id)];
    RunOne(START, ReserveJoin(id, 1, 1), t);
    RunThen(START, [ReserveJoin(id, 1, 1)], Broadcast(id), t);
    var s2 := Do(Do(START, ReserveJoin(id, 1, 1), t), Broadcast(id), t);
    RunAppend(START, head, Ticks(t.gate), t);
    RunTicks(s2, t.gate, t);
    RunThen(START, head + Ticks(t.gate), Probe(id, t.gate), t);
    RunThen(START, head + Ticks(t.gate) + [Probe(id, t.gate)], Free(id), t);
    RunThen(START, head + Ticks(t.gate) + [Probe(id, t.gate)] + [Free(id)], Land(id), t);
  }

  // The one request of the late run, and its journal entry.
  const LATE := Request(1, 0, Compound, Submitted)
  const LATE_ENTRY := Entry(1, Pending, Compound, Some(0))

  lemma LateReserved(id: string, t: Timing)
    requires IsDocumentId(id)
    ensures Do(Do(START, ReserveJoin(id, 1, 1), t), Broadcast(id), t) ==
      System(map[id := LATE_ENTRY], map[id := LATE], {}, 0, 1)
  {
    assert Consumed(map[]) == 0;
    if Inherited(id) { InheritedIsNoId(id); }
    var s1 := Do(START, ReserveJoin(id, 1, 1), t);
    assert s1 == System(map[id := LATE_ENTRY], map[id := LATE.(phase := Prepared)], {}, 0, 1);
  }

  lemma LateFreed(id: string, t: Timing)
    requires t.window > t.gate
    ensures var s3 := System(map[id := LATE_ENTRY], map[id := LATE], {}, t.gate, 1);
      Do(Do(Do(s3, Probe(id, t.gate), t), Free(id), t), Land(id), t) ==
        System(map[], map[id := LATE.(phase := Landed)], {}, t.gate, 1)
  {
    var s3 := System(map[id := LATE_ENTRY], map[id := LATE], {}, t.gate, 1);
    var s4 := Do(s3, Probe(id, t.gate), t);
    assert s4 == s3.(doomed := {id});
    var s5 := Do(s4, Free(id), t);
    assert s5 == System(map[], map[id := LATE], {}, t.gate, 1);
  }

  lemma LateLandingOverspends(id: string, t: Timing)
    requires t.window > t.gate && IsDocumentId(id)
    ensures LiveTotal(Run(START, LateLanding(id, t.gate), t)) > Consumed(Run(START, LateLanding(id, t.gate), t).entries)
  {
    LateRun(id, t);
    LateReserved(id, t);
    LateFreed(id, t);
    hide Do, Run, LateLanding;
    var s6 := System(map[], map[id := LATE.(phase := Landed)], {}, t.gate, 1);
    assert Live(s6) == map[id := 1];
    assert Total(map[id := 1]) == 1 by {
      TotalAdd(map[], id, 1);
      assert map[][id := 1] == map[id := 1];
    }
  }

  ghost predicate NoRunOverspends(t: Timing) {
    forall actions :: LiveTotal(Run(START, actions, t)) <= Consumed(Run(START, actions, t).entries)
  }

  // A document id: n ones.
  function Ones(n: nat): (id: string)
    ensures |id| == n && forall i :: 0 <= i < n ==> id[i] == '1'
  {
    if n == 0 then "" else Ones(n - 1) + ['1']
  }

  // No run overspends exactly when the gate covers the landing window.
  lemma SafeIffGateCoversWindow(t: Timing)
    ensures NoRunOverspends(t) <==> t.window <= t.gate
  {
    if t.window <= t.gate {
      forall actions ensures LiveTotal(Run(START, actions, t)) <= Consumed(Run(START, actions, t).entries) {
        NeverOverspent(actions, t);
      }
    } else {
      assert Base58.Letter(0) == '1';
      LateLandingOverspends(Ones(44), t);
    }
  }
}
