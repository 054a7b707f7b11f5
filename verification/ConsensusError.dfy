/**
 Decoding of a consensus error payload (consensusErrorPin.cjs).

 A payload is bincode varints, a document id and a counted list of names, read under the
 pinned decode limit, which counts what the decoder claims before it has read it.  `Decode`
 is the specification and `DecodePayload` the cursor.  UTF-8 validity of a name is a
 parameter.
 */
module ConsensusError {
  import opened Outcomes
  import opened Bytes

  const CONSENSUS_ERROR_VARIANTS := 5
  const STATE_ERROR_VARIANT := 2
  const DUPLICATE_UNIQUE_INDEX_VARIANT := 14
  const DECODE_LIMIT := 2000
  const RUST_STRING_BYTES := 24

  datatype Name = Name(bytes: seq<Byte>)

  datatype Decoded =
    | DuplicateUniqueIndex(documentId: seq<Byte>, names: seq<Name>)
    | OtherConsensusError(consensusVariant: nat, stateVariant: Option<nat>)
    | Malformed

  // ---------- varints ----------

  function Width(tag: Byte): nat {
    if tag == 251 then 2 else if tag == 252 then 4 else if tag == 253 then 8 else 0
  }

  // The form is one reading of v; longer forms than needed are readings too.
  predicate VarintForm(form: seq<Byte>, v: nat, u32: bool) {
    && |form| > 0
    && if form[0] < 251 then |form| == 1 && v == form[0]
       else
         var w := Width(form[0]);
         w > 0 && !(u32 && w == 8) && |form| == 1 + w && v == FromBE(form[1..]) && v <= MAX_SAFE
  }

  function TakeVarint(s: seq<Byte>, u32: bool): Option<(nat, seq<Byte>)> {
    if |s| == 0 then None
    else if s[0] < 251 then Some((s[0], s[1..]))
    else
      var w := Width(s[0]);
      if w == 0 || (u32 && w == 8) || 1 + w > |s| then None
      else
        var v := FromBE(s[1..1 + w]);
        if v > MAX_SAFE then None else Some((v, s[1 + w..]))
  }

  lemma VarintReads(form: seq<Byte>, v: nat, u32: bool, rest: seq<Byte>)
    requires VarintForm(form, v, u32)
    ensures TakeVarint(form + rest, u32) == Some((v, rest))
  {
    var s := form + rest;
    assert s[|form|..] == rest;
    if form[0] >= 251 { assert s[1..|form|] == form[1..]; }
  }

  lemma VarintRead(s: seq<Byte>, u32: bool) returns (form: seq<Byte>)
    requires TakeVarint(s, u32).Some?
    ensures VarintForm(form, TakeVarint(s, u32).value.0, u32)
    ensures s == form + TakeVarint(s, u32).value.1
  {
    var n := if s[0] < 251 then 1 else 1 + Width(s[0]);
    form := s[..n];
    assert s == form + s[n..];
    if s[0] >= 251 { assert form[1..] == s[1..n]; }
  }

  // readVarint: the cursor form, with its value loop.
  method ReadVarint(buf: seq<Byte>, at: nat, u32: bool) returns (r: Option<(nat, nat)>)
    requires at <= |buf|
    ensures r.Some? <==> TakeVarint(buf[at..], u32).Some?
    ensures r.Some? ==>
      at < r.value.1 <= |buf| && TakeVarint(buf[at..], u32) == Some((r.value.0, buf[r.value.1..]))
  {
    if at >= |buf| { return None; }
    var b := buf[at];
    if b < 251 { return Some((b, at + 1)); }
    var width := Width(b);
    if width == 0 { return None; }
    if u32 && width == 8 { return None; }
    if at + 1 + width > |buf| { return None; }
    var v := 0;
    for i := 0 to width
      invariant v == FromBE(buf[at + 1..at + 1 + i])
    {
      var s := buf[at + 1..at + 2 + i];
      assert s[..|s| - 1] == buf[at + 1..at + 1 + i];
      v := v * 256 + buf[at + 1 + i];
    }
    assert buf[at..][1..1 + width] == buf[at + 1..at + 1 + width];
    assert buf[at..][1 + width..] == buf[at + 1 + width..];
    if v > MAX_SAFE { return None; }
    return Some((v, at + 1 + width));
  }

  // ---------- the names and the running claim ----------

  // A name as it lies in the buffer: the bytes of its length, then its own.
  datatype Item = Item(form: seq<Byte>, name: Name)

  function Size(x: Item): nat {
    |x.name.bytes|
  }

  // One name: it gives back its 24-byte share, then claims 8 for its length and its own bytes.
  function TakeItem(s: seq<Byte>, claimed: int, utf8: Name -> bool): Option<(Item, seq<Byte>, int)> {
    match TakeVarint(s, false)
    case None => None
    case Some((len, s1)) =>
      var claim := claimed - RUST_STRING_BYTES + 8 + len;
      if len > |s1| || claim > DECODE_LIMIT || !utf8(Name(s1[..len])) then None
      else
        VarintConsumes(s, false);
        Some((Item(s[..|s| - |s1|], Name(s1[..len])), s1[len..], claim))
  }

  lemma VarintConsumes(s: seq<Byte>, u32: bool)
    ensures TakeVarint(s, u32).Some? ==> |TakeVarint(s, u32).value.1| < |s|
  {
  }

  // The names still to come are appended to those already read.
  function TakeItems(s: seq<Byte>, n: nat, claimed: int, utf8: Name -> bool, done: seq<Item>)
    : Option<(seq<Item>, seq<Byte>)>
    decreases n
  {
    if n == 0 then Some((done, s))
    else
      match TakeItem(s, claimed, utf8)
      case None => None
      case Some((x, s1, claim)) => TakeItems(s1, n - 1, claim, utf8, done + [x])
  }

  function Names(items: seq<Item>): (r: seq<Name>)
    ensures |r| == |items|
    ensures forall i :: 0 <= i < |items| ==> r[i] == items[i].name
  {
    seq(|items|, i requires 0 <= i < |items| => items[i].name)
  }

  // Document id, count and names, after the two enum indices and their 8 claimed bytes.
  function Body(s: seq<Byte>, utf8: Name -> bool): Decoded {
    if |s| < 32 then Malformed
    else
      match TakeVarint(s[32..], false)
      case None => Malformed
      case Some((count, s1)) =>
        if count > |s1| || 48 + RUST_STRING_BYTES * count > DECODE_LIMIT then Malformed
        else
          match TakeItems(s1, count, 48 + RUST_STRING_BYTES * count, utf8, [])
          case None => Malformed
          case Some((items, rest)) => if rest != [] then Malformed else DuplicateUniqueIndex(s[..32], Names(items))
  }

  function Decode(b: seq<Byte>, utf8: Name -> bool): Decoded {
    match TakeVarint(b, true)
    case None => Malformed
    case Some((outer, s1)) =>
      if outer >= CONSENSUS_ERROR_VARIANTS then Malformed
      else if outer != STATE_ERROR_VARIANT then OtherConsensusError(outer, None)
      else
        match TakeVarint(s1, true)
        case None => Malformed
        case Some((inner, s2)) =>
          if inner != DUPLICATE_UNIQUE_INDEX_VARIANT then OtherConsensusError(outer, Some(inner))
          else Body(s2, utf8)
  }

  // The body of the property loop: read a length, check the claims in order, slice the name.
  method ReadItem(buf: seq<Byte>, at: nat, claimed0: int, utf8: Name -> bool)
    returns (r: Option<(Name, nat, int)>, ghost x: Item)
    requires at <= |buf|
    ensures r.None? ==> TakeItem(buf[at..], claimed0, utf8).None?
    ensures r.Some? ==>
      && at < r.value.1 <= |buf| && x.name == r.value.0
      && TakeItem(buf[at..], claimed0, utf8) == Some((x, buf[r.value.1..], r.value.2))
  {
    ghost var whole := TakeItem(buf[at..], claimed0, utf8);
    x := if whole.Some? then whole.value.0 else Item([], Name([]));
    var claimed := claimed0 - RUST_STRING_BYTES;
    var len := ReadVarint(buf, at, false);
    if len.None? { return None, x; }
    claimed := claimed + 8;
    if claimed > DECODE_LIMIT { return None, x; }
    var (n, next) := len.value;
    if next + n > |buf| { return None, x; }
    claimed := claimed + n;
    if claimed > DECODE_LIMIT { return None, x; }
    var name := Name(buf[next..next + n]);
    assert buf[next..][..n] == name.bytes && buf[next..][n..] == buf[next + n..];
    if !utf8(name) { return None, x; }
    return Some((name, next + n, claimed)), x;
  }

  // The property loop: cursor, running claim and growing list.
  method DecodeNames(buf: seq<Byte>, start: nat, count: nat, claimed0: int, utf8: Name -> bool)
    returns (r: Option<(seq<Name>, nat)>)
    requires start <= |buf|
    ensures r.Some? <==> TakeItems(buf[start..], count, claimed0, utf8, []).Some?
    ensures r.Some? ==>
      && start + count <= r.value.1 <= |buf|
      && Names(TakeItems(buf[start..], count, claimed0, utf8, []).value.0) == r.value.0
      && TakeItems(buf[start..], count, claimed0, utf8, []).value.1 == buf[r.value.1..]
  {
    hide TakeItem, TakeItems;
    var at, claimed, names: seq<Name> := start, claimed0, [];
    ghost var items: seq<Item> := [];
    for i := 0 to count
      invariant start + i <= at <= |buf|
      invariant names == Names(items)
      invariant TakeItems(buf[start..], count, claimed0, utf8, [])
        == TakeItems(buf[at..], count - i, claimed, utf8, items)
    {
      TakeItemsStep(buf[at..], count - i, claimed, utf8, items);
      var next;
      ghost var x;
      next, x := ReadItem(buf, at, claimed, utf8);
      if next.None? { return None; }
      items := items + [x];
      names := names + [next.value.0];
      at, claimed := next.value.1, next.value.2;
    }
    TakeItemsDone(buf[at..], claimed, utf8, items);
    return Some((names, at));
  }

  method DecodeBody(buf: seq<Byte>, start: nat, claimed0: int, utf8: Name -> bool) returns (r: Decoded)
    requires start <= |buf| && claimed0 == 8
    ensures r == Body(buf[start..], utf8)
  {
    hide *;
    BodyUnfolds(buf[start..], utf8);
    var at, claimed := start, claimed0;
    if at + 32 > |buf| { return Malformed; }
    var documentId := buf[at..at + 32];
    assert buf[at..][..32] == documentId && buf[at..][32..] == buf[at + 32..];
    at := at + 32;
    claimed := claimed + 32;
    var count := ReadVarint(buf, at, false);
    if count.None? { return Malformed; }
    claimed := claimed + 8;
    at := count.value.1;
    if count.value.0 > |buf| - at { return Malformed; }
    claimed := claimed + RUST_STRING_BYTES * count.value.0;
    if claimed > DECODE_LIMIT { return Malformed; }
    var names := DecodeNames(buf, at, count.value.0, claimed, utf8);
    if names.None? { return Malformed; }
    if names.value.1 != |buf| { return Malformed; }
    return DuplicateUniqueIndex(documentId, names.value.0);
  }

  lemma BodyUnfolds(s: seq<Byte>, utf8: Name -> bool)
    ensures |s| < 32 ==> Body(s, utf8) == Malformed
    ensures |s| >= 32 ==>
      match TakeVarint(s[32..], false)
      case None => Body(s, utf8) == Malformed
      case Some((count, s1)) =>
        if count > |s1| || 48 + RUST_STRING_BYTES * count > DECODE_LIMIT then Body(s, utf8) == Malformed
        else match TakeItems(s1, count, 48 + RUST_STRING_BYTES * count, utf8, [])
          case None => Body(s, utf8) == Malformed
          case Some((items, rest)) =>
            Body(s, utf8) == if rest == [] then DuplicateUniqueIndex(s[..32], Names(items)) else Malformed
  {
    hide TakeVarint, TakeItems;
  }

  // decodeConsensusErrorPayload over the bytes of the hex data.
  method DecodePayload(buf: seq<Byte>, utf8: Name -> bool) returns (r: Decoded)
    ensures r == Decode(buf, utf8)
  {
    assert buf[0..] == buf;
    var claimed := 0;
    var outer := ReadVarint(buf, 0, true);
    if outer.None? { return Malformed; }
    claimed := claimed + 4;
    if outer.value.0 >= CONSENSUS_ERROR_VARIANTS { return Malformed; }
    if outer.value.0 != STATE_ERROR_VARIANT { return OtherConsensusError(outer.value.0, None); }
    var inner := ReadVarint(buf, outer.value.1, true);
    if inner.None? { return Malformed; }
    claimed := claimed + 4;
    if inner.value.0 != DUPLICATE_UNIQUE_INDEX_VARIANT {
      return OtherConsensusError(outer.value.0, Some(inner.value.0));
    }
    r := DecodeBody(buf, inner.value.1, claimed, utf8);
  }

  // ---------- the layout, independently of any limit ----------

  predicate ItemOk(x: Item) {
    VarintForm(x.form, Size(x), false)
  }

  predicate ItemsOk(items: seq<Item>) {
    forall x :: x in items ==> ItemOk(x)
  }

  function Flat(items: seq<Item>): seq<Byte> {
    if |items| == 0 then [] else items[0].form + (items[0].name.bytes + Flat(items[1..]))
  }

  function Layout(outer: seq<Byte>, inner: seq<Byte>, id: seq<Byte>, count: seq<Byte>, items: seq<Item>): seq<Byte> {
    outer + (inner + (id + (count + Flat(items))))
  }

  predicate LayoutOf(b: seq<Byte>, id: seq<Byte>, outer: seq<Byte>, inner: seq<Byte>, count: seq<Byte>,
                     items: seq<Item>)
  {
    && VarintForm(outer, STATE_ERROR_VARIANT, true) && VarintForm(inner, DUPLICATE_UNIQUE_INDEX_VARIANT, true)
    && |id| == 32 && VarintForm(count, |items|, false) && ItemsOk(items)
    && b == Layout(outer, inner, id, count, items)
  }

  // b is a complete duplicate-index payload for this id and these names, in any varint forms.
  ghost predicate IsPayload(b: seq<Byte>, id: seq<Byte>, names: seq<Name>) {
    exists outer, inner, count, items :: LayoutOf(b, id, outer, inner, count, items) && Names(items) == names
  }

  function NameClaims(names: seq<Name>): nat {
    if |names| == 0 then 0 else NameClaims(names[..|names| - 1]) + 8 + |names[|names| - 1].bytes|
  }

  // The pinned limit: the list claim, and after every name the running claim, stay within 2000.
  predicate WithinLimit(names: seq<Name>) {
    var n := |names|;
    && 48 + 24 * n <= DECODE_LIMIT
    && forall k :: 1 <= k <= n ==> 48 + 24 * (n - k) + NameClaims(names[..k]) <= DECODE_LIMIT
  }

  // The same running claim, name by name from `claim`.
  predicate Fits(names: seq<Name>, claim: int) {
    |names| == 0 || (claim - 16 + |names[0].bytes| <= DECODE_LIMIT && Fits(names[1..], claim - 16 + |names[0].bytes|))
  }

  lemma {:induction false} NameClaimsFront(names: seq<Name>)
    requires |names| > 0
    ensures NameClaims(names) == 8 + |names[0].bytes| + NameClaims(names[1..])
  {
    var k := |names| - 1;
    if k > 0 {
      NameClaimsFront(names[..k]);
      assert names[..k][1..] == names[1..][..k - 1];
    }
  }

  lemma {:induction false} FitsIsRunningClaim(names: seq<Name>, claim: int)
    ensures Fits(names, claim) <==>
      forall k :: 1 <= k <= |names| ==> claim - 24 * k + NameClaims(names[..k]) <= DECODE_LIMIT
  {
    if |names| > 0 {
      var next := claim - 16 + |names[0].bytes|;
      FitsIsRunningClaim(names[1..], next);
      forall k | 1 <= k <= |names|
        ensures claim - 24 * k + NameClaims(names[..k]) == next - 24 * (k - 1) + NameClaims(names[1..][..k - 1])
      {
        NameClaimsFront(names[..k]);
        assert names[..k][1..] == names[1..][..k - 1];
      }
      assert NameClaims(names[1..][..0]) == 0;
      if Fits(names, claim) {
        forall k | 1 <= k <= |names| ensures claim - 24 * k + NameClaims(names[..k]) <= DECODE_LIMIT {
          if k > 1 { assert next - 24 * (k - 1) + NameClaims(names[1..][..k - 1]) <= DECODE_LIMIT; }
        }
      } else if next <= DECODE_LIMIT {
        var k :| 1 <= k <= |names[1..]| && next - 24 * k + NameClaims(names[1..][..k]) > DECODE_LIMIT;
        assert claim - 24 * (k + 1) + NameClaims(names[..k + 1]) > DECODE_LIMIT;
      } else {
        assert claim - 24 * 1 + NameClaims(names[..1]) > DECODE_LIMIT;
      }
    }
  }

  lemma LimitIsFits(names: seq<Name>)
    ensures WithinLimit(names) <==> 48 + 24 * |names| <= DECODE_LIMIT && Fits(names, 48 + 24 * |names|)
  {
    hide NameClaims, Fits;
    FitsIsRunningClaim(names, 48 + 24 * |names|);
  }

  predicate AllUtf8(names: seq<Name>, utf8: Name -> bool) {
    forall x :: x in names ==> utf8(x)
  }

  // Every name is valid and fits when its turn comes.
  predicate Readable(items: seq<Item>, claim: int, utf8: Name -> bool) {
    |items| == 0
    || (utf8(items[0].name) && claim - 16 + Size(items[0]) <= DECODE_LIMIT
        && Readable(items[1..], claim - 16 + Size(items[0]), utf8))
  }

  lemma {:induction false} ReadableMeans(items: seq<Item>, claim: int, utf8: Name -> bool)
    ensures Readable(items, claim, utf8) <==> AllUtf8(Names(items), utf8) && Fits(Names(items), claim)
  {
    if |items| > 0 {
      ReadableMeans(items[1..], claim - 16 + Size(items[0]), utf8);
      var x, next := items[0].name, claim - 16 + Size(items[0]);
      assert Readable(items, claim, utf8) <==> utf8(x) && next <= DECODE_LIMIT && Readable(items[1..], next, utf8);
      assert next == claim - 16 + |x.bytes|;
      hide *;
      NamesFront(items);
      AllUtf8Front(x, Names(items[1..]), utf8);
      FitsFront(x, Names(items[1..]), claim);
    }
  }

  lemma NamesFront(items: seq<Item>)
    requires |items| > 0
    ensures Names(items) == [items[0].name] + Names(items[1..])
  {
  }

  lemma FitsFront(x: Name, names: seq<Name>, claim: int)
    ensures var next := claim - 16 + |x.bytes|;
      Fits([x] + names, claim) <==> next <= DECODE_LIMIT && Fits(names, next)
  {
    assert ([x] + names)[1..] == names;
  }

  lemma AllUtf8Front(x: Name, names: seq<Name>, utf8: Name -> bool)
    ensures AllUtf8([x] + names, utf8) <==> utf8(x) && AllUtf8(names, utf8)
  {
    assert forall y :: y in [x] + names <==> y == x || y in names;
  }

  lemma ItemReads(x: Item, claim: int, utf8: Name -> bool, tail: seq<Byte>)
    requires ItemOk(x)
    ensures TakeItem(x.form + (x.name.bytes + tail), claim, utf8) ==
      if utf8(x.name) && claim - 16 + Size(x) <= DECODE_LIMIT then Some((x, tail, claim - 16 + Size(x))) else None
  {
    var s1 := x.name.bytes + tail;
    var s := x.form + s1;
    VarintReads(x.form, Size(x), false, s1);
    assert s1[..Size(x)] == x.name.bytes && s1[Size(x)..] == tail;
    assert s[..|s| - |s1|] == x.form;
  }

  lemma TakeItemsStep(s: seq<Byte>, n: nat, claim: int, utf8: Name -> bool, done: seq<Item>)
    requires n > 0
    ensures var r, all := TakeItem(s, claim, utf8), TakeItems(s, n, claim, utf8, done);
      if r.None? then all.None?
      else all == TakeItems(r.value.1, n - 1, r.value.2, utf8, done + [r.value.0])
  {
  }

  lemma TakeItemsDone(s: seq<Byte>, claim: int, utf8: Name -> bool, done: seq<Item>)
    ensures TakeItems(s, 0, claim, utf8, done) == Some((done, s))
  {
  }

  predicate FirstFits(items: seq<Item>, claim: int, utf8: Name -> bool)
    requires |items| > 0
  {
    utf8(items[0].name) && claim - 16 + Size(items[0]) <= DECODE_LIMIT
  }

  // The first item is read, or refused by its claim or its UTF-8, before the others.
  lemma FirstItem(s: seq<Byte>, items: seq<Item>, n: nat, claim: int, utf8: Name -> bool, tail: seq<Byte>,
                  done: seq<Item>)
    requires n > 0 && |items| > 0 && ItemOk(items[0]) && s == items[0].form + (items[0].name.bytes + tail)
    ensures TakeItems(s, n, claim, utf8, done) ==
      if FirstFits(items, claim, utf8)
      then TakeItems(tail, n - 1, claim - 16 + Size(items[0]), utf8, done + [items[0]]) else None
  {
    hide TakeItem;
    ItemReads(items[0], claim, utf8, tail);
    TakeItemsStep(s, n, claim, utf8, done);
  }

  lemma {:induction false} ItemsRead(s: seq<Byte>, items: seq<Item>, n: nat, claim: int, utf8: Name -> bool,
                                     rest: seq<Byte>, done: seq<Item>)
    requires ItemsOk(items) && n == |items| && s == Flat(items) + rest
    ensures TakeItems(s, n, claim, utf8, done) ==
      if Readable(items, claim, utf8) then Some((done + items, rest)) else None
    decreases n
  {
    hide TakeItem;
    if n == 0 {
      assert s == rest && done + items == done;
    } else {
      var tail := Flat(items[1..]) + rest;
      assert s == items[0].form + (items[0].name.bytes + tail);
      FirstItem(s, items, n, claim, utf8, tail, done);
      if FirstFits(items, claim, utf8) {
        ItemsRead(tail, items[1..], n - 1, claim - 16 + Size(items[0]), utf8, rest, done + [items[0]]);
        assert (done + [items[0]]) + items[1..] == done + items;
      }
    }
  }

  lemma ItemSound(s: seq<Byte>, claim: int, utf8: Name -> bool)
    requires TakeItem(s, claim, utf8).Some?
    ensures var (x, rest, _) := TakeItem(s, claim, utf8).value;
      ItemOk(x) && s == x.form + (x.name.bytes + rest)
  {
    var form := VarintRead(s, false);
    var (len, s1) := TakeVarint(s, false).value;
    assert s[..|s| - |s1|] == form;
    assert s1 == s1[..len] + s1[len..];
  }

  lemma {:induction false} ItemsSound(s: seq<Byte>, n: nat, claim: int, utf8: Name -> bool, done: seq<Item>)
    returns (items: seq<Item>)
    requires TakeItems(s, n, claim, utf8, done).Some?
    ensures |items| == n && ItemsOk(items)
    ensures TakeItems(s, n, claim, utf8, done).value.0 == done + items
    ensures s == Flat(items) + TakeItems(s, n, claim, utf8, done).value.1
    decreases n
  {
    hide TakeItem;
    if n == 0 {
      items := [];
      assert [] + s == s && done + [] == done;
    } else {
      ItemSound(s, claim, utf8);
      TakeItemsStep(s, n, claim, utf8, done);
      var (x, s1, claim') := TakeItem(s, claim, utf8).value;
      var more := ItemsSound(s1, n - 1, claim', utf8, done + [x]);
      items := [x] + more;
      ItemsJoin(done, x, more, s, s1, TakeItems(s1, n - 1, claim', utf8, done + [x]).value.1);
    }
  }

  lemma ItemsJoin(done: seq<Item>, x: Item, more: seq<Item>, s: seq<Byte>, s1: seq<Byte>, rest: seq<Byte>)
    requires ItemOk(x) && ItemsOk(more)
    requires s == x.form + (x.name.bytes + s1) && s1 == Flat(more) + rest
    ensures (done + [x]) + more == done + ([x] + more)
    ensures ItemsOk([x] + more) && s == Flat([x] + more) + rest
  {
    assert ([x] + more)[1..] == more;
  }

  lemma {:induction false} FlatLong(items: seq<Item>)
    requires ItemsOk(items)
    ensures |Flat(items)| >= |items|
  {
    if |items| > 0 {
      assert ItemOk(items[0]);
      FlatLong(items[1..]);
    }
  }

  lemma BodyReads(id: seq<Byte>, count: seq<Byte>, n: nat, s1: seq<Byte>, utf8: Name -> bool)
    requires |id| == 32 && VarintForm(count, n, false) && n <= |s1|
    ensures var r := TakeItems(s1, n, 48 + 24 * n, utf8, []);
      Body(id + (count + s1), utf8) ==
        if 48 + 24 * n <= DECODE_LIMIT && r.Some? && r.value.1 == []
        then DuplicateUniqueIndex(id, Names(r.value.0)) else Malformed
  {
    var s := id + (count + s1);
    assert s[..32] == id && s[32..] == count + s1;
    VarintReads(count, n, false, s1);
  }

  lemma HeadReads(outer: seq<Byte>, inner: seq<Byte>, s: seq<Byte>, utf8: Name -> bool)
    requires VarintForm(outer, STATE_ERROR_VARIANT, true) && VarintForm(inner, DUPLICATE_UNIQUE_INDEX_VARIANT, true)
    ensures Decode(outer + (inner + s), utf8) == Body(s, utf8)
  {
    VarintReads(outer, STATE_ERROR_VARIANT, true, inner + s);
    VarintReads(inner, DUPLICATE_UNIQUE_INDEX_VARIANT, true, s);
  }

  // Reading a complete payload followed by anything: the early count test never decides,
  // only the limit, the names' UTF-8 and the absence of trailing bytes do.
  lemma PayloadDecodes(b: seq<Byte>, id: seq<Byte>, utf8: Name -> bool, rest: seq<Byte>,
                       outer: seq<Byte>, inner: seq<Byte>, count: seq<Byte>, items: seq<Item>)
    requires LayoutOf(b, id, outer, inner, count, items)
    ensures Decode(b + rest, utf8) ==
      if AllUtf8(Names(items), utf8) && WithinLimit(Names(items)) && rest == []
      then DuplicateUniqueIndex(id, Names(items)) else Malformed
  {
    hide Body, Decode, Flat;
    var s2 := id + (count + (Flat(items) + rest));
    assert b + rest == outer + (inner + s2);
    HeadReads(outer, inner, s2, utf8);
    BodyOutcome(id, utf8, rest, count, items);
    ReadableMeans(items, 48 + 24 * |items|, utf8);
    LimitIsFits(Names(items));
  }

  lemma BodyOutcome(id: seq<Byte>, utf8: Name -> bool, rest: seq<Byte>, count: seq<Byte>, items: seq<Item>)
    requires |id| == 32 && VarintForm(count, |items|, false) && ItemsOk(items)
    ensures Body(id + (count + (Flat(items) + rest)), utf8) ==
      if 48 + 24 * |items| <= DECODE_LIMIT && Readable(items, 48 + 24 * |items|, utf8) && rest == []
      then DuplicateUniqueIndex(id, Names(items)) else Malformed
  {
    hide *;
    var s := Flat(items) + rest;
    FlatLong(items);
    BodyReads(id, count, |items|, s, utf8);
    ItemsRead(s, items, |items|, 48 + 24 * |items|, utf8, rest, []);
    assert [] + items == items;
  }

  lemma AcceptedIsPayload(b: seq<Byte>, id: seq<Byte>, names: seq<Name>, utf8: Name -> bool)
    returns (outer: seq<Byte>, inner: seq<Byte>, count: seq<Byte>, items: seq<Item>)
    requires Decode(b, utf8) == DuplicateUniqueIndex(id, names)
    ensures LayoutOf(b, id, outer, inner, count, items) && Names(items) == names
  {
    outer := VarintRead(b, true);
    var s1 := TakeVarint(b, true).value.1;
    inner := VarintRead(s1, true);
    var s2 := TakeVarint(s1, true).value.1;
    count, items := BodySound(s2, id, names, utf8);
  }

  lemma BodySound(s: seq<Byte>, id: seq<Byte>, names: seq<Name>, utf8: Name -> bool)
    returns (count: seq<Byte>, items: seq<Item>)
    requires Body(s, utf8) == DuplicateUniqueIndex(id, names)
    ensures |id| == 32 && VarintForm(count, |items|, false) && ItemsOk(items) && Names(items) == names
    ensures s == id + (count + Flat(items))
  {
    hide *;
    BodyUnfolds(s, utf8);
    count := VarintRead(s[32..], false);
    var (n, s1) := TakeVarint(s[32..], false).value;
    items := ItemsSound(s1, n, 48 + RUST_STRING_BYTES * n, utf8, []);
    JoinBody(s[..32], s[32..], count, s1, items);
    assert [] + items == items && s == s[..32] + s[32..];
  }

  lemma JoinBody(id: seq<Byte>, tail: seq<Byte>, count: seq<Byte>, s1: seq<Byte>, items: seq<Item>)
    requires tail == count + s1 && s1 == Flat(items) + []
    ensures id + tail == id + (count + Flat(items))
  {
    hide Flat;
    assert Flat(items) + [] == Flat(items);
  }

  // A payload is accepted as the duplicate-index error exactly when it is a complete
  // payload whose running claims stay within the limit and whose names are UTF-8.
  lemma AcceptedExactly(b: seq<Byte>, id: seq<Byte>, names: seq<Name>, utf8: Name -> bool)
    ensures Decode(b, utf8) == DuplicateUniqueIndex(id, names) <==>
      IsPayload(b, id, names) && WithinLimit(names) && AllUtf8(names, utf8)
  {
    assert b + [] == b;
    if IsPayload(b, id, names) {
      var outer, inner, count, items :| LayoutOf(b, id, outer, inner, count, items) && Names(items) == names;
      PayloadDecodes(b, id, utf8, [], outer, inner, count, items);
    }
    if Decode(b, utf8) == DuplicateUniqueIndex(id, names) {
      var outer, inner, count, items := AcceptedIsPayload(b, id, names, utf8);
      PayloadDecodes(b, id, utf8, [], outer, inner, count, items);
    }
  }

  // No accepted payload is a proper prefix of another: anything after it is refused.
  lemma NothingFollows(b: seq<Byte>, more: seq<Byte>, utf8: Name -> bool)
    requires Decode(b, utf8).DuplicateUniqueIndex? && more != []
    ensures Decode(b + more, utf8) == Malformed
  {
    var id, names := Decode(b, utf8).documentId, Decode(b, utf8).names;
    var outer, inner, count, items := AcceptedIsPayload(b, id, names, utf8);
    PayloadDecodes(b, id, utf8, more, outer, inner, count, items);
  }

  // ---------- the encoder's minimal forms ----------

  function Varint(n: nat): seq<Byte> {
    if n < 251 then [n]
    else if n < 0x1_0000 then [251] + BE(n, 2)
    else if n < 0x1_0000_0000 then [252] + BE(n, 4)
    else [253] + BE(n, 8)
  }

  lemma VarintIsForm(n: nat, u32: bool)
    requires n <= MAX_SAFE && (u32 ==> n < 0x1_0000_0000)
    ensures VarintForm(Varint(n), n, u32)
  {
    PowWidths();
    if n >= 251 {
      var w := if n < 0x1_0000 then 2 else if n < 0x1_0000_0000 then 4 else 8;
      FromBEOfBE(n, w);
      assert Varint(n)[1..] == BE(n, w);
    }
  }

  function MinimalItems(names: seq<Name>): (r: seq<Item>)
    ensures |r| == |names|
    ensures forall i :: 0 <= i < |names| ==> r[i] == Item(Varint(|names[i].bytes|), names[i])
  {
    seq(|names|, i requires 0 <= i < |names| => Item(Varint(|names[i].bytes|), names[i]))
  }

  function Encode(id: seq<Byte>, names: seq<Name>): seq<Byte> {
    Layout(Varint(STATE_ERROR_VARIANT), Varint(DUPLICATE_UNIQUE_INDEX_VARIANT), id, Varint(|names|),
           MinimalItems(names))
  }

  // Encoding an error and decoding it gives it back, exactly within the limit.
  lemma EncodeDecodes(id: seq<Byte>, names: seq<Name>, utf8: Name -> bool)
    requires |id| == 32 && |names| <= MAX_SAFE && forall x :: x in names ==> |x.bytes| <= MAX_SAFE
    ensures Decode(Encode(id, names), utf8) ==
      if AllUtf8(names, utf8) && WithinLimit(names) then DuplicateUniqueIndex(id, names) else Malformed
  {
    var b, items := Encode(id, names), MinimalItems(names);
    VarintIsForm(STATE_ERROR_VARIANT, true);
    VarintIsForm(DUPLICATE_UNIQUE_INDEX_VARIANT, true);
    VarintIsForm(|names|, false);
    forall x | x in items ensures ItemOk(x) {
      var i :| 0 <= i < |items| && items[i] == x;
      VarintIsForm(|names[i].bytes|, false);
    }
    assert Names(items) == names && b + [] == b;
    PayloadDecodes(b, id, utf8, [], Varint(STATE_ERROR_VARIANT), Varint(DUPLICATE_UNIQUE_INDEX_VARIANT),
                   Varint(|names|), items);
  }

  // ---------- the other errors ----------

  // The bytes begin with a reading of the outer index v.
  ghost predicate Begins(b: seq<Byte>, v: nat, rest: seq<Byte>) {
    exists form :: b == form + rest && VarintForm(form, v, true)
  }

  lemma BeginsIff(b: seq<Byte>, v: nat, rest: seq<Byte>)
    ensures Begins(b, v, rest) <==> TakeVarint(b, true) == Some((v, rest))
  {
    if Begins(b, v, rest) {
      var form :| b == form + rest && VarintForm(form, v, true);
      VarintReads(form, v, true, rest);
    }
    if TakeVarint(b, true) == Some((v, rest)) {
      var form := VarintRead(b, true);
      assert b == form + rest;
    }
  }

  // An error outside the state errors is named by its index alone, a state error other than
  // the duplicate index by both, and nothing after the indices is read.
  lemma OtherErrorsMean(b: seq<Byte>, utf8: Name -> bool, v: nat, w: nat)
    ensures Decode(b, utf8) == OtherConsensusError(v, None) <==>
      v < 5 && v != 2 && exists rest :: Begins(b, v, rest)
    ensures Decode(b, utf8) == OtherConsensusError(v, Some(w)) <==>
      v == 2 && w != 14 && exists s, rest :: Begins(b, 2, s) && Begins(s, w, rest)
  {
    forall s ensures !Body(s, utf8).OtherConsensusError? {}
    hide Begins, TakeVarint, Body;
    forall x: nat, rest ensures Begins(b, x, rest) <==> TakeVarint(b, true) == Some((x, rest)) {
      BeginsIff(b, x, rest);
    }
    if TakeVarint(b, true).Some? {
      var s := TakeVarint(b, true).value.1;
      forall x: nat, rest ensures Begins(s, x, rest) <==> TakeVarint(s, true) == Some((x, rest)) {
        BeginsIff(s, x, rest);
      }
      assert Begins(b, TakeVarint(b, true).value.0, s);
      if TakeVarint(s, true).Some? { assert Begins(s, TakeVarint(s, true).value.0, TakeVarint(s, true).value.1); }
    }
  }
}
