/**
 The checkpoint v2 payload: the signed carrier of an epoch's books and bindings
 (check_vectors.py).  The layout is fixed-width little-endian with counted, strictly
 ascending tables and no trailing bytes.  The 32-byte domain tag is a digest and enters
 as a parameter.
 */
module CheckpointV2 {
  import opened Outcomes
  import opened Bytes
  import Base58

  const VERSION := 2
  const MAX_BINDINGS := 512
  const MAX_BOOKS := 4096
  const MAX_SLOTS := 512
  const MAX_PAYLOAD_BYTES := 0x10_0000

  datatype Share = Share(num: nat, den: nat)

  datatype Book = Book(
    contractId: seq<Byte>, poolId: seq<Byte>, operatorId: seq<Byte>, slotCount: nat, shares: seq<Share>)

  datatype Binding = Binding(
    proTxHash: seq<Byte>, slotIndex: nat, contractId: seq<Byte>, poolId: seq<Byte>, activation: nat)

  datatype Payload = Payload(
    epochId: nat, effective: nat, endExclusive: nat, books: seq<Book>, bindings: seq<Binding>)

  // ---------- sort keys ----------

  type SortKey = (seq<int>, seq<int>)

  function BookKey(b: Book): SortKey {
    (b.contractId, b.poolId)
  }

  function BindingKey(b: Binding): SortKey {
    (b.proTxHash, [b.slotIndex])
  }

  predicate KeyLess(a: SortKey, b: SortKey) {
    LexLess(a.0, b.0) || (a.0 == b.0 && LexLess(a.1, b.1))
  }

  lemma KeyOrder(a: SortKey, b: SortKey)
    ensures KeyLess(a, b) || a == b || KeyLess(b, a)
    ensures !(KeyLess(a, b) && KeyLess(b, a)) && !KeyLess(a, a)
  {
    LexTotal(a.0, b.0);
    LexTotal(a.1, b.1);
    LexAsymmetric(a.0, b.0);
    LexAsymmetric(a.1, b.1);
    LexAsymmetric(a.0, a.0);
    LexAsymmetric(a.1, a.1);
  }

  lemma KeyTransitive(a: SortKey, b: SortKey, c: SortKey)
    requires KeyLess(a, b) && KeyLess(b, c)
    ensures KeyLess(a, c)
  {
    LexAsymmetric(a.0, a.0);
    if LexLess(a.0, b.0) && LexLess(b.0, c.0) { LexTransitive(a.0, b.0, c.0); }
    if a.0 == b.0 == c.0 { LexTransitive(a.1, b.1, c.1); }
  }

  predicate Ascending<T>(s: seq<T>, key: T -> SortKey) {
    forall i, j :: 0 <= i < j < |s| ==> KeyLess(key(s[i]), key(s[j]))
  }

  predicate DistinctKeys<T>(s: seq<T>, key: T -> SortKey) {
    forall i, j :: 0 <= i < j < |s| ==> key(s[i]) != key(s[j])
  }

  // ---------- the layout ----------

  function Concat<T>(s: seq<T>, enc: T -> seq<Byte>): seq<Byte> {
    if |s| == 0 then [] else enc(s[0]) + Concat(s[1..], enc)
  }

  lemma {:induction false} ConcatAppend<T>(s: seq<T>, x: T, enc: T -> seq<Byte>)
    ensures Concat(s + [x], enc) == Concat(s, enc) + enc(x)
  {
    if |s| == 0 {
      assert (s + [x])[1..] == [];
    } else {
      ConcatAppend(s[1..], x, enc);
      assert (s + [x])[1..] == s[1..] + [x];
    }
  }

  function EncShare(s: Share): seq<Byte> {
    LE(s.num, 8) + LE(s.den, 8)
  }

  function EncBook(b: Book): seq<Byte> {
    b.contractId + (b.poolId + (b.operatorId + (LE(b.slotCount, 2) + Concat(b.shares, EncShare))))
  }

  function EncBinding(b: Binding): seq<Byte> {
    b.proTxHash + (LE(b.slotIndex, 1) + (b.contractId + (b.poolId + LE(b.activation, 8))))
  }

  function EncHeader(p: Payload, tag: seq<Byte>): seq<Byte> {
    LE(VERSION, 4) + (tag + (LE(p.epochId, 8) + (LE(p.effective, 8) + (LE(p.endExclusive, 8) +
      (LE(|p.bindings|, 2) + LE(|p.books|, 2))))))
  }

  // The payload with its tables in the order given.
  function Encode(p: Payload, tag: seq<Byte>): seq<Byte> {
    EncHeader(p, tag) + (Concat(p.books, EncBook) + Concat(p.bindings, EncBinding))
  }

  predicate Id(b: seq<Byte>) {
    |b| == 32
  }

  predicate ShareOk(s: Share) {
    s.num <= MAX_SAFE && s.den <= MAX_SAFE
  }

  predicate BookOk(b: Book) {
    && Id(b.contractId) && Id(b.poolId) && Id(b.operatorId)
    && 1 <= b.slotCount <= MAX_SLOTS && |b.shares| == b.slotCount
    && forall i :: 0 <= i < |b.shares| ==> ShareOk(b.shares[i])
  }

  predicate BindingOk(b: Binding) {
    Id(b.proTxHash) && b.slotIndex < 256 && Id(b.contractId) && Id(b.poolId) && b.activation < Pow(256, 8)
  }

  predicate FieldsOk(p: Payload) {
    && p.effective < p.endExclusive
    && p.epochId <= MAX_SAFE && p.effective <= MAX_SAFE && p.endExclusive <= MAX_SAFE
    && |p.bindings| <= MAX_BINDINGS && |p.books| <= MAX_BOOKS
    && (forall i :: 0 <= i < |p.books| ==> BookOk(p.books[i]))
    && (forall i :: 0 <= i < |p.bindings| ==> BindingOk(p.bindings[i]))
  }

  // The payloads the format carries: fields in range, tables strictly ascending, size in bounds.
  predicate Canonical(p: Payload, tag: seq<Byte>) {
    && FieldsOk(p)
    && Ascending(p.books, BookKey) && Ascending(p.bindings, BindingKey)
    && |Encode(p, tag)| <= MAX_PAYLOAD_BYTES
  }

  // ---------- building ----------

  predicate Sorted<T>(s: seq<T>, key: T -> SortKey) {
    forall i, j :: 0 <= i < j < |s| ==> !KeyLess(key(s[j]), key(s[i]))
  }

  lemma InsertSorted<T>(t: seq<T>, x: T, p: nat, key: T -> SortKey)
    requires Sorted(t, key) && p <= |t|
    requires forall i :: 0 <= i < p ==> !KeyLess(key(x), key(t[i]))
    requires forall i :: p <= i < |t| ==> !KeyLess(key(t[i]), key(x))
    ensures Sorted(t[..p] + [x] + t[p..], key)
    ensures multiset(t[..p] + [x] + t[p..]) == multiset(t) + multiset{x}
  {
    assert t == t[..p] + t[p..];
    var u := t[..p] + [x] + t[p..];
    forall i, j | 0 <= i < j < |u| ensures !KeyLess(key(u[j]), key(u[i])) {
      var i', j' := if i < p then i else i - 1, if j < p then j else j - 1;
      if i != p && j != p { assert !KeyLess(key(t[j']), key(t[i'])); }
    }
  }

  lemma NotLessChain(a: SortKey, b: SortKey, c: SortKey)
    requires !KeyLess(b, a) && !KeyLess(c, b)
    ensures !KeyLess(c, a)
  {
    KeyOrder(a, b);
    KeyOrder(b, c);
    if KeyLess(c, a) {
      if KeyLess(a, b) { KeyTransitive(c, a, b); }
    }
  }

  // sorted(..., key=...), stable.
  method SortByKey<T>(s: seq<T>, key: T -> SortKey) returns (t: seq<T>)
    ensures Sorted(t, key) && multiset(t) == multiset(s)
  {
    t := [];
    for k := 0 to |s|
      invariant Sorted(t, key) && multiset(t) == multiset(s[..k])
    {
      var p := |t|;
      while p > 0 && KeyLess(key(s[k]), key(t[p - 1]))
        invariant 0 <= p <= |t|
        invariant forall i :: p <= i < |t| ==> !KeyLess(key(t[i]), key(s[k]))
      {
        KeyOrder(key(s[k]), key(t[p - 1]));
        p := p - 1;
      }
      forall i | 0 <= i < p ensures !KeyLess(key(s[k]), key(t[i])) {
        if i < p - 1 { NotLessChain(key(t[i]), key(t[p - 1]), key(s[k])); }
      }
      InsertSorted(t, s[k], p, key);
      t := t[..p] + [s[k]] + t[p..];
      assert s[..k + 1] == s[..k] + [s[k]];
    }
    assert s[..|s|] == s;
  }

  // Fields struct.pack and bytes([...]) can hold; outside them the builder raises.
  predicate Packable(p: Payload) {
    && p.epochId < Pow(256, 8) && p.effective < Pow(256, 8) && p.endExclusive < Pow(256, 8)
    && |p.bindings| < Pow(256, 2) && |p.books| < Pow(256, 2)
    && (forall i :: 0 <= i < |p.books| ==> BookPackable(p.books[i]))
    && (forall i :: 0 <= i < |p.bindings| ==>
         p.bindings[i].slotIndex < 256 && p.bindings[i].activation < Pow(256, 8))
  }

  predicate BookPackable(b: Book) {
    b.slotCount < Pow(256, 2)
    && forall j :: 0 <= j < |b.shares| ==> b.shares[j].num < Pow(256, 8) && b.shares[j].den < Pow(256, 8)
  }

  // q is p with its tables sorted.
  ghost predicate Arranges(p: Payload, q: Payload) {
    && q.epochId == p.epochId && q.effective == p.effective && q.endExclusive == p.endExclusive
    && multiset(q.books) == multiset(p.books) && multiset(q.bindings) == multiset(p.bindings)
    && |q.books| == |p.books| && |q.bindings| == |p.bindings|
    && Sorted(q.books, BookKey) && Sorted(q.bindings, BindingKey)
  }

  method AppendAll<T>(start: seq<Byte>, s: seq<T>, enc: T -> seq<Byte>) returns (out: seq<Byte>)
    ensures out == start + Concat(s, enc)
  {
    out := start;
    for i := 0 to |s|
      invariant out == start + Concat(s[..i], enc)
    {
      assert s[..i + 1] == s[..i] + [s[i]];
      ConcatAppend(s[..i], s[i], enc);
      out := out + enc(s[i]);
    }
    assert s[..|s|] == s;
  }

  method Build(p: Payload, tag: seq<Byte>) returns (r: Option<seq<Byte>>)
    ensures r.Some? <==> Packable(p)
    ensures r.Some? ==> exists q :: Arranges(p, q) && r.value == Encode(q, tag)
  {
    hide *;
    if !Packable(p) { return None; }
    var books := SortByKey(p.books, BookKey);
    var bindings := SortByKey(p.bindings, BindingKey);
    SameSize(books, p.books);
    SameSize(bindings, p.bindings);
    var out := EncHeader(p, tag);
    out := AppendAll(out, books, EncBook);
    out := AppendAll(out, bindings, EncBinding);
    ghost var q := p.(books := books, bindings := bindings);
    ArrangedEncoding(p, q, tag);
    return Some(out);
  }

  lemma ArrangedEncoding(p: Payload, q: Payload, tag: seq<Byte>)
    requires q == p.(books := q.books, bindings := q.bindings)
    requires |q.books| == |p.books| && |q.bindings| == |p.bindings|
    requires multiset(q.books) == multiset(p.books) && multiset(q.bindings) == multiset(p.bindings)
    requires Sorted(q.books, BookKey) && Sorted(q.bindings, BindingKey)
    ensures Arranges(p, q)
    ensures EncHeader(p, tag) + Concat(q.books, EncBook) + Concat(q.bindings, EncBinding) == Encode(q, tag)
  {
    hide Concat, EncBook, EncBinding, Sorted, LE;
  }

  lemma SameSize<T>(s: seq<T>, t: seq<T>)
    requires multiset(s) == multiset(t)
    ensures |s| == |t|
  {
    assert |multiset(s)| == |s| && |multiset(t)| == |t|;
  }

  // ---------- reading records ----------

  function ReadShare(s: seq<Byte>): Option<(Share, seq<Byte>)> {
    var (num, s1) :- TakeLE(s, 8);
    var (den, s2) :- TakeLE(s1, 8);
    if num > MAX_SAFE || den > MAX_SAFE then None else Some((Share(num, den), s2))
  }

  function ReadShares(s: seq<Byte>, n: nat): Option<(seq<Share>, seq<Byte>)> {
    if n == 0 then Some(([], s))
    else
      var (x, s1) :- ReadShare(s);
      var (xs, s2) :- ReadShares(s1, n - 1);
      Some(([x] + xs, s2))
  }

  predicate KeyFollows(prev: Option<SortKey>, key: SortKey) {
    prev.Some? ==> KeyLess(prev.value, key)
  }

  function ReadBook(s: seq<Byte>, prev: Option<SortKey>): Option<(Book, seq<Byte>)> {
    var (cid, s1) :- TakeBytes(s, 32);
    var (pid, s2) :- TakeBytes(s1, 32);
    if !KeyFollows(prev, (cid, pid)) then None else
    var (oid, s3) :- TakeBytes(s2, 32);
    var (sc, s4) :- TakeLE(s3, 2);
    if sc < 1 || sc > MAX_SLOTS then None else
    var (shares, s5) :- ReadShares(s4, sc);
    Some((Book(cid, pid, oid, sc, shares), s5))
  }

  function ReadBinding(s: seq<Byte>, prev: Option<SortKey>): Option<(Binding, seq<Byte>)> {
    var (ptx, s1) :- TakeBytes(s, 32);
    var (si, s2) :- TakeLE(s1, 1);
    if !KeyFollows(prev, (ptx, [si])) then None else
    var (cid, s3) :- TakeBytes(s2, 32);
    var (pid, s4) :- TakeBytes(s3, 32);
    var (act, s5) :- TakeLE(s4, 8);
    Some((Binding(ptx, si, cid, pid, act), s5))
  }

  datatype Header = Header(epochId: nat, effective: nat, endExclusive: nat, bindings: nat, books: nat)

  function ReadHeader(s: seq<Byte>, tag: seq<Byte>): Option<(Header, seq<Byte>)> {
    var (version, s1) :- TakeLE(s, 4);
    if version != VERSION then None else
    var (t, s2) :- TakeBytes(s1, 32);
    if t != tag then None else
    var (epochId, s3) :- TakeLE(s2, 8);
    var (effective, s4) :- TakeLE(s3, 8);
    var (endExclusive, s5) :- TakeLE(s4, 8);
    if effective >= endExclusive then None
    else if epochId > MAX_SAFE || effective > MAX_SAFE || endExclusive > MAX_SAFE then None else
    var (nBind, s6) :- TakeLE(s5, 2);
    if nBind > MAX_BINDINGS then None else
    var (nBook, s7) :- TakeLE(s6, 2);
    if nBook > MAX_BOOKS then None else
    Some((Header(epochId, effective, endExclusive, nBind, nBook), s7))
  }

  function ReadBooks(s: seq<Byte>, n: nat, prev: Option<SortKey>): Option<(seq<Book>, seq<Byte>)>
    decreases n
  {
    if n == 0 then Some(([], s))
    else
      var (x, s1) :- ReadBook(s, prev);
      var (xs, s2) :- ReadBooks(s1, n - 1, Some(BookKey(x)));
      Some(([x] + xs, s2))
  }

  function ReadBindings(s: seq<Byte>, n: nat, prev: Option<SortKey>): Option<(seq<Binding>, seq<Byte>)>
    decreases n
  {
    if n == 0 then Some(([], s))
    else
      var (x, s1) :- ReadBinding(s, prev);
      var (xs, s2) :- ReadBindings(s1, n - 1, Some(BindingKey(x)));
      Some(([x] + xs, s2))
  }

  function Read(b: seq<Byte>, tag: seq<Byte>): Option<Payload> {
    if |b| > MAX_PAYLOAD_BYTES then None else
    var (h, s1) :- ReadHeader(b, tag);
    var (books, s2) :- ReadBooks(s1, h.books, None);
    var (bindings, s3) :- ReadBindings(s2, h.bindings, None);
    if s3 != [] then None else Some(Payload(h.epochId, h.effective, h.endExclusive, books, bindings))
  }

  // ---------- the decoded view ----------

  datatype ShareView = ShareView(numerator: string, denominator: string)

  datatype BookView = BookView(
    contractId: string, poolId: string, operatorId: string, slotCount: nat, shares: seq<ShareView>)

  datatype BindingView = BindingView(
    proTxHash: string, slotIndex: nat, contractId: string, poolId: string, activation: nat)

  datatype View = View(
    epochId: nat, effective: nat, endExclusive: nat, books: seq<BookView>, bindings: seq<BindingView>)

  function ViewShare(s: Share): ShareView {
    ShareView(Base58.Decimal(s.num), Base58.Decimal(s.den))
  }

  function MapSeq<T, U>(s: seq<T>, f: T -> U): (r: seq<U>)
    ensures |r| == |s|
    ensures forall i :: 0 <= i < |s| ==> r[i] == f(s[i])
  {
    seq(|s|, i requires 0 <= i < |s| => f(s[i]))
  }

  lemma MapAppend<T, U>(s: seq<T>, x: T, f: T -> U)
    ensures MapSeq(s + [x], f) == MapSeq(s, f) + [f(x)]
  {
  }

  function ViewBook(b: Book): BookView {
    BookView(Base58.Encode(b.contractId), Base58.Encode(b.poolId), Base58.Encode(b.operatorId),
             b.slotCount, MapSeq(b.shares, ViewShare))
  }

  function ViewBinding(b: Binding): BindingView {
    BindingView(Base58.ReversedHex(b.proTxHash), b.slotIndex,
                Base58.Encode(b.contractId), Base58.Encode(b.poolId), b.activation)
  }

  function ViewOf(p: Payload): View {
    View(p.epochId, p.effective, p.endExclusive, MapSeq(p.books, ViewBook), MapSeq(p.bindings, ViewBinding))
  }

  datatype Rejection = Oversized | BadHeader | BadBook | BadBinding | TrailingBytes

  function PrependBooks(xs: seq<Book>, r: Option<(seq<Book>, seq<Byte>)>): Option<(seq<Book>, seq<Byte>)> {
    match r case None => None case Some((ys, s)) => Some((xs + ys, s))
  }

  function PrependBindings(xs: seq<Binding>, r: Option<(seq<Binding>, seq<Byte>)>): Option<(seq<Binding>, seq<Byte>)> {
    match r case None => None case Some((ys, s)) => Some((xs + ys, s))
  }

  lemma PrependNothing(r: Option<(seq<Book>, seq<Byte>)>, q: Option<(seq<Binding>, seq<Byte>)>)
    ensures PrependBooks([], r) == r && PrependBindings([], q) == q
  {
    assert r.Some? ==> [] + r.value.0 == r.value.0;
    assert q.Some? ==> [] + q.value.0 == q.value.0;
  }

  // Loop invariants of the two table loops: the books read so far, followed by whatever
  // the rest of the buffer still holds, are what reading the whole table gives.
  ghost predicate BooksRead(s: seq<Byte>, n: nat, done: seq<Book>, rest: seq<Byte>, left: nat, prev: Option<SortKey>) {
    ReadBooks(s, n, None) == PrependBooks(done, ReadBooks(rest, left, prev))
  }

  ghost predicate BindingsRead(s: seq<Byte>, n: nat, done: seq<Binding>, rest: seq<Byte>, left: nat,
                               prev: Option<SortKey>)
  {
    ReadBindings(s, n, None) == PrependBindings(done, ReadBindings(rest, left, prev))
  }

  lemma BookStep(s: seq<Byte>, n: nat, done: seq<Book>, rest: seq<Byte>, left: nat, prev: Option<SortKey>)
    requires left > 0 && ReadBook(rest, prev).Some? && BooksRead(s, n, done, rest, left, prev)
    ensures var b := ReadBook(rest, prev).value.0;
      BooksRead(s, n, done + [b], ReadBook(rest, prev).value.1, left - 1, Some(BookKey(b)))
  {
    var (b, after) := ReadBook(rest, prev).value;
    var tail := ReadBooks(after, left - 1, Some(BookKey(b)));
    if tail.Some? { assert done + ([b] + tail.value.0) == (done + [b]) + tail.value.0; }
  }

  lemma BindingStep(s: seq<Byte>, n: nat, done: seq<Binding>, rest: seq<Byte>, left: nat, prev: Option<SortKey>)
    requires left > 0 && ReadBinding(rest, prev).Some? && BindingsRead(s, n, done, rest, left, prev)
    ensures var b := ReadBinding(rest, prev).value.0;
      BindingsRead(s, n, done + [b], ReadBinding(rest, prev).value.1, left - 1, Some(BindingKey(b)))
  {
    var (b, after) := ReadBinding(rest, prev).value;
    var tail := ReadBindings(after, left - 1, Some(BindingKey(b)));
    if tail.Some? { assert done + ([b] + tail.value.0) == (done + [b]) + tail.value.0; }
  }

  lemma BooksStop(s: seq<Byte>, n: nat, done: seq<Book>, rest: seq<Byte>, left: nat, prev: Option<SortKey>)
    requires left > 0 && ReadBook(rest, prev).None? && BooksRead(s, n, done, rest, left, prev)
    ensures ReadBooks(s, n, None).None?
  {
  }

  lemma BindingsStop(s: seq<Byte>, n: nat, done: seq<Binding>, rest: seq<Byte>, left: nat, prev: Option<SortKey>)
    requires left > 0 && ReadBinding(rest, prev).None? && BindingsRead(s, n, done, rest, left, prev)
    ensures ReadBindings(s, n, None).None?
  {
  }

  lemma BooksEnd(s: seq<Byte>, n: nat, done: seq<Book>, rest: seq<Byte>, prev: Option<SortKey>)
    requires BooksRead(s, n, done, rest, 0, prev)
    ensures ReadBooks(s, n, None) == Some((done, rest))
  {
    assert done + [] == done;
  }

  lemma BindingsEnd(s: seq<Byte>, n: nat, done: seq<Binding>, rest: seq<Byte>, prev: Option<SortKey>)
    requires BindingsRead(s, n, done, rest, 0, prev)
    ensures ReadBindings(s, n, None) == Some((done, rest))
  {
    assert done + [] == done;
  }

  // _decode_v2: one record at a time, each rendered and appended, the offset advanced
  // past it; `rest` is the buffer from the offset on.
  lemma NothingRead(s: seq<Byte>, n: nat)
    ensures BooksRead(s, n, [], s, n, None) && BindingsRead(s, n, [], s, n, None)
    ensures MapSeq([], ViewBook) == [] && MapSeq([], ViewBinding) == []
  {
    PrependNothing(ReadBooks(s, n, None), ReadBindings(s, n, None));
  }

  method DecodeBooks(s: seq<Byte>, n: nat) returns (r: Option<(seq<BookView>, seq<Byte>)>, ghost books: seq<Book>)
    ensures r.Some? <==> ReadBooks(s, n, None).Some?
    ensures r.Some? ==> ReadBooks(s, n, None) == Some((books, r.value.1)) && r.value.0 == MapSeq(books, ViewBook)
  {
    hide *;
    var rest, prev: Option<SortKey>, views: seq<BookView> := s, None, [];
    books := [];
    NothingRead(s, n);
    for i := 0 to n
      invariant BooksRead(s, n, books, rest, n - i, prev)
      invariant views == MapSeq(books, ViewBook)
    {
      var x := ReadBook(rest, prev);
      if x.None? { BooksStop(s, n, books, rest, n - i, prev); return None, books; }
      var book := x.value.0;
      BookStep(s, n, books, rest, n - i, prev);
      MapAppend(books, book, ViewBook);
      views, books := views + [ViewBook(book)], books + [book];
      rest, prev := x.value.1, Some(BookKey(book));
    }
    BooksEnd(s, n, books, rest, prev);
    return Some((views, rest)), books;
  }

  method DecodeBindings(s: seq<Byte>, n: nat)
    returns (r: Option<(seq<BindingView>, seq<Byte>)>, ghost bindings: seq<Binding>)
    ensures r.Some? <==> ReadBindings(s, n, None).Some?
    ensures r.Some? ==>
      ReadBindings(s, n, None) == Some((bindings, r.value.1)) && r.value.0 == MapSeq(bindings, ViewBinding)
  {
    hide *;
    var rest, prev: Option<SortKey>, views: seq<BindingView> := s, None, [];
    bindings := [];
    NothingRead(s, n);
    for i := 0 to n
      invariant BindingsRead(s, n, bindings, rest, n - i, prev)
      invariant views == MapSeq(bindings, ViewBinding)
    {
      var x := ReadBinding(rest, prev);
      if x.None? { BindingsStop(s, n, bindings, rest, n - i, prev); return None, bindings; }
      var binding := x.value.0;
      BindingStep(s, n, bindings, rest, n - i, prev);
      MapAppend(bindings, binding, ViewBinding);
      views, bindings := views + [ViewBinding(binding)], bindings + [binding];
      rest, prev := x.value.1, Some(BindingKey(binding));
    }
    BindingsEnd(s, n, bindings, rest, prev);
    return Some((views, rest)), bindings;
  }

  method Decode(b: seq<Byte>, tag: seq<Byte>) returns (r: Result<View, Rejection>)
    ensures r.Ok? <==> Read(b, tag).Some?
    ensures r.Ok? ==> r.value == ViewOf(Read(b, tag).value)
    ensures r == Err(Oversized) <==> |b| > MAX_PAYLOAD_BYTES
    ensures r == Err(BadHeader) <==> |b| <= MAX_PAYLOAD_BYTES && ReadHeader(b, tag).None?
    ensures r.Ok? ==> RecordShows(r.value, b, tag)
  {
    if Read(b, tag).Some? { DecodedFieldsShowBytes(b, tag); }
    hide RecordShows;
    if |b| > MAX_PAYLOAD_BYTES { return Err(Oversized); }
    var header := ReadHeader(b, tag);
    if header.None? { return Err(BadHeader); }
    var (h, rest) := header.value;
    var books;
    ghost var rawBooks;
    books, rawBooks := DecodeBooks(rest, h.books);
    if books.None? { return Err(BadBook); }
    var bindings;
    ghost var rawBindings;
    bindings, rawBindings := DecodeBindings(books.value.1, h.bindings);
    if bindings.None? { return Err(BadBinding); }
    if bindings.value.1 != [] { return Err(TrailingBytes); }
    return Ok(View(h.epochId, h.effective, h.endExclusive, books.value.0, bindings.value.0));
  }

  // ---------- each record reads back as written ----------

  lemma ShareComplete(x: Share, rest: seq<Byte>)
    requires ShareOk(x)
    ensures ReadShare(EncShare(x) + rest) == Some((x, rest))
  {
    PowWidths();
    assert EncShare(x) + rest == LE(x.num, 8) + (LE(x.den, 8) + rest);
    TakeLEOf(x.num, 8, LE(x.den, 8) + rest);
    TakeLEOf(x.den, 8, rest);
  }

  lemma ShareSound(s: seq<Byte>)
    requires ReadShare(s).Some?
    ensures var (x, rest) := ReadShare(s).value; ShareOk(x) && s == EncShare(x) + rest
  {
    TakeLESound(s, 8);
    TakeLESound(s[8..], 8);
    hide LE, FromLE;
    var (x, rest) := ReadShare(s).value;
    assert s == LE(x.num, 8) + (LE(x.den, 8) + rest);
  }

  lemma {:induction false} SharesComplete(xs: seq<Share>, rest: seq<Byte>)
    requires forall i :: 0 <= i < |xs| ==> ShareOk(xs[i])
    ensures ReadShares(Concat(xs, EncShare) + rest, |xs|) == Some((xs, rest))
  {
    if |xs| == 0 {
      assert [] + rest == rest;
    } else {
      var tail := Concat(xs[1..], EncShare) + rest;
      assert Concat(xs, EncShare) + rest == EncShare(xs[0]) + tail;
      ShareComplete(xs[0], tail);
      SharesComplete(xs[1..], rest);
      assert [xs[0]] + xs[1..] == xs;
    }
  }

  lemma {:induction false} SharesSound(s: seq<Byte>, n: nat)
    requires ReadShares(s, n).Some?
    ensures var (xs, rest) := ReadShares(s, n).value;
      |xs| == n && (forall i :: 0 <= i < n ==> ShareOk(xs[i])) && s == Concat(xs, EncShare) + rest
  {
    if n == 0 {
      assert [] + s == s;
    } else {
      ShareSound(s);
      var (x, s1) := ReadShare(s).value;
      SharesSound(s1, n - 1);
      var (xs, rest) := ReadShares(s1, n - 1).value;
      assert ([x] + xs)[1..] == xs;
      hide EncShare, ReadShare, ShareOk;
      Reassociate(EncShare(x), Concat(xs, EncShare), rest);
    }
  }

  lemma BookComplete(b: Book, prev: Option<SortKey>, rest: seq<Byte>)
    requires BookOk(b) && KeyFollows(prev, BookKey(b))
    ensures ReadBook(EncBook(b) + rest, prev) == Some((b, rest))
  {
    PowWidths();
    var s4 := Concat(b.shares, EncShare) + rest;
    var s3 := LE(b.slotCount, 2) + s4;
    var s2 := b.operatorId + s3;
    var s1 := b.poolId + s2;
    assert EncBook(b) + rest == b.contractId + s1;
    TakeBytesOf(b.contractId, s1);
    TakeBytesOf(b.poolId, s2);
    TakeBytesOf(b.operatorId, s3);
    TakeLEOf(b.slotCount, 2, s4);
    SharesComplete(b.shares, rest);
  }

  lemma BookSound(s: seq<Byte>, prev: Option<SortKey>)
    requires ReadBook(s, prev).Some?
    ensures var (b, rest) := ReadBook(s, prev).value;
      BookOk(b) && KeyFollows(prev, BookKey(b)) && s == EncBook(b) + rest
  {
    var (b, rest) := ReadBook(s, prev).value;
    hide LE, FromLE, KeyLess, Concat, ReadShares;
    var s1 := s[32..];
    var s2 := s1[32..];
    var s3 := s2[32..];
    var s4 := s3[2..];
    TakeLESound(s3, 2);
    SharesSound(s4, b.slotCount);
    assert s == b.contractId + s1 && s1 == b.poolId + s2 && s2 == b.operatorId + s3;
    hide TakeBytes, TakeLE;
    JoinFive(b.contractId, b.poolId, b.operatorId, LE(b.slotCount, 2), Concat(b.shares, EncShare), rest);
  }

  lemma BindingComplete(b: Binding, prev: Option<SortKey>, rest: seq<Byte>)
    requires BindingOk(b) && KeyFollows(prev, BindingKey(b))
    ensures ReadBinding(EncBinding(b) + rest, prev) == Some((b, rest))
  {
    assert Pow(256, 1) == 256;
    var s4 := LE(b.activation, 8) + rest;
    var s3 := b.poolId + s4;
    var s2 := b.contractId + s3;
    var s1 := LE(b.slotIndex, 1) + s2;
    assert EncBinding(b) + rest == b.proTxHash + s1;
    TakeBytesOf(b.proTxHash, s1);
    TakeLEOf(b.slotIndex, 1, s2);
    TakeBytesOf(b.contractId, s3);
    TakeBytesOf(b.poolId, s4);
    TakeLEOf(b.activation, 8, rest);
  }

  lemma BindingSound(s: seq<Byte>, prev: Option<SortKey>)
    requires ReadBinding(s, prev).Some?
    ensures var (b, rest) := ReadBinding(s, prev).value;
      BindingOk(b) && KeyFollows(prev, BindingKey(b)) && s == EncBinding(b) + rest
  {
    var s1 := s[32..];
    var s3 := s1[1..][32..];
    var s4 := s3[32..];
    BindingFields(s, prev);
    var (b, rest) := ReadBinding(s, prev).value;
    assert EncBinding(b) == b.proTxHash + (LE(b.slotIndex, 1) + (b.contractId + (b.poolId + LE(b.activation, 8))));
    hide *;
    TakeLESound(s1, 1);
    TakeLESound(s4, 8);
    SplitAt(s, 32);
    SplitAt(s1[1..], 32);
    SplitAt(s3, 32);
    JoinFive(b.proTxHash, LE(b.slotIndex, 1), b.contractId, b.poolId, LE(b.activation, 8), rest);
  }

  lemma BindingFields(s: seq<Byte>, prev: Option<SortKey>)
    requires ReadBinding(s, prev).Some?
    ensures |s| >= 105
    ensures var (b, rest) := ReadBinding(s, prev).value;
      && BindingOk(b) && KeyFollows(prev, BindingKey(b))
      && b == Binding(s[..32], FromLE(s[32..][..1]), s[32..][1..][..32], s[32..][1..][32..][..32],
                      FromLE(s[32..][1..][32..][32..][..8]))
      && rest == s[32..][1..][32..][32..][8..]
  {
    assert Pow(256, 1) == 256;
    var s1 := s[32..];
    TakeLESound(s1, 1);
    TakeLESound(s1[1..][32..][32..], 8);
    hide LE, FromLE, KeyLess;
  }

  lemma SplitAt(s: seq<Byte>, k: nat)
    requires k <= |s|
    ensures s == s[..k] + s[k..]
  {
  }

  lemma JoinFive(a: seq<Byte>, b: seq<Byte>, c: seq<Byte>, d: seq<Byte>, e: seq<Byte>, rest: seq<Byte>)
    ensures a + (b + (c + (d + (e + rest)))) == a + (b + (c + (d + e))) + rest
  {
    Reassociate(d, e, rest);
    Reassociate(c, d + e, rest);
    Reassociate(b, c + (d + e), rest);
    Reassociate(a, b + (c + (d + e)), rest);
  }

  // ---------- the tables ----------

  // Strictly ascending, and above whatever came before.
  predicate AscendingAfter<T>(prev: Option<SortKey>, s: seq<T>, key: T -> SortKey)
    decreases |s|
  {
    if |s| == 0 then true
    else KeyFollows(prev, key(s[0])) && AscendingAfter(Some(key(s[0])), s[1..], key)
  }

  lemma {:induction false} AscendingTail<T>(s: seq<T>, key: T -> SortKey, prev: Option<SortKey>)
    requires Ascending(s, key) && (|s| > 0 ==> KeyFollows(prev, key(s[0])))
    ensures AscendingAfter(prev, s, key)
  {
    if |s| > 0 {
      assert |s| > 1 ==> KeyLess(key(s[0]), key(s[1]));
      AscendingTail(s[1..], key, Some(key(s[0])));
    }
  }

  lemma {:induction false} AscendingFromSteps<T>(prev: Option<SortKey>, s: seq<T>, key: T -> SortKey)
    requires AscendingAfter(prev, s, key)
    ensures Ascending(s, key)
    ensures forall i :: 0 <= i < |s| ==> KeyFollows(prev, key(s[i]))
    decreases |s|
  {
    if |s| > 0 {
      AscendingFromSteps(Some(key(s[0])), s[1..], key);
      forall i, j | 0 <= i < j < |s| ensures KeyLess(key(s[i]), key(s[j])) {
        assert s[j] == s[1..][j - 1];
        if i > 0 { assert s[i] == s[1..][i - 1]; }
      }
      forall i | 0 <= i < |s| ensures KeyFollows(prev, key(s[i])) {
        if i > 0 {
          assert s[i] == s[1..][i - 1];
          if prev.Some? { KeyTransitive(prev.value, key(s[0]), key(s[i])); }
        }
      }
    }
  }

  lemma {:induction false} BooksComplete(bs: seq<Book>, prev: Option<SortKey>, rest: seq<Byte>)
    requires AscendingAfter(prev, bs, BookKey) && forall i :: 0 <= i < |bs| ==> BookOk(bs[i])
    ensures ReadBooks(Concat(bs, EncBook) + rest, |bs|, prev) == Some((bs, rest))
    decreases |bs|
  {
    hide ReadBook, EncBook, BookOk, KeyLess;
    if |bs| == 0 {
      assert [] + rest == rest;
    } else {
      var tail := Concat(bs[1..], EncBook) + rest;
      assert Concat(bs, EncBook) + rest == EncBook(bs[0]) + tail;
      BookComplete(bs[0], prev, tail);
      BooksComplete(bs[1..], Some(BookKey(bs[0])), rest);
      assert [bs[0]] + bs[1..] == bs;
    }
  }

  lemma {:induction false} BooksSound(s: seq<Byte>, n: nat, prev: Option<SortKey>)
    requires ReadBooks(s, n, prev).Some?
    ensures var (bs, rest) := ReadBooks(s, n, prev).value;
      |bs| == n && (forall i :: 0 <= i < n ==> BookOk(bs[i])) && AscendingAfter(prev, bs, BookKey)
      && s == Concat(bs, EncBook) + rest
    decreases n
  {
    hide ReadBook, EncBook, BookOk, KeyLess;
    if n == 0 {
      assert [] + s == s;
    } else {
      BookSound(s, prev);
      var (b, s1) := ReadBook(s, prev).value;
      BooksSound(s1, n - 1, Some(BookKey(b)));
      var (bs, rest) := ReadBooks(s1, n - 1, Some(BookKey(b))).value;
      assert ([b] + bs)[1..] == bs;
      Reassociate(EncBook(b), Concat(bs, EncBook), rest);
    }
  }

  lemma {:induction false} BindingsComplete(bs: seq<Binding>, prev: Option<SortKey>, rest: seq<Byte>)
    requires AscendingAfter(prev, bs, BindingKey) && forall i :: 0 <= i < |bs| ==> BindingOk(bs[i])
    ensures ReadBindings(Concat(bs, EncBinding) + rest, |bs|, prev) == Some((bs, rest))
    decreases |bs|
  {
    hide ReadBinding, EncBinding, BindingOk, KeyLess;
    if |bs| == 0 {
      assert [] + rest == rest;
    } else {
      var tail := Concat(bs[1..], EncBinding) + rest;
      assert Concat(bs, EncBinding) + rest == EncBinding(bs[0]) + tail;
      BindingComplete(bs[0], prev, tail);
      BindingsComplete(bs[1..], Some(BindingKey(bs[0])), rest);
      assert [bs[0]] + bs[1..] == bs;
    }
  }

  lemma {:induction false} BindingsSound(s: seq<Byte>, n: nat, prev: Option<SortKey>)
    requires ReadBindings(s, n, prev).Some?
    ensures var (bs, rest) := ReadBindings(s, n, prev).value;
      |bs| == n && (forall i :: 0 <= i < n ==> BindingOk(bs[i])) && AscendingAfter(prev, bs, BindingKey)
      && s == Concat(bs, EncBinding) + rest
    decreases n
  {
    hide ReadBinding, EncBinding, BindingOk, KeyLess;
    if n == 0 {
      assert [] + s == s;
    } else {
      BindingSound(s, prev);
      var (b, s1) := ReadBinding(s, prev).value;
      BindingsSound(s1, n - 1, Some(BindingKey(b)));
      var (bs, rest) := ReadBindings(s1, n - 1, Some(BindingKey(b))).value;
      assert ([b] + bs)[1..] == bs;
      Reassociate(EncBinding(b), Concat(bs, EncBinding), rest);
    }
  }

  // ---------- the header ----------

  function HeaderOf(p: Payload): Header {
    Header(p.epochId, p.effective, p.endExclusive, |p.bindings|, |p.books|)
  }

  lemma HeaderComplete(p: Payload, tag: seq<Byte>, rest: seq<Byte>)
    requires FieldsOk(p) && |tag| == 32
    ensures ReadHeader(EncHeader(p, tag) + rest, tag) == Some((HeaderOf(p), rest))
  {
    PowWidths();
    var s6 := LE(|p.books|, 2) + rest;
    var s5 := LE(|p.bindings|, 2) + s6;
    var s4 := LE(p.endExclusive, 8) + s5;
    var s3 := LE(p.effective, 8) + s4;
    var s2 := LE(p.epochId, 8) + s3;
    var s1 := tag + s2;
    assert EncHeader(p, tag) + rest == LE(VERSION, 4) + s1;
    TakeLEOf(VERSION, 4, s1);
    TakeBytesOf(tag, s2);
    TakeLEOf(p.epochId, 8, s3);
    TakeLEOf(p.effective, 8, s4);
    TakeLEOf(p.endExclusive, 8, s5);
    TakeLEOf(|p.bindings|, 2, s6);
    TakeLEOf(|p.books|, 2, rest);
  }

  function EncHeaderFields(h: Header, tag: seq<Byte>): seq<Byte> {
    LE(VERSION, 4) + (tag + (LE(h.epochId, 8) + (LE(h.effective, 8) + (LE(h.endExclusive, 8) +
      (LE(h.bindings, 2) + LE(h.books, 2))))))
  }

  lemma HeaderSound(s: seq<Byte>, tag: seq<Byte>)
    requires ReadHeader(s, tag).Some?
    ensures var (h, rest) := ReadHeader(s, tag).value;
      && h.effective < h.endExclusive
      && h.epochId <= MAX_SAFE && h.effective <= MAX_SAFE && h.endExclusive <= MAX_SAFE
      && h.bindings <= MAX_BINDINGS && h.books <= MAX_BOOKS
      && s == EncHeaderFields(h, tag) + rest
  {
    var (h, rest) := ReadHeader(s, tag).value;
    var s1 := s[4..];
    var s2 := s1[32..];
    var s3 := s2[8..];
    var s4 := s3[8..];
    var s5 := s4[8..];
    var s6 := s5[2..];
    TakeLESound(s, 4);
    TakeLESound(s2, 8);
    TakeLESound(s3, 8);
    TakeLESound(s4, 8);
    TakeLESound(s5, 2);
    TakeLESound(s6, 2);
    assert s1 == tag + s2;
    var t6 := LE(h.books, 2);
    var t5 := LE(h.bindings, 2) + t6;
    var t4 := LE(h.endExclusive, 8) + t5;
    var t3 := LE(h.effective, 8) + t4;
    var t2 := LE(h.epochId, 8) + t3;
    Reassociate(LE(h.bindings, 2), t6, rest);
    Reassociate(LE(h.endExclusive, 8), t5, rest);
    Reassociate(LE(h.effective, 8), t4, rest);
    Reassociate(LE(h.epochId, 8), t3, rest);
    Reassociate(tag, t2, rest);
    Reassociate(LE(VERSION, 4), tag + t2, rest);
  }

  lemma Reassociate(a: seq<Byte>, b: seq<Byte>, c: seq<Byte>)
    ensures a + (b + c) == (a + b) + c
  {
  }

  // ---------- the two-way round trip ----------

  // A canonical payload reads back as itself.
  lemma ReadOfEncode(p: Payload, tag: seq<Byte>)
    requires Canonical(p, tag) && |tag| == 32
    ensures Read(Encode(p, tag), tag) == Some(p)
  {
    var bindings := Concat(p.bindings, EncBinding);
    var body := Concat(p.books, EncBook) + bindings;
    HeaderComplete(p, tag, body);
    AscendingTail(p.books, BookKey, None);
    AscendingTail(p.bindings, BindingKey, None);
    BooksComplete(p.books, None, bindings);
    BindingsComplete(p.bindings, None, []);
    assert bindings + [] == bindings;
  }

  // Whatever is read is canonical, and encoding it reproduces the exact input bytes.
  lemma EncodeOfRead(b: seq<Byte>, tag: seq<Byte>)
    requires Read(b, tag).Some?
    ensures Canonical(Read(b, tag).value, tag) && Encode(Read(b, tag).value, tag) == b
  {
    HeaderSound(b, tag);
    var (h, s1) := ReadHeader(b, tag).value;
    hide ReadHeader, ReadBooks, ReadBindings, Concat, EncHeaderFields, Canonical, Encode, Ascending, BookOk,
         BindingOk, AscendingAfter;
    BooksSound(s1, h.books, None);
    var (books, s2) := ReadBooks(s1, h.books, None).value;
    BindingsSound(s2, h.bindings, None);
    var (bindings, s3) := ReadBindings(s2, h.bindings, None).value;
    AscendingFromSteps(None, books, BookKey);
    AscendingFromSteps(None, bindings, BindingKey);
    Assemble(Read(b, tag).value, tag, b, s1, s2);
  }

  // The parts of an accepted payload, put together again.
  lemma Assemble(p: Payload, tag: seq<Byte>, b: seq<Byte>, s1: seq<Byte>, s2: seq<Byte>)
    requires FieldsOk(p) && Ascending(p.books, BookKey) && Ascending(p.bindings, BindingKey)
    requires |b| <= MAX_PAYLOAD_BYTES && b == EncHeaderFields(HeaderOf(p), tag) + s1
    requires s1 == Concat(p.books, EncBook) + s2 && s2 == Concat(p.bindings, EncBinding) + []
    ensures Canonical(p, tag) && Encode(p, tag) == b
  {
    assert s2 == Concat(p.bindings, EncBinding);
    assert EncHeaderFields(HeaderOf(p), tag) == EncHeader(p, tag);
  }

  // ---------- building then decoding ----------

  lemma LeastIsFirst<T>(s: seq<T>, t: seq<T>, key: T -> SortKey)
    requires Ascending(s, key) && Ascending(t, key) && multiset(s) == multiset(t)
    requires |s| > 0 && |t| > 0
    ensures s[0] == t[0]
  {
    assert s[0] in multiset(t) && t[0] in multiset(s);
    var j :| 0 <= j < |t| && t[j] == s[0];
    var i :| 0 <= i < |s| && s[i] == t[0];
    KeyOrder(key(s[0]), key(t[0]));
    forall k | 0 < k < |s| ensures KeyLess(key(s[0]), key(s[k])) {}
    forall k | 0 < k < |t| ensures KeyLess(key(t[0]), key(t[k])) {}
  }

  lemma {:induction false} AscendingUnique<T>(s: seq<T>, t: seq<T>, key: T -> SortKey)
    requires Ascending(s, key) && Ascending(t, key) && multiset(s) == multiset(t)
    ensures s == t
    decreases |s|
  {
    hide *;
    SameSize(s, t);
    if |s| > 0 {
      LeastIsFirst(s, t, key);
      TailMultiset(s);
      TailMultiset(t);
      TailAscends(s, key);
      TailAscends(t, key);
      AscendingUnique(s[1..], t[1..], key);
      SameParts(s, t);
    }
  }

  lemma SameParts<T>(s: seq<T>, t: seq<T>)
    requires |s| > 0 && |t| > 0 && s[0] == t[0] && s[1..] == t[1..]
    ensures s == t
  {
    assert s == [s[0]] + s[1..] && t == [t[0]] + t[1..];
  }

  lemma TailAscends<T>(s: seq<T>, key: T -> SortKey)
    requires Ascending(s, key) && |s| > 0
    ensures Ascending(s[1..], key)
  {
  }

  lemma TailMultiset<T>(s: seq<T>)
    requires |s| > 0
    ensures multiset(s[1..]) == multiset(s) - multiset{s[0]}
  {
    assert s == [s[0]] + s[1..];
  }

  lemma SortedDistinctAscends<T>(s: seq<T>, key: T -> SortKey)
    requires Sorted(s, key) && DistinctKeys(s, key)
    ensures Ascending(s, key)
  {
    forall i, j | 0 <= i < j < |s| ensures KeyLess(key(s[i]), key(s[j])) {
      KeyOrder(key(s[i]), key(s[j]));
    }
  }

  lemma DistinctKeysOfMultiset<T>(s: seq<T>, t: seq<T>, key: T -> SortKey)
    requires multiset(s) == multiset(t) && DistinctKeys(s, key)
    ensures DistinctKeys(t, key)
  {
    forall i, j | 0 <= i < j < |t| ensures key(t[i]) != key(t[j]) {
      if key(t[i]) == key(t[j]) {
        TwoWithOneKey(s, t, key, i, j);
      }
    }
  }

  lemma TwoWithOneKey<T>(s: seq<T>, t: seq<T>, key: T -> SortKey, i: nat, j: nat)
    requires multiset(s) == multiset(t) && i < j < |t| && key(t[i]) == key(t[j])
    ensures !DistinctKeys(s, key)
  {
    if t[i] != t[j] {
      assert t[i] in multiset(s) && t[j] in multiset(s);
      var x :| 0 <= x < |s| && s[x] == t[i];
      var y :| 0 <= y < |s| && s[y] == t[j];
      assert key(s[x]) == key(s[y]);
    } else {
      PresentTwice(t, i, j);
      var x, y := TwoPlaces(s, t[i]);
      assert key(s[x]) == key(s[y]);
    }
  }

  lemma PresentTwice<T>(t: seq<T>, i: nat, j: nat)
    requires i < j < |t| && t[i] == t[j]
    ensures multiset(t)[t[i]] >= 2
  {
    assert t == t[..j] + t[j..];
    assert t[i] in t[..j] && t[j] in t[j..];
  }

  lemma TwoPlaces<T>(s: seq<T>, e: T) returns (x: nat, y: nat)
    requires multiset(s)[e] >= 2
    ensures x < |s| && y < |s| && x != y && s[x] == e == s[y]
  {
    assert e in multiset(s);
    x :| 0 <= x < |s| && s[x] == e;
    assert s == s[..x] + [s[x]] + s[x + 1..];
    assert e in s[..x] || e in s[x + 1..];
    y :| 0 <= y < |s| && y != x && s[y] == e;
  }

  // The payload a caller may hand the builder in any table order.
  predicate Buildable(p: Payload) {
    FieldsOk(p) && DistinctKeys(p.books, BookKey) && DistinctKeys(p.bindings, BindingKey)
  }

  // Any arrangement the builder may encode decodes to that arrangement, and there is only one.
  lemma BuildThenDecode(p: Payload, q: Payload, tag: seq<Byte>)
    requires Buildable(p) && Arranges(p, q) && |tag| == 32
    requires |Encode(q, tag)| <= MAX_PAYLOAD_BYTES
    ensures Packable(p)
    ensures Read(Encode(q, tag), tag) == Some(q)
    ensures forall q' :: Arranges(p, q') ==> q' == q
  {
    PowWidths();
    ArrangementIsCanonical(p, q);
    ReadOfEncode(q, tag);
    forall q' | Arranges(p, q') ensures q' == q {
      ArrangementIsCanonical(p, q');
      AscendingUnique(q.books, q'.books, BookKey);
      AscendingUnique(q.bindings, q'.bindings, BindingKey);
    }
  }

  lemma ArrangementIsCanonical(p: Payload, q: Payload)
    requires Buildable(p) && Arranges(p, q)
    ensures FieldsOk(q) && Ascending(q.books, BookKey) && Ascending(q.bindings, BindingKey)
  {
    DistinctKeysOfMultiset(p.books, q.books, BookKey);
    DistinctKeysOfMultiset(p.bindings, q.bindings, BindingKey);
    SortedDistinctAscends(q.books, BookKey);
    SortedDistinctAscends(q.bindings, BindingKey);
    forall i | 0 <= i < |q.books| ensures BookOk(q.books[i]) {
      assert q.books[i] in multiset(p.books);
    }
    forall i | 0 <= i < |q.bindings| ensures BindingOk(q.bindings[i]) {
      assert q.bindings[i] in multiset(p.bindings);
    }
  }

  // ---------- the decoded record determines the bytes ----------

  lemma ViewBookInjective(a: Book, b: Book)
    requires BookOk(a) && BookOk(b) && ViewBook(a) == ViewBook(b)
    ensures a == b
  {
    Base58.EncodeInjective(a.contractId, b.contractId);
    Base58.EncodeInjective(a.poolId, b.poolId);
    Base58.EncodeInjective(a.operatorId, b.operatorId);
    forall i | 0 <= i < |a.shares| ensures a.shares[i] == b.shares[i] {
      assert MapSeq(a.shares, ViewShare)[i] == MapSeq(b.shares, ViewShare)[i];
      Base58.DecimalInjective(a.shares[i].num, b.shares[i].num);
      Base58.DecimalInjective(a.shares[i].den, b.shares[i].den);
    }
  }

  lemma ViewBindingInjective(a: Binding, b: Binding)
    requires BindingOk(a) && BindingOk(b) && ViewBinding(a) == ViewBinding(b)
    ensures a == b
  {
    Base58.ReversedHexInjective(a.proTxHash, b.proTxHash);
    Base58.EncodeInjective(a.contractId, b.contractId);
    Base58.EncodeInjective(a.poolId, b.poolId);
  }

  // Two accepted payloads under one tag with the same decoded record are the same bytes.
  lemma DecodedRecordDeterminesBytes(a: seq<Byte>, b: seq<Byte>, tag: seq<Byte>)
    requires Read(a, tag).Some? && Read(b, tag).Some?
    requires ViewOf(Read(a, tag).value) == ViewOf(Read(b, tag).value)
    ensures a == b
  {
    EncodeOfRead(a, tag);
    EncodeOfRead(b, tag);
    hide Read, Encode, ViewBook, ViewBinding, Ascending;
    var p, q := Read(a, tag).value, Read(b, tag).value;
    assert |p.books| == |ViewOf(p).books| && |p.bindings| == |ViewOf(p).bindings|;
    forall i | 0 <= i < |p.books| ensures p.books[i] == q.books[i] {
      assert ViewOf(p).books[i] == ViewOf(q).books[i];
      ViewBookInjective(p.books[i], q.books[i]);
    }
    forall i | 0 <= i < |p.bindings| ensures p.bindings[i] == q.bindings[i] {
      assert ViewOf(p).bindings[i] == ViewOf(q).bindings[i];
      ViewBindingInjective(p.bindings[i], q.bindings[i]);
    }
    assert p == q;
  }

  // ---------- which bytes a decoded field shows ----------

  // The word of the given width at offset o.
  function Word(b: seq<Byte>, o: nat, width: nat): nat
    requires o + width <= |b|
  {
    FromLE(b[o..o + width])
  }

  predicate ShareShows(x: ShareView, b: seq<Byte>, o: nat)
    requires o + 16 <= |b|
  {
    x == ShareView(Base58.Decimal(Word(b, o, 8)), Base58.Decimal(Word(b, o + 8, 8)))
  }

  predicate ShareShown(xs: seq<ShareView>, i: nat, b: seq<Byte>, o: nat) {
    i < |xs| && o + 16 * i + 16 <= |b| && ShareShows(xs[i], b, o + 16 * i)
  }

  // Shares at offset o take sixteen bytes each.
  predicate SharesShow(xs: seq<ShareView>, b: seq<Byte>, o: nat) {
    forall i :: 0 <= i < |xs| ==> ShareShown(xs, i, b, o)
  }

  // A book at offset o: three identifiers, a count, and sixteen bytes for every share.
  predicate BookShows(x: BookView, b: seq<Byte>, o: nat) {
    && o + 98 + 16 * x.slotCount <= |b|
    && x.contractId == Base58.Encode(b[o..o + 32])
    && x.poolId == Base58.Encode(b[o + 32..o + 64])
    && x.operatorId == Base58.Encode(b[o + 64..o + 96])
    && x.slotCount == Word(b, o + 96, 2) == |x.shares|
    && SharesShow(x.shares, b, o + 98)
  }

  // A binding at offset o takes 105 bytes.
  predicate BindingShows(x: BindingView, b: seq<Byte>, o: nat) {
    && o + 105 <= |b|
    && x.proTxHash == Base58.ReversedHex(b[o..o + 32])
    && x.slotIndex == b[o + 32]
    && x.contractId == Base58.Encode(b[o + 33..o + 65])
    && x.poolId == Base58.Encode(b[o + 65..o + 97])
    && x.activation == Word(b, o + 97, 8)
  }

  // Where book j begins when the first one begins at o.
  function BookOffset(o: nat, books: seq<BookView>, j: nat): nat
    requires j <= |books|
  {
    if j == 0 then o else BookOffset(o, books, j - 1) + 98 + 16 * books[j - 1].slotCount
  }

  predicate BookShown(books: seq<BookView>, j: nat, b: seq<Byte>, o: nat) {
    j < |books| && BookShows(books[j], b, BookOffset(o, books, j))
  }

  predicate BooksShow(books: seq<BookView>, b: seq<Byte>, o: nat) {
    forall j :: 0 <= j < |books| ==> BookShown(books, j, b, o)
  }

  predicate BindingShown(bindings: seq<BindingView>, k: nat, b: seq<Byte>, o: nat) {
    k < |bindings| && BindingShows(bindings[k], b, o + 105 * k)
  }

  predicate BindingsShow(bindings: seq<BindingView>, b: seq<Byte>, o: nat) {
    forall k :: 0 <= k < |bindings| ==> BindingShown(bindings, k, b, o)
  }

  predicate HeaderShows(v: View, b: seq<Byte>, tag: seq<Byte>) {
    && 64 <= |b| && Word(b, 0, 4) == 2 && b[4..36] == tag
    && v.epochId == Word(b, 36, 8) && v.effective == Word(b, 44, 8) && v.endExclusive == Word(b, 52, 8)
    && |v.bindings| == Word(b, 60, 2) && |v.books| == Word(b, 62, 2)
  }

  // The header at the front, the books from offset 64 on, the bindings after the last book,
  // and nothing after the last binding.
  predicate RecordShows(v: View, b: seq<Byte>, tag: seq<Byte>) {
    var o := BookOffset(64, v.books, |v.books|);
    && HeaderShows(v, b, tag)
    && BooksShow(v.books, b, 64) && BindingsShow(v.bindings, b, o)
    && |b| == o + 105 * |v.bindings|
  }

  // s is the buffer from offset o on.
  predicate From(s: seq<Byte>, b: seq<Byte>, o: nat) {
    o <= |b| && s == b[o..]
  }

  lemma Skip(s: seq<Byte>, b: seq<Byte>, o: nat, k: nat)
    requires From(s, b, o) && k <= |s|
    ensures o + k <= |b| && s[..k] == b[o..o + k] && From(s[k..], b, o + k)
  {
  }

  lemma ShareAt(s: seq<Byte>, b: seq<Byte>, o: nat)
    requires From(s, b, o) && ReadShare(s).Some?
    ensures var (x, rest) := ReadShare(s).value;
      o + 16 <= |b| && From(rest, b, o + 16) && ShareShows(ViewShare(x), b, o)
  {
    hide FromLE, From;
    Skip(s, b, o, 8);
    Skip(s[8..], b, o + 8, 8);
  }

  lemma SharesUnfold(s: seq<Byte>, n: nat)
    requires n > 0 && ReadShares(s, n).Some?
    ensures ReadShare(s).Some? && ReadShares(ReadShare(s).value.1, n - 1).Some?
    ensures var (x, s1) := ReadShare(s).value; var (xs, rest) := ReadShares(s1, n - 1).value;
      ReadShares(s, n) == Some(([x] + xs, rest))
  {
    hide ReadShare;
  }

  lemma OneMoreShare(x: ShareView, xs: seq<ShareView>, b: seq<Byte>, o: nat)
    requires o + 16 <= |b| && ShareShows(x, b, o) && SharesShow(xs, b, o + 16)
    ensures SharesShow([x] + xs, b, o)
  {
    hide ShareShows;
    forall i | 0 <= i < |xs| + 1 ensures ShareShown([x] + xs, i, b, o) {
      if i > 0 {
        assert ShareShown(xs, i - 1, b, o + 16);
        assert ([x] + xs)[i] == xs[i - 1];
      }
    }
  }

  // The shares read from offset o on are shown where they lie, and what follows them is left.
  predicate SharesLie(r: Option<(seq<Share>, seq<Byte>)>, n: nat, b: seq<Byte>, o: nat) {
    && r.Some? && |r.value.0| == n && o + 16 * n <= |b|
    && SharesShow(MapSeq(r.value.0, ViewShare), b, o)
    && From(r.value.1, b, o + 16 * n)
  }

  lemma NoSharesLie(s: seq<Byte>, b: seq<Byte>, o: nat)
    requires From(s, b, o)
    ensures SharesLie(ReadShares(s, 0), 0, b, o)
  {
  }

  lemma OneMoreShareLies(x: Share, xs: seq<Share>, rest: seq<Byte>, b: seq<Byte>, o: nat)
    requires o + 16 <= |b| && ShareShows(ViewShare(x), b, o) && SharesLie(Some((xs, rest)), |xs|, b, o + 16)
    ensures SharesLie(Some(([x] + xs, rest)), |xs| + 1, b, o)
  {
    MapFront(x, xs, ViewShare);
    hide ViewShare, MapSeq, SharesShow, From, ShareShows;
    OneMoreShare(ViewShare(x), MapSeq(xs, ViewShare), b, o);
  }

  lemma SharesLieCount(r: Option<(seq<Share>, seq<Byte>)>, n: nat, b: seq<Byte>, o: nat)
    requires SharesLie(r, n, b, o)
    ensures r.Some? && |r.value.0| == n
  {
  }

  lemma {:induction false} SharesAt(s: seq<Byte>, b: seq<Byte>, o: nat, n: nat)
    requires From(s, b, o) && ReadShares(s, n).Some?
    ensures SharesLie(ReadShares(s, n), n, b, o)
    decreases n
  {
    hide *;
    if n == 0 {
      NoSharesLie(s, b, o);
    } else {
      SharesUnfold(s, n);
      ShareAt(s, b, o);
      var (x, s1) := ReadShare(s).value;
      var later := ReadShares(s1, n - 1);
      SharesAt(s1, b, o + 16, n - 1);
      SharesLieCount(later, n - 1, b, o + 16);
      OneMoreShareLies(x, later.value.0, later.value.1, b, o);
    }
  }

  lemma BookAt(s: seq<Byte>, b: seq<Byte>, o: nat, prev: Option<SortKey>)
    requires From(s, b, o) && ReadBook(s, prev).Some?
    ensures var (x, rest) := ReadBook(s, prev).value;
      && o + 98 + 16 * x.slotCount <= |b| && From(rest, b, o + 98 + 16 * x.slotCount)
      && BookShows(ViewBook(x), b, o)
  {
    hide FromLE, KeyLess, ReadShares, From, BookShows, ViewBook, ShareShows, ViewShare;
    var s1 := s[32..];
    var s2 := s1[32..];
    var s3 := s2[32..];
    Skip(s, b, o, 32);
    Skip(s1, b, o + 32, 32);
    Skip(s2, b, o + 64, 32);
    Skip(s3, b, o + 96, 2);
    var x := ReadBook(s, prev).value.0;
    SharesAt(s3[2..], b, o + 98, x.slotCount);
    BookOfSlices(x, b, o);
  }

  lemma BookOfSlices(x: Book, b: seq<Byte>, o: nat)
    requires o + 98 + 16 * x.slotCount <= |b| && |x.shares| == x.slotCount
    requires x == Book(b[o..o + 32], b[o + 32..o + 64], b[o + 64..o + 96], FromLE(b[o + 96..o + 98]), x.shares)
    requires SharesShow(MapSeq(x.shares, ViewShare), b, o + 98)
    ensures BookShows(ViewBook(x), b, o)
  {
    hide FromLE, SharesShow, ViewShare;
  }

  lemma MapFront<T, U>(x: T, xs: seq<T>, f: T -> U)
    ensures MapSeq([x] + xs, f) == [f(x)] + MapSeq(xs, f)
  {
  }

  lemma BindingAt(s: seq<Byte>, b: seq<Byte>, o: nat, prev: Option<SortKey>)
    requires From(s, b, o) && ReadBinding(s, prev).Some?
    ensures var (x, rest) := ReadBinding(s, prev).value;
      o + 105 <= |b| && From(rest, b, o + 105) && BindingShows(ViewBinding(x), b, o)
  {
    hide FromLE, KeyLess, From;
    var s1 := s[32..];
    var s2 := s1[1..];
    var s3 := s2[32..];
    Skip(s, b, o, 32);
    Skip(s1, b, o + 32, 1);
    Skip(s2, b, o + 33, 32);
    Skip(s3, b, o + 65, 32);
    Skip(s3[32..], b, o + 97, 8);
    assert b[o + 32..o + 33] == [b[o + 32]];
    OneByte(b[o + 32]);
  }

  lemma OneByte(x: Byte)
    ensures FromLE([x]) == x
  {
    LittleEndianWords(x, 0, 0, 0);
  }

  lemma {:induction false} OffsetShifts(o: nat, x: BookView, xs: seq<BookView>, j: nat)
    requires j <= |xs|
    ensures BookOffset(o, [x] + xs, j + 1) == BookOffset(o + 98 + 16 * x.slotCount, xs, j)
  {
    if j > 0 { OffsetShifts(o, x, xs, j - 1); }
  }

  lemma FirstOffset(o: nat, views: seq<BookView>)
    ensures BookOffset(o, views, 0) == o
  {
  }

  lemma BooksUnfold(s: seq<Byte>, n: nat, prev: Option<SortKey>)
    requires n > 0 && ReadBooks(s, n, prev).Some?
    ensures ReadBook(s, prev).Some?
    ensures var (x, s1) := ReadBook(s, prev).value; ReadBooks(s1, n - 1, Some(BookKey(x))).Some?
    ensures var (x, s1) := ReadBook(s, prev).value; var (xs, rest) := ReadBooks(s1, n - 1, Some(BookKey(x))).value;
      ReadBooks(s, n, prev) == Some(([x] + xs, rest))
  {
    hide ReadBook;
  }

  lemma OneMoreBook(x: BookView, more: seq<BookView>, b: seq<Byte>, o: nat)
    requires BookShows(x, b, o) && BooksShow(more, b, o + 98 + 16 * x.slotCount)
    ensures BookOffset(o, [x] + more, |more| + 1) == BookOffset(o + 98 + 16 * x.slotCount, more, |more|)
    ensures BooksShow([x] + more, b, o)
  {
    hide BookShown, BookOffset, BookShows;
    OffsetShifts(o, x, more, |more|);
    forall j | 0 <= j < |more| + 1 ensures BookShown([x] + more, j, b, o) {
      if j == 0 {
        FirstBookShown(x, more, b, o);
      } else {
        assert BookShown(more, j - 1, b, o + 98 + 16 * x.slotCount);
        LaterBookShown(x, more, b, o, j);
      }
    }
  }

  lemma FirstBookShown(x: BookView, more: seq<BookView>, b: seq<Byte>, o: nat)
    requires BookShows(x, b, o)
    ensures BookShown([x] + more, 0, b, o)
  {
    FirstOffset(o, [x] + more);
    hide BookShows, BookOffset;
  }

  lemma LaterBookShown(x: BookView, more: seq<BookView>, b: seq<Byte>, o: nat, j: nat)
    requires 0 < j && BookShown(more, j - 1, b, o + 98 + 16 * x.slotCount)
    ensures BookShown([x] + more, j, b, o)
  {
    hide BookShows, BookOffset;
    OffsetShifts(o, x, more, j - 1);
    assert ([x] + more)[j] == more[j - 1];
  }

  // The books read from offset o on are shown where they lie, and what follows them is left.
  predicate BooksLie(r: Option<(seq<Book>, seq<Byte>)>, n: nat, b: seq<Byte>, o: nat) {
    && r.Some? && |r.value.0| == n
    && BooksShow(MapSeq(r.value.0, ViewBook), b, o)
    && From(r.value.1, b, BookOffset(o, MapSeq(r.value.0, ViewBook), n))
  }

  lemma NoBooksLie(s: seq<Byte>, b: seq<Byte>, o: nat, prev: Option<SortKey>)
    requires From(s, b, o)
    ensures BooksLie(ReadBooks(s, 0, prev), 0, b, o)
  {
  }

  lemma CountIsShown(x: Book)
    ensures ViewBook(x).slotCount == x.slotCount
  {
  }

  lemma OneMoreLies(x: Book, xs: seq<Book>, rest: seq<Byte>, b: seq<Byte>, o: nat)
    requires BookShows(ViewBook(x), b, o) && BooksLie(Some((xs, rest)), |xs|, b, o + 98 + 16 * x.slotCount)
    ensures BooksLie(Some(([x] + xs, rest)), |xs| + 1, b, o)
  {
    hide BookShows, BooksShow, BookOffset, From, MapSeq, ViewBook;
    CountIsShown(x);
    MapFront(x, xs, ViewBook);
    OneMoreBook(ViewBook(x), MapSeq(xs, ViewBook), b, o);
  }

  lemma BooksLieCount(r: Option<(seq<Book>, seq<Byte>)>, n: nat, b: seq<Byte>, o: nat)
    requires BooksLie(r, n, b, o)
    ensures r.Some? && |r.value.0| == n
  {
  }

  lemma {:induction false} BooksAt(s: seq<Byte>, b: seq<Byte>, o: nat, n: nat, prev: Option<SortKey>)
    requires From(s, b, o) && ReadBooks(s, n, prev).Some?
    ensures BooksLie(ReadBooks(s, n, prev), n, b, o)
    decreases n
  {
    hide *;
    if n == 0 {
      NoBooksLie(s, b, o, prev);
    } else {
      BooksUnfold(s, n, prev);
      BookAt(s, b, o, prev);
      var (x, s1) := ReadBook(s, prev).value;
      var later := ReadBooks(s1, n - 1, Some(BookKey(x)));
      BooksAt(s1, b, o + 98 + 16 * x.slotCount, n - 1, Some(BookKey(x)));
      BooksLieCount(later, n - 1, b, o + 98 + 16 * x.slotCount);
      OneMoreLies(x, later.value.0, later.value.1, b, o);
    }
  }

  lemma BindingsUnfold(s: seq<Byte>, n: nat, prev: Option<SortKey>)
    requires n > 0 && ReadBindings(s, n, prev).Some?
    ensures ReadBinding(s, prev).Some?
    ensures var (x, s1) := ReadBinding(s, prev).value; ReadBindings(s1, n - 1, Some(BindingKey(x))).Some?
    ensures var (x, s1) := ReadBinding(s, prev).value;
      var (xs, rest) := ReadBindings(s1, n - 1, Some(BindingKey(x))).value;
      ReadBindings(s, n, prev) == Some(([x] + xs, rest))
  {
    hide ReadBinding;
  }

  lemma OneMoreBinding(x: BindingView, xs: seq<BindingView>, b: seq<Byte>, o: nat)
    requires BindingShows(x, b, o) && BindingsShow(xs, b, o + 105)
    ensures BindingsShow([x] + xs, b, o)
  {
    hide BindingShows;
    forall k | 0 <= k < |xs| + 1 ensures BindingShown([x] + xs, k, b, o) {
      if k > 0 {
        assert BindingShown(xs, k - 1, b, o + 105);
        assert ([x] + xs)[k] == xs[k - 1];
      }
    }
  }

  predicate BindingsLie(r: Option<(seq<Binding>, seq<Byte>)>, n: nat, b: seq<Byte>, o: nat) {
    && r.Some? && |r.value.0| == n
    && BindingsShow(MapSeq(r.value.0, ViewBinding), b, o)
    && From(r.value.1, b, o + 105 * n)
  }

  lemma NoBindingsLie(s: seq<Byte>, b: seq<Byte>, o: nat, prev: Option<SortKey>)
    requires From(s, b, o)
    ensures BindingsLie(ReadBindings(s, 0, prev), 0, b, o)
  {
  }

  lemma OneMoreBindingLies(x: Binding, xs: seq<Binding>, rest: seq<Byte>, b: seq<Byte>, o: nat)
    requires BindingShows(ViewBinding(x), b, o) && BindingsLie(Some((xs, rest)), |xs|, b, o + 105)
    ensures BindingsLie(Some(([x] + xs, rest)), |xs| + 1, b, o)
  {
    MapFront(x, xs, ViewBinding);
    hide ViewBinding, MapSeq, BindingsShow, From, BindingShows;
    OneMoreBinding(ViewBinding(x), MapSeq(xs, ViewBinding), b, o);
  }

  lemma BindingsLieCount(r: Option<(seq<Binding>, seq<Byte>)>, n: nat, b: seq<Byte>, o: nat)
    requires BindingsLie(r, n, b, o)
    ensures r.Some? && |r.value.0| == n
  {
  }

  lemma {:induction false} BindingsAt(s: seq<Byte>, b: seq<Byte>, o: nat, n: nat, prev: Option<SortKey>)
    requires From(s, b, o) && ReadBindings(s, n, prev).Some?
    ensures BindingsLie(ReadBindings(s, n, prev), n, b, o)
    decreases n
  {
    hide *;
    if n == 0 {
      NoBindingsLie(s, b, o, prev);
    } else {
      BindingsUnfold(s, n, prev);
      BindingAt(s, b, o, prev);
      var (x, s1) := ReadBinding(s, prev).value;
      var later := ReadBindings(s1, n - 1, Some(BindingKey(x)));
      BindingsAt(s1, b, o + 105, n - 1, Some(BindingKey(x)));
      BindingsLieCount(later, n - 1, b, o + 105);
      OneMoreBindingLies(x, later.value.0, later.value.1, b, o);
    }
  }

  lemma HeaderAt(b: seq<Byte>, tag: seq<Byte>)
    requires ReadHeader(b, tag).Some?
    ensures var (h, rest) := ReadHeader(b, tag).value;
      && 64 <= |b| && From(rest, b, 64) && Word(b, 0, 4) == 2 && b[4..36] == tag
      && h == Header(Word(b, 36, 8), Word(b, 44, 8), Word(b, 52, 8), Word(b, 60, 2), Word(b, 62, 2))
  {
    assert From(b, b, 0);
    hide FromLE, From;
    var s1 := b[4..];
    var s2 := s1[32..];
    var s3 := s2[8..];
    var s4 := s3[8..];
    var s5 := s4[8..];
    Skip(b, b, 0, 4);
    Skip(s1, b, 4, 32);
    Skip(s2, b, 36, 8);
    Skip(s3, b, 44, 8);
    Skip(s4, b, 52, 8);
    Skip(s5, b, 60, 2);
    Skip(s5[2..], b, 62, 2);
  }

  // Every field of the decoded record shows its own bytes.
  lemma DecodedFieldsShowBytes(b: seq<Byte>, tag: seq<Byte>)
    requires Read(b, tag).Some?
    ensures RecordShows(ViewOf(Read(b, tag).value), b, tag)
  {
    hide ReadHeader, ReadBooks, ReadBindings, Read, BooksShow, BindingsShow, BookOffset, Word, From;
    ReadParts(b, tag);
    HeaderAt(b, tag);
    var (h, s1) := ReadHeader(b, tag).value;
    BooksAt(s1, b, 64, h.books, None);
    var (books, s2) := ReadBooks(s1, h.books, None).value;
    var o := BookOffset(64, MapSeq(books, ViewBook), h.books);
    BindingsAt(s2, b, o, h.bindings, None);
    NothingLeft(b, o + 105 * h.bindings);
  }

  lemma NothingLeft(b: seq<Byte>, o: nat)
    requires From([], b, o)
    ensures |b| == o
  {
    assert |b[o..]| == 0;
  }

  lemma ReadParts(b: seq<Byte>, tag: seq<Byte>)
    requires Read(b, tag).Some?
    ensures ReadHeader(b, tag).Some?
    ensures var (h, s1) := ReadHeader(b, tag).value;
      && ReadBooks(s1, h.books, None).Some?
      && var (books, s2) := ReadBooks(s1, h.books, None).value;
      && ReadBindings(s2, h.bindings, None).Some?
      && var (bindings, s3) := ReadBindings(s2, h.bindings, None).value;
      && s3 == [] && Read(b, tag) == Some(Payload(h.epochId, h.effective, h.endExclusive, books, bindings))
  {
    hide ReadHeader, ReadBooks, ReadBindings;
  }

  // The tables are in order of their raw bytes: books by contract and then pool identifier,
  // bindings by masternode hash and then slot.
  lemma DecodedTablesAscend(b: seq<Byte>, tag: seq<Byte>)
    requires Read(b, tag).Some?
    ensures var v := ViewOf(Read(b, tag).value);
      && (forall j, k :: 0 <= j < k < |v.books| ==>
           BooksAscend(b, BookOffset(64, v.books, j), BookOffset(64, v.books, k)))
      && forall j, k :: 0 <= j < k < |v.bindings| ==>
           var o := BookOffset(64, v.books, |v.books|);
           BindingsAscend(b, o + 105 * j, o + 105 * k)
  {
    hide *;
    DecodedFieldsShowBytes(b, tag);
    EncodeOfRead(b, tag);
    var p := Read(b, tag).value;
    var v := ViewOf(p);
    CanonicalParts(p, tag);
    ViewSizes(p);
    forall j, k | 0 <= j < k < |v.books|
      ensures BooksAscend(b, BookOffset(64, v.books, j), BookOffset(64, v.books, k))
    {
      ShownBook(p, b, tag, j);
      ShownBook(p, b, tag, k);
      PairOfBooks(p.books[j], p.books[k], b, BookOffset(64, v.books, j), BookOffset(64, v.books, k));
    }
    var o := BookOffset(64, v.books, |v.books|);
    forall j, k | 0 <= j < k < |v.bindings| ensures BindingsAscend(b, o + 105 * j, o + 105 * k) {
      ShownBinding(p, b, tag, j);
      ShownBinding(p, b, tag, k);
      PairOfBindings(p.bindings[j], p.bindings[k], b, o + 105 * j, o + 105 * k);
    }
  }

  lemma ViewSizes(p: Payload)
    ensures |ViewOf(p).books| == |p.books| && |ViewOf(p).bindings| == |p.bindings|
  {
  }

  // The raw records behind the view, each shown at its offset.
  lemma ShownBook(p: Payload, b: seq<Byte>, tag: seq<Byte>, j: nat)
    requires RecordShows(ViewOf(p), b, tag) && j < |p.books|
    ensures j < |ViewOf(p).books| && BookShows(ViewBook(p.books[j]), b, BookOffset(64, ViewOf(p).books, j))
  {
    hide BookShows, BindingsShow, BookOffset, HeaderShows, ViewBook;
    assert BookShown(ViewOf(p).books, j, b, 64);
  }

  lemma ShownBinding(p: Payload, b: seq<Byte>, tag: seq<Byte>, j: nat)
    requires RecordShows(ViewOf(p), b, tag) && j < |p.bindings|
    ensures var v := ViewOf(p);
      BindingShows(ViewBinding(p.bindings[j]), b, BookOffset(64, v.books, |v.books|) + 105 * j)
  {
    hide BindingShows, BooksShow, BookOffset, HeaderShows, ViewBinding;
    var v := ViewOf(p);
    assert BindingShown(v.bindings, j, b, BookOffset(64, v.books, |v.books|));
  }

  lemma PairOfBooks(x: Book, y: Book, b: seq<Byte>, o: nat, o': nat)
    requires BookOk(x) && BookOk(y) && KeyLess(BookKey(x), BookKey(y))
    requires BookShows(ViewBook(x), b, o) && BookShows(ViewBook(y), b, o')
    ensures BooksAscend(b, o, o')
  {
    hide BookOk, BookShows, ViewBook, LexLess;
    RawBook(x, b, o);
    RawBook(y, b, o');
  }

  lemma PairOfBindings(x: Binding, y: Binding, b: seq<Byte>, o: nat, o': nat)
    requires BindingOk(x) && BindingOk(y) && KeyLess(BindingKey(x), BindingKey(y))
    requires BindingShows(ViewBinding(x), b, o) && BindingShows(ViewBinding(y), b, o')
    ensures BindingsAscend(b, o, o')
  {
    SlotOrder(x.slotIndex, y.slotIndex);
    hide BindingOk, BindingShows, ViewBinding, LexLess;
    RawBinding(x, b, o);
    RawBinding(y, b, o');
  }

  lemma SlotOrder(i: int, j: int)
    ensures LexLess([i], [j]) <==> i < j
  {
  }

  predicate BooksAscend(b: seq<Byte>, o: nat, o': nat) {
    && o + 64 <= |b| && o' + 64 <= |b|
    && (LexLess(b[o..o + 32], b[o'..o' + 32])
        || (b[o..o + 32] == b[o'..o' + 32] && LexLess(b[o + 32..o + 64], b[o' + 32..o' + 64])))
  }

  predicate BindingsAscend(b: seq<Byte>, o: nat, o': nat) {
    && o + 33 <= |b| && o' + 33 <= |b|
    && (LexLess(b[o..o + 32], b[o'..o' + 32])
        || (b[o..o + 32] == b[o'..o' + 32] && b[o + 32] < b[o' + 32]))
  }

  lemma CanonicalParts(p: Payload, tag: seq<Byte>)
    requires Canonical(p, tag)
    ensures forall i, j :: 0 <= i < j < |p.books| ==> KeyLess(BookKey(p.books[i]), BookKey(p.books[j]))
    ensures forall i, j :: 0 <= i < j < |p.bindings| ==> KeyLess(BindingKey(p.bindings[i]), BindingKey(p.bindings[j]))
    ensures forall i :: 0 <= i < |p.books| ==> BookOk(p.books[i])
    ensures forall i :: 0 <= i < |p.bindings| ==> BindingOk(p.bindings[i])
  {
    hide KeyLess, BookKey, BindingKey, BookOk, BindingOk;
  }

  // A shown record is the raw one at its offset.
  lemma RawBook(x: Book, b: seq<Byte>, o: nat)
    requires BookOk(x) && BookShows(ViewBook(x), b, o)
    ensures o + 64 <= |b| && x.contractId == b[o..o + 32] && x.poolId == b[o + 32..o + 64]
  {
    hide Base58.Encode, SharesShow, FromLE;
    Base58.EncodeInjective(x.contractId, b[o..o + 32]);
    Base58.EncodeInjective(x.poolId, b[o + 32..o + 64]);
  }

  lemma RawBinding(x: Binding, b: seq<Byte>, o: nat)
    requires BindingOk(x) && BindingShows(ViewBinding(x), b, o)
    ensures o + 33 <= |b| && x.proTxHash == b[o..o + 32] && x.slotIndex == b[o + 32]
  {
    hide Base58.Encode, Base58.ReversedHex, FromLE, Pow;
    Base58.ReversedHexInjective(x.proTxHash, b[o..o + 32]);
  }
}
