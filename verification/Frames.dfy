/**
 The peer-to-peer frame reader (captureP2PMnListDiffProbe.cjs): a 24-byte header of
 network magic, command field, payload length and checksum, then the payload.
 */
module Frames {
  import opened Bytes
  import opened Outcomes

  type Digest = d: seq<Byte> | |d| == 32 witness seq(32, _ => 0)

  type Hash = seq<Byte> -> Digest

  const MAGIC: seq<Byte> := [0xfc, 0xc1, 0xb7, 0xdc]
  const HEAD := 24
  const FIELD := 12
  const MAX_SIZE := 0x0200_0000
  const MAX_PROTOCOL_MESSAGE_LENGTH := 3 * 1024 * 1024

  datatype Message = Message(command: seq<Byte>, payload: seq<Byte>)

  datatype FrameError =
    | WrongMagic(magic: seq<Byte>)
    | Oversize(declared: nat)
    | BadCommand(raw: seq<Byte>)
    | BadChecksum(command: seq<Byte>)

  // First four bytes of the double digest of the payload.
  function Checksum(payload: seq<Byte>, sha: Hash): (c: seq<Byte>)
    ensures |c| == 4
  {
    sha(sha(payload))[..4]
  }

  // ---------- the command field ----------

  predicate InGrammar(command: seq<Byte>) {
    1 <= |command| <= FIELD && forall i :: 0 <= i < |command| ==> LowerOrDigit(command[i])
  }

  predicate LowerOrDigit(b: Byte) {
    0x61 <= b <= 0x7a || 0x30 <= b <= 0x39
  }

  function Nuls(k: nat): (s: seq<Byte>)
    ensures |s| == k && forall i :: 0 <= i < k ==> s[i] == 0
  {
    seq(k, _ => 0)
  }

  // What writing a command into its twelve bytes leaves there.
  function Field(command: seq<Byte>): (f: seq<Byte>)
    ensures |f| == FIELD
  {
    if |command| >= FIELD then command[..FIELD] else command + Nuls(FIELD - |command|)
  }

  // Node decodes "ascii" by clearing each byte's high bit.
  function Masked(raw: seq<Byte>): (s: seq<Byte>)
    ensures |s| == |raw| && forall i :: 0 <= i < |s| ==> s[i] == raw[i] % 128
  {
    seq(|raw|, i requires 0 <= i < |raw| => raw[i] % 128)
  }

  function StripNuls(s: seq<Byte>): (r: seq<Byte>)
    ensures r <= s && (forall i :: |r| <= i < |s| ==> s[i] == 0) && (|r| > 0 ==> r[|r| - 1] != 0)
  {
    if |s| > 0 && s[|s| - 1] == 0 then StripNuls(s[..|s| - 1]) else s
  }

  function FirstNul(raw: seq<Byte>): (k: nat)
    ensures k <= |raw| && (k < |raw| ==> raw[k] == 0) && forall i :: 0 <= i < k ==> raw[i] != 0
  {
    if |raw| == 0 || raw[0] == 0 then 0 else 1 + FirstNul(raw[1..])
  }

  // The command a raw field is read as, when its grammar and padding are accepted.
  function ReadCommand(raw: seq<Byte>): Option<seq<Byte>> {
    var command := StripNuls(Masked(raw));
    var padding := raw[FirstNul(raw)..];
    if InGrammar(command) && padding == Nuls(|padding|) then Some(command) else None
  }

  // ---------- draining a buffer ----------

  datatype Head = Incomplete | Bad(error: FrameError) | One(message: Message, size: nat)

  // The first frame of a buffer.
  function First(buf: seq<Byte>, sha: Hash): (h: Head)
    ensures h.One? ==> HEAD <= h.size <= |buf|
  {
    if |buf| < HEAD then Incomplete
    else if buf[..4] != MAGIC then Bad(WrongMagic(buf[..4]))
    else
      var len := FromLE(buf[16..20]);
      if len > MAX_SIZE || len > MAX_PROTOCOL_MESSAGE_LENGTH then Bad(Oversize(len))
      else if |buf| < HEAD + len then Incomplete
      else Body(buf[4..16], buf[20..24], buf[HEAD..HEAD + len], sha)
  }

  function Body(raw: seq<Byte>, sum: seq<Byte>, payload: seq<Byte>, sha: Hash): Head {
    match ReadCommand(raw)
    case None => Bad(BadCommand(raw))
    case Some(command) =>
      if sum != Checksum(payload, sha) then Bad(BadChecksum(command))
      else One(Message(command, payload), HEAD + |payload|)
  }

  datatype End = Open(rest: seq<Byte>) | Failed(error: FrameError)

  // The messages delivered so far, and what is left or went wrong.
  datatype Drained = Drained(messages: seq<Message>, end: End)

  function Prefixed(ms: seq<Message>, d: Drained): Drained {
    Drained(ms + d.messages, d.end)
  }

  function Drain(buf: seq<Byte>, sha: Hash): Drained
    decreases |buf|
  {
    match First(buf, sha)
    case Incomplete => Drained([], Open(buf))
    case Bad(e) => Drained([], Failed(e))
    case One(m, n) => Prefixed([m], Drain(buf[n..], sha))
  }

  lemma PrefixedTwice(ms: seq<Message>, ns: seq<Message>, d: Drained)
    ensures Prefixed(ms, Prefixed(ns, d)) == Prefixed(ms + ns, d)
  {
    assert ms + (ns + d.messages) == ms + ns + d.messages;
  }

  method DrainFrames(input: seq<Byte>, sha: Hash) returns (messages: seq<Message>, end: End)
    ensures Drained(messages, end) == Drain(input, sha)
  {
    var buf := input;
    messages := [];
    while |buf| >= HEAD
      invariant Drain(input, sha) == Prefixed(messages, Drain(buf, sha))
      decreases |buf|
    {
      hide Drain, Prefixed, ReadCommand, Checksum, FromLE, MAGIC;
      DrainStep(buf, sha);
      PrefixedEnd(messages);
      if buf[..4] != MAGIC { return messages, Failed(WrongMagic(buf[..4])); }
      var len := FromLE(buf[16..20]);
      if len > MAX_SIZE || len > MAX_PROTOCOL_MESSAGE_LENGTH { return messages, Failed(Oversize(len)); }
      if |buf| < HEAD + len { break; }
      var raw := buf[4..16];
      var command := ReadCommand(raw);
      if command.None? { return messages, Failed(BadCommand(raw)); }
      var payload := buf[HEAD..HEAD + len];
      if buf[20..24] != Checksum(payload, sha) { return messages, Failed(BadChecksum(command.value)); }
      ghost var later := Drain(buf[HEAD + len..], sha);
      PrefixedTwice(messages, [Message(command.value, payload)], later);
      buf, messages := buf[HEAD + len..], messages + [Message(command.value, payload)];
    }
    DrainShort(buf, sha);
    PrefixedEnd(messages);
    return messages, Open(buf);
  }

  lemma PrefixedEnd(ms: seq<Message>)
    ensures forall end :: Prefixed(ms, Drained([], end)) == Drained(ms, end)
  {
  }

  // A buffer with no whole frame is kept.
  lemma DrainShort(buf: seq<Byte>, sha: Hash)
    requires |buf| < HEAD || (buf[..4] == MAGIC
      && FromLE(buf[16..20]) <= MAX_SIZE && FromLE(buf[16..20]) <= MAX_PROTOCOL_MESSAGE_LENGTH
      && |buf| < HEAD + FromLE(buf[16..20]))
    ensures Drain(buf, sha) == Drained([], Open(buf))
  {
    hide FromLE, Body;
  }

  // One turn of the loop on a buffer that holds a header.
  lemma DrainStep(buf: seq<Byte>, sha: Hash)
    requires |buf| >= HEAD
    ensures var d, len, raw := Drain(buf, sha), FromLE(buf[16..20]), buf[4..16];
      if buf[..4] != MAGIC then d == Drained([], Failed(WrongMagic(buf[..4])))
      else if len > MAX_SIZE || len > MAX_PROTOCOL_MESSAGE_LENGTH then d == Drained([], Failed(Oversize(len)))
      else if |buf| < HEAD + len then d == Drained([], Open(buf))
      else match ReadCommand(raw)
        case None => d == Drained([], Failed(BadCommand(raw)))
        case Some(command) =>
          var payload := buf[HEAD..HEAD + len];
          if buf[20..24] != Checksum(payload, sha) then d == Drained([], Failed(BadChecksum(command)))
          else d == Prefixed([Message(command, payload)], Drain(buf[HEAD + len..], sha))
  {
    hide ReadCommand, Checksum, FromLE, Prefixed, MAGIC;
  }

  // ---------- the bytes of one message ----------

  function FrameOf(m: Message, sha: Hash): (f: seq<Byte>)
    ensures |f| == HEAD + |m.payload|
  {
    MAGIC + Field(m.command) + LE(|m.payload|, 4) + Checksum(m.payload, sha) + m.payload
  }

  // frame: a payload whose length does not fit the header's four bytes is refused.
  method Frame(m: Message, sha: Hash) returns (r: Option<seq<Byte>>)
    ensures r == if |m.payload| < Pow(256, 4) then Some(FrameOf(m, sha)) else None
  {
    PowWidths();
    if |m.payload| >= 0x1_0000_0000 { return None; }
    var head := new Byte[HEAD](_ => 0);
    var len, sum := LE(|m.payload|, 4), Checksum(m.payload, sha);
    forall i | 0 <= i < 4 { head[i] := MAGIC[i]; }
    var room := if |m.command| < FIELD then |m.command| else FIELD;
    forall i | 4 <= i < 4 + room { head[i] := m.command[i - 4]; }
    forall i | 16 <= i < 20 { head[i] := len[i - 16]; }
    forall i | 20 <= i < 24 { head[i] := sum[i - 20]; }
    assert head[..] == MAGIC + Field(m.command) + len + sum;
    return Some(head[..] + m.payload);
  }

  // ---------- a split stream delivers what the whole stream delivers ----------

  // A frame already decided is not changed by the bytes after it.
  lemma FirstIsStable(a: seq<Byte>, b: seq<Byte>, sha: Hash)
    requires First(a, sha) != Incomplete
    ensures First(a + b, sha) == First(a, sha)
  {
    hide Body, FromLE;
    assert (a + b)[..4] == a[..4] && (a + b)[4..16] == a[4..16];
    assert (a + b)[16..20] == a[16..20] && (a + b)[20..24] == a[20..24];
    var len := FromLE(a[16..20]);
    if HEAD + len <= |a| { assert (a + b)[HEAD..HEAD + len] == a[HEAD..HEAD + len]; }
  }

  // One data event: drain what was pending together with the new chunk.
  function Feed(d: Drained, chunk: seq<Byte>, sha: Hash): Drained {
    match d.end
    case Open(rest) => Prefixed(d.messages, Drain(rest + chunk, sha))
    case Failed(_) => d
  }

  lemma {:induction false} DrainAppend(a: seq<Byte>, b: seq<Byte>, sha: Hash)
    ensures Feed(Drain(a, sha), b, sha) == Drain(a + b, sha)
    decreases |a|
  {
    hide First;
    match First(a, sha)
    case Incomplete =>
    case Bad(e) => FirstIsStable(a, b, sha);
    case One(m, n) =>
      FirstIsStable(a, b, sha);
      assert n <= |a| && 0 < n;
      assert (a + b)[n..] == a[n..] + b;
      DrainAppend(a[n..], b, sha);
      var d := Drain(a[n..], sha);
      if d.end.Open? { PrefixedTwice([m], d.messages, Drain(d.end.rest + b, sha)); }
  }

  datatype Chunk = Chunk(bytes: seq<Byte>)

  function Whole(chunks: seq<Chunk>): seq<Byte> {
    if |chunks| == 0 then [] else Whole(chunks[..|chunks| - 1]) + chunks[|chunks| - 1].bytes
  }

  function FeedAll(chunks: seq<Chunk>, sha: Hash): Drained {
    if |chunks| == 0 then Drained([], Open([]))
    else Feed(FeedAll(chunks[..|chunks| - 1], sha), chunks[|chunks| - 1].bytes, sha)
  }

  lemma {:induction false} SplitInvariance(chunks: seq<Chunk>, sha: Hash)
    ensures FeedAll(chunks, sha) == Drain(Whole(chunks), sha)
  {
    if |chunks| > 0 {
      var k := |chunks| - 1;
      SplitInvariance(chunks[..k], sha);
      DrainAppend(Whole(chunks[..k]), chunks[k].bytes, sha);
    }
  }

  // ---------- framing then draining ----------

  predicate Sendable(m: Message) {
    InGrammar(m.command) && |m.payload| <= MAX_PROTOCOL_MESSAGE_LENGTH
  }

  function FrameAll(ms: seq<Message>, sha: Hash): seq<Byte> {
    if |ms| == 0 then [] else FrameOf(ms[0], sha) + FrameAll(ms[1..], sha)
  }

  lemma {:induction false} StripNulsAt(s: seq<Byte>, n: nat)
    requires 0 < n <= |s| && s[n - 1] != 0
    requires forall i :: n <= i < |s| ==> s[i] == 0
    ensures StripNuls(s) == s[..n]
  {
    if n < |s| {
      StripNulsAt(s[..|s| - 1], n);
      assert s[..|s| - 1][..n] == s[..n];
    } else {
      assert s[..n] == s;
    }
  }

  lemma {:induction false} FirstNulAt(s: seq<Byte>, n: nat)
    requires n <= |s| && (forall i :: 0 <= i < n ==> s[i] != 0) && (n < |s| ==> s[n] == 0)
    ensures FirstNul(s) == n
  {
    if n > 0 { FirstNulAt(s[1..], n - 1); }
  }

  lemma ReadCommandOfField(command: seq<Byte>)
    requires InGrammar(command)
    ensures ReadCommand(Field(command)) == Some(command)
  {
    var f, n := Field(command), |command|;
    assert f[..n] == command && f[n..] == Nuls(FIELD - n);
    assert forall i :: 0 <= i < n ==> f[i] == command[i] && LowerOrDigit(command[i]);
    assert forall i :: n <= i < FIELD ==> f[i] == 0;
    assert Masked(f) == f;
    StripNulsAt(f, n);
    FirstNulAt(f, n);
  }

  // Byte by byte: the network magic, the command padded with NULs, the payload's length low byte
  // first, four bytes of its double digest, and the payload.
  lemma FrameLayout(m: Message, sha: Hash)
    requires |m.payload| < 0x1_0000_0000
    ensures var f := FrameOf(m, sha);
      && |f| == 24 + |m.payload|
      && f[..4] == [0xfc, 0xc1, 0xb7, 0xdc]
      && (forall i :: 0 <= i < 12 ==> f[4 + i] == if i < |m.command| then m.command[i] else 0)
      && FromLE(f[16..20]) == |m.payload|
      && f[20..24] == sha(sha(m.payload))[..4]
      && f[24..] == m.payload
  {
    PowWidths();
    FromLEOfLE(|m.payload|, 4);
    FrameSlices(m, [], sha);
    var f := FrameOf(m, sha);
    assert f + [] == f;
    FieldBytes(m.command);
    hide FrameOf, FromLE, LE, Pow, Field;
    forall i | 0 <= i < 12 ensures f[4 + i] == if i < |m.command| then m.command[i] else 0 {
      assert f[4..16][i] == f[4 + i];
    }
    assert f[24..] == f[HEAD..HEAD + |m.payload|];
  }

  lemma FieldBytes(command: seq<Byte>)
    ensures forall i :: 0 <= i < 12 ==> Field(command)[i] == if i < |command| then command[i] else 0
  {
  }

  // Which twelve bytes are read as which command: high bits are ignored, lower-case letters and
  // digits come first, and nothing but NULs follows a NUL.
  lemma CommandMeaning(raw: seq<Byte>, command: seq<Byte>)
    requires |raw| == FIELD
    ensures ReadCommand(raw) == Some(command) <==>
      && 1 <= |command| <= 12
      && (forall i :: 0 <= i < |command| ==>
           command[i] == raw[i] % 128 && (0x61 <= command[i] <= 0x7a || 0x30 <= command[i] <= 0x39))
      && (forall i :: |command| <= i < 12 ==> raw[i] % 128 == 0)
      && NulsStay(raw)
  {
    PaddingMeaning(raw, FirstNul(raw));
    StrippedMeaning(Masked(raw), command);
    hide StripNuls, FirstNul, Nuls, NulsStay;
    if InGrammar(command) {
      assert LowerOrDigit(command[|command| - 1]);
    }
  }

  lemma PaddingMeaning(raw: seq<Byte>, k: nat)
    requires k <= |raw| && (k < |raw| ==> raw[k] == 0) && forall i :: 0 <= i < k ==> raw[i] != 0
    ensures raw[k..] == Nuls(|raw| - k) <==> NulsStay(raw)
  {
    hide *;
    NulTail(raw, k);
    NulsStayFrom(raw, k);
  }

  predicate NulsStay(raw: seq<Byte>) {
    forall i, j :: 0 <= i < j < |raw| && raw[i] == 0 ==> raw[j] == 0
  }

  predicate NulFrom(raw: seq<Byte>, k: nat) {
    forall i :: k <= i < |raw| ==> raw[i] == 0
  }

  lemma NulsStayFrom(raw: seq<Byte>, k: nat)
    requires k <= |raw| && (k < |raw| ==> raw[k] == 0) && forall i :: 0 <= i < k ==> raw[i] != 0
    ensures NulsStay(raw) <==> NulFrom(raw, k)
  {
    if NulsStay(raw) && k < |raw| {
      forall i | k < i < |raw| ensures raw[i] == 0 { assert raw[k] == 0; }
    }
    if NulFrom(raw, k) {
      forall i, j | 0 <= i < j < |raw| && raw[i] == 0 ensures raw[j] == 0 { assert i >= k; }
    }
  }

  lemma NulTail(raw: seq<Byte>, k: nat)
    requires k <= |raw|
    ensures raw[k..] == Nuls(|raw| - k) <==> NulFrom(raw, k)
  {
    if raw[k..] == Nuls(|raw| - k) {
      forall i | k <= i < |raw| ensures raw[i] == 0 { assert raw[k..][i - k] == raw[i]; }
    }
  }

  // What is left without trailing NULs.
  lemma StrippedMeaning(s: seq<Byte>, r: seq<Byte>)
    ensures StripNuls(s) == r <==>
      && |r| <= |s| && (forall i :: 0 <= i < |r| ==> r[i] == s[i])
      && (|r| > 0 ==> r[|r| - 1] != 0) && forall i :: |r| <= i < |s| ==> s[i] == 0
  {
    var t := StripNuls(s);
    hide StripNuls;
    if |r| <= |s| && (forall i :: 0 <= i < |r| ==> r[i] == s[i])
      && (|r| > 0 ==> r[|r| - 1] != 0) && (forall i :: |r| <= i < |s| ==> s[i] == 0)
    {
      assert |t| > 0 ==> t[|t| - 1] == s[|t| - 1];
      assert |r| > 0 ==> r[|r| - 1] == s[|r| - 1];
      assert |r| == |t|;
    }
  }

  lemma FrameSlices(m: Message, rest: seq<Byte>, sha: Hash)
    ensures var b := FrameOf(m, sha) + rest; var n := HEAD + |m.payload|;
      && b[..4] == MAGIC && b[4..16] == Field(m.command)
      && b[16..20] == LE(|m.payload|, 4) && b[20..24] == Checksum(m.payload, sha)
      && b[HEAD..n] == m.payload && b[n..] == rest
  {
    hide Checksum, Field, LE;
    var f, l, c := Field(m.command), LE(|m.payload|, 4), Checksum(m.payload, sha);
    assert FrameOf(m, sha) + rest == MAGIC + (f + (l + (c + (m.payload + rest))));
  }

  lemma FirstOfFrame(m: Message, rest: seq<Byte>, sha: Hash)
    requires Sendable(m)
    ensures First(FrameOf(m, sha) + rest, sha) == One(m, HEAD + |m.payload|)
  {
    FrameSlices(m, rest, sha);
    PowWidths();
    FromLEOfLE(|m.payload|, 4);
    ReadCommandOfField(m.command);
    hide FrameOf, ReadCommand, Checksum, LE, FromLE, Field;
  }

  lemma {:induction false} FrameThenDrain(ms: seq<Message>, rest: seq<Byte>, sha: Hash)
    requires forall i :: 0 <= i < |ms| ==> Sendable(ms[i])
    ensures Drain(FrameAll(ms, sha) + rest, sha) == Prefixed(ms, Drain(rest, sha))
  {
    if |ms| == 0 {
      assert FrameAll(ms, sha) + rest == rest;
    } else {
      var tail := FrameAll(ms[1..], sha) + rest;
      assert [ms[0]] + ms[1..] == ms;
      FrameAllMore(ms[0], ms[1..], rest, sha);
      FirstOfFrame(ms[0], tail, sha);
      FrameSlices(ms[0], tail, sha);
      hide First, FrameOf, FrameAll;
      FrameThenDrain(ms[1..], rest, sha);
      PrefixedTwice([ms[0]], ms[1..], Drain(rest, sha));
    }
  }

  // ---------- draining then framing ----------

  predicate SevenBit(s: seq<Byte>) {
    forall i :: 0 <= i < |s| ==> s[i] < 128
  }

  lemma StrippedIsPadded(s: seq<Byte>)
    requires |s| == FIELD
    ensures Field(StripNuls(s)) == s
  {
    var r := StripNuls(s);
    assert s == r + s[|r|..];
  }

  // A raw command field is the one its command would be written as exactly when no
  // byte of it has the high bit set.
  lemma FieldOfReadCommand(raw: seq<Byte>)
    requires |raw| == FIELD && ReadCommand(raw).Some?
    ensures Field(ReadCommand(raw).value) == raw <==> SevenBit(raw)
  {
    assert ReadCommand(raw).value == StripNuls(Masked(raw));
    hide *;
    StrippedIsPadded(Masked(raw));
    MaskedIff(raw);
  }

  lemma MaskedIff(raw: seq<Byte>)
    ensures Masked(raw) == raw <==> SevenBit(raw)
  {
    if i :| 0 <= i < |raw| && raw[i] >= 128 { assert Masked(raw)[i] != raw[i]; }
  }

  // What an accepted first frame says about the bytes it consumed.
  lemma FirstFrameExact(buf: seq<Byte>, sha: Hash)
    requires First(buf, sha).One?
    ensures var h := First(buf, sha);
      && Sendable(h.message)
      && (FrameOf(h.message, sha) == buf[..h.size] <==> SevenBit(buf[4..16]))
  {
    var m, n := First(buf, sha).message, First(buf, sha).size;
    var len := FromLE(buf[16..20]);
    FieldOfReadCommand(buf[4..16]);
    LEOfFromLE(buf[16..20]);
    assert len == |m.payload| && LE(len, 4) == buf[16..20];
    assert buf[..4] == MAGIC && buf[20..24] == Checksum(m.payload, sha) && buf[HEAD..n] == m.payload;
    hide First, Body, ReadCommand, Checksum, LE, FromLE, Field, MAGIC;
    assert FrameOf(m, sha) == MAGIC + Field(m.command) + LE(len, 4) + Checksum(m.payload, sha) + m.payload;
    hide FrameOf, SevenBit;
    HeadParts(buf, n);
    SameButField(MAGIC, Field(m.command), buf[4..16], LE(len, 4), Checksum(m.payload, sha), m.payload);
  }

  lemma HeadParts(buf: seq<Byte>, n: nat)
    requires HEAD <= n <= |buf|
    ensures buf[..n] == buf[..4] + buf[4..16] + buf[16..20] + buf[20..24] + buf[HEAD..n]
  {
  }

  lemma SameButField(a: seq<Byte>, f: seq<Byte>, g: seq<Byte>, c: seq<Byte>, d: seq<Byte>, e: seq<Byte>)
    requires |f| == |g|
    ensures a + f + c + d + e == a + g + c + d + e <==> f == g
  {
    if a + f + c + d + e == a + g + c + d + e {
      assert (a + f + c + d + e)[|a|..|a| + |f|] == f;
      assert (a + g + c + d + e)[|a|..|a| + |g|] == g;
    }
  }

  // A whole frame of the right network and within the limit stands at the front.
  predicate HasFrame(buf: seq<Byte>) {
    && |buf| >= 24 && buf[..4] == [0xfc, 0xc1, 0xb7, 0xdc]
    && FromLE(buf[16..20]) <= 3 * 1048576 && |buf| >= 24 + FromLE(buf[16..20])
  }

  // What the front of a buffer is read as: the magic and the size are judged on the header alone,
  // the command and then the checksum once the payload is there.
  lemma HeadMeaning(buf: seq<Byte>, sha: Hash)
    ensures First(buf, sha) == Incomplete <==>
      |buf| < 24
      || (buf[..4] == [0xfc, 0xc1, 0xb7, 0xdc] && FromLE(buf[16..20]) <= 3 * 1048576
          && |buf| < 24 + FromLE(buf[16..20]))
    ensures forall magic :: First(buf, sha) == Bad(WrongMagic(magic)) <==>
      |buf| >= 24 && magic == buf[..4] != [0xfc, 0xc1, 0xb7, 0xdc]
    ensures forall len :: First(buf, sha) == Bad(Oversize(len)) <==>
      |buf| >= 24 && buf[..4] == [0xfc, 0xc1, 0xb7, 0xdc] && len == FromLE(buf[16..20]) > 3 * 1048576
    ensures forall raw :: First(buf, sha) == Bad(BadCommand(raw)) <==>
      HasFrame(buf) && raw == buf[4..16] && ReadCommand(raw).None?
    ensures forall command :: First(buf, sha) == Bad(BadChecksum(command)) <==>
      HasFrame(buf) && ReadCommand(buf[4..16]) == Some(command)
      && buf[20..24] != sha(sha(buf[24..24 + FromLE(buf[16..20])]))[..4]
    ensures forall m, n :: First(buf, sha) == One(m, n) <==>
      HasFrame(buf) && ReadCommand(buf[4..16]) == Some(m.command) && n == 24 + |m.payload|
      && m.payload == buf[24..24 + FromLE(buf[16..20])] && buf[20..24] == sha(sha(m.payload))[..4]
  {
    hide ReadCommand, FromLE;
  }

  // From n on, the next frame is not all there or is refused.
  predicate StopsAt(buf: seq<Byte>, n: nat, end: End, sha: Hash) {
    n <= |buf| && match First(buf[n..], sha)
                  case Incomplete => end == Open(buf[n..])
                  case Bad(e) => end == Failed(e)
                  case One(_, _) => false
  }

  lemma StopsLater(buf: seq<Byte>, k: nat, n: nat, end: End, sha: Hash)
    requires k <= |buf| && StopsAt(buf[k..], n, end, sha)
    ensures StopsAt(buf, k + n, end, sha)
  {
    hide First;
    assert buf[k..][n..] == buf[k + n..];
  }

  lemma StopsHere(buf: seq<Byte>, sha: Hash)
    requires !First(buf, sha).One?
    ensures Drain(buf, sha).messages == [] && StopsAt(buf, 0, Drain(buf, sha).end, sha)
    ensures FrameAll([], sha) == []
  {
    hide First;
    assert buf[0..] == buf;
  }

  lemma FrameAllLength(m: Message, ms: seq<Message>, sha: Hash)
    ensures |FrameAll([m] + ms, sha)| == |FrameOf(m, sha)| + |FrameAll(ms, sha)|
  {
    hide FrameOf;
    assert ([m] + ms)[1..] == ms;
  }

  // The drain stops right after the frames it delivered.
  lemma {:induction false} DrainEnds(buf: seq<Byte>, sha: Hash)
    ensures var d := Drain(buf, sha); StopsAt(buf, |FrameAll(d.messages, sha)|, d.end, sha)
    decreases |buf|
  {
    hide *;
    var h := First(buf, sha);
    if h.One? {
      var later := Drain(buf[h.size..], sha);
      DrainMore(buf, sha);
      FrameAllLength(h.message, later.messages, sha);
      DrainEnds(buf[h.size..], sha);
      StopsLater(buf, h.size, |FrameAll(later.messages, sha)|, later.end, sha);
    } else {
      StopsHere(buf, sha);
    }
  }

  // Every frame the drain consumes has a command field free of high bits.
  predicate SevenBitStream(buf: seq<Byte>, sha: Hash)
    decreases |buf|
  {
    match First(buf, sha)
    case Incomplete => true
    case Bad(_) => true
    case One(_, n) => SevenBit(buf[4..16]) && SevenBitStream(buf[n..], sha)
  }

  // A drained stream is its messages framed again, followed by what is left, exactly
  // when no consumed command field has a high bit set.
  lemma {:induction false} DrainThenFrame(buf: seq<Byte>, sha: Hash)
    requires Drain(buf, sha).end.Open?
    ensures var d := Drain(buf, sha);
      && (forall i :: 0 <= i < |d.messages| ==> Sendable(d.messages[i]))
      && (FrameAll(d.messages, sha) + d.end.rest == buf <==> SevenBitStream(buf, sha))
    decreases |buf|
  {
    var h := First(buf, sha);
    if h.Incomplete? {
      assert FrameAll([], sha) + buf == buf;
    } else {
      assert h.One?;
      hide *;
      var m, n, later := h.message, h.size, Drain(buf[h.size..], sha);
      DrainMore(buf, sha);
      FirstFrameExact(buf, sha);
      DrainThenFrame(buf[n..], sha);
      FrameAllMore(m, later.messages, later.end.rest, sha);
      SplitEqual(FrameOf(m, sha), FrameAll(later.messages, sha) + later.end.rest, buf);
    }
  }

  lemma DrainMore(buf: seq<Byte>, sha: Hash)
    requires First(buf, sha).One?
    ensures var h := First(buf, sha); var later := Drain(buf[h.size..], sha);
      && |FrameOf(h.message, sha)| == h.size <= |buf|
      && Drain(buf, sha) == Drained([h.message] + later.messages, later.end)
      && (SevenBitStream(buf, sha) <==> SevenBit(buf[4..16]) && SevenBitStream(buf[h.size..], sha))
  {
    FirstSize(buf, sha);
    hide First, FrameOf, SevenBit;
  }

  lemma FirstSize(buf: seq<Byte>, sha: Hash)
    requires First(buf, sha).One?
    ensures var h := First(buf, sha); h.size == HEAD + |h.message.payload| == |FrameOf(h.message, sha)|
  {
    hide ReadCommand, FromLE, Checksum;
  }

  lemma FrameAllMore(m: Message, ms: seq<Message>, rest: seq<Byte>, sha: Hash)
    ensures FrameAll([m] + ms, sha) + rest == FrameOf(m, sha) + (FrameAll(ms, sha) + rest)
  {
    assert ([m] + ms)[1..] == ms;
    hide FrameOf;
  }

  lemma SplitEqual(x: seq<Byte>, y: seq<Byte>, whole: seq<Byte>)
    requires |x| <= |whole|
    ensures x + y == whole <==> x == whole[..|x|] && y == whole[|x|..]
  {
    if x + y == whole { assert whole[..|x|] == x && whole[|x|..] == y; }
    if x == whole[..|x|] && y == whole[|x|..] { assert x + y == whole; }
  }

  const HIGH_A: seq<Byte> := [0xe1] + Nuls(11)

  const PLAIN_A := Message([0x61], [])

  lemma ReadHighA()
    ensures ReadCommand(HIGH_A) == Some([0x61])
  {
    var m := Masked(HIGH_A);
    assert m[0] == 0x61 && HIGH_A[0] == 0xe1;
    StripNulsAt(m, 1);
    FirstNulAt(HIGH_A, 1);
    assert m[..1] == [0x61];
    assert HIGH_A[1..] == Nuls(11);
  }

  lemma LengthZero()
    ensures FromLE([0, 0, 0, 0]) == 0
  {
    var zero: seq<Byte> := [0, 0, 0, 0];
    assert FromLE(zero[3..]) == 0;
    assert zero[2..][1..] == zero[3..] && zero[1..][1..] == zero[2..];
  }

  // The high bit is really lost: "a" with bit seven set is accepted and read as "a".
  lemma HighBitExample(sha: Hash)
    ensures var buf := HighBuf(sha);
      && Drain(buf, sha) == Drained([PLAIN_A], Open([]))
      && FrameAll([PLAIN_A], sha) != buf
  {
    var buf := HighBuf(sha);
    HighFirst(sha);
    hide *;
    FirstFrameExact(buf, sha);
    assert buf[..24] == buf;
    DrainOne(buf, PLAIN_A, sha);
    FrameAllOne(PLAIN_A, sha);
  }

  lemma DrainOne(buf: seq<Byte>, m: Message, sha: Hash)
    requires First(buf, sha) == One(m, |buf|)
    ensures Drain(buf, sha) == Drained([m], Open([]))
  {
    assert buf[|buf|..] == [] && Drain([], sha) == Drained([], Open([]));
    hide First;
  }

  lemma FrameAllOne(m: Message, sha: Hash)
    ensures FrameAll([m], sha) == FrameOf(m, sha)
  {
    assert FrameOf(m, sha) + [] == FrameOf(m, sha);
    hide FrameOf;
  }

  function HighBuf(sha: Hash): seq<Byte> {
    MAGIC + HIGH_A + [0, 0, 0, 0] + Checksum([], sha)
  }

  lemma HighFirst(sha: Hash)
    ensures var buf := HighBuf(sha);
      |buf| == 24 && !SevenBit(buf[4..16]) && First(buf, sha) == One(PLAIN_A, 24)
  {
    var zero: seq<Byte> := [0, 0, 0, 0];
    var buf, sum := HighBuf(sha), Checksum([], sha);
    assert |MAGIC| == 4 && |HIGH_A| == 12 && HIGH_A[0] >= 128;
    assert buf == MAGIC + HIGH_A + zero + sum;
    ReadHighA();
    LengthZero();
    hide Checksum, ReadCommand, FromLE, HIGH_A, MAGIC, HighBuf;
    HeaderSlices(MAGIC, HIGH_A, zero, sum);
    assert buf[24..24] == [];
  }

  lemma HeaderSlices(a: seq<Byte>, f: seq<Byte>, c: seq<Byte>, d: seq<Byte>)
    requires |a| == |c| == |d| == 4 && |f| == 12
    ensures var b := a + f + c + d;
      b[..4] == a && b[4..16] == f && b[16..20] == c && b[20..24] == d
  {
  }

  // ---------- the socket's buffer ----------

  class Reader {
    var buf: seq<Byte>
    var failed: Option<FrameError>

    constructor ()
      ensures End() == Open([])
    {
      buf, failed := [], None;
    }

    function End(): End
      reads this
    {
      if failed.Some? then Failed(failed.value) else Open(buf)
    }

    // The data event: the pending bytes and the chunk are drained together.
    method Receive(chunk: seq<Byte>, sha: Hash) returns (messages: seq<Message>)
      modifies this
      ensures Feed(Drained([], old(End())), chunk, sha) == Drained(messages, End())
    {
      if failed.Some? { return []; }
      var end;
      messages, end := DrainFrames(buf + chunk, sha);
      match end
      case Failed(e) => failed := Some(e);
      case Open(rest) => buf := rest;
    }
  }
}
