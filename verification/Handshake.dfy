/**
 The capture handshake (captureP2PMnListDiffProbe.cjs): a state machine over
 frame-validated messages that may emit one capture, or refuse, and then is closed.
 The range of protocol versions the paired decoder reads is a parameter.
 */
module Handshake {
  import opened Bytes
  import opened Outcomes
  import Base58

  const MIN_PEER_PROTO_VERSION := 70221
  const VERSION_FIXED_PREFIX := 20

  datatype Command = Version | Verack | Ping | Pong | GetMnListDiff | MnListDiff | Other(name: string)

  datatype Message = Message(command: Command, payload: seq<Byte>)

  datatype Config = Config(offer: int, lo: int, hi: int, base: string, tip: string)

  datatype State = AwaitVersion | AwaitVerack | Requested | Closed

  datatype Session = Session(state: State, peer: Option<int>, seen: seq<Command>)

  datatype Reason =
    | BeforeVersion(command: Command)
    | SecondVersion
    | ShortVersion(length: nat)
    | BelowFloor(version: int)
    | Unreadable(negotiated: int)
    | Unrequested

  datatype Record = Record(offered: int, peer: int, common: int, base: string, tip: string,
                           payload: seq<Byte>, seen: seq<Command>)

  // What one message makes the session do; Throw is an exception escaping `handle`.
  datatype Action =
    | Send(command: Command, payload: seq<Byte>)
    | Capture(record: Record)
    | Refuse(reason: Reason)
    | Throw

  datatype Stepped = Stepped(session: Session, actions: seq<Action>)

  predicate Constructible(cfg: Config) {
    cfg.lo <= cfg.offer <= cfg.hi
  }

  function Min(a: int, b: int): int {
    if a < b then a else b
  }

  // ---------- the peer's version message ----------

  function Int32LE(s: seq<Byte>): (v: int)
    requires |s| == 4
  {
    var u := FromLE(s);
    if u < 0x8000_0000 then u else u - 0x1_0000_0000
  }

  function ParsePeerVersion(payload: seq<Byte>): Result<int, Reason> {
    if |payload| < VERSION_FIXED_PREFIX then Err(ShortVersion(|payload|))
    else
      var version := Int32LE(payload[..4]);
      if version < MIN_PEER_PROTO_VERSION then Err(BelowFloor(version)) else Ok(version)
  }

  // ---------- the request ----------

  function HexValue(c: char): (v: nat)
    requires Base58.IsHexLetter(c)
    ensures v < 16
  {
    if c <= '9' then c as int - '0' as int else c as int - 'a' as int + 10
  }

  predicate IsDisplayHash(s: string) {
    |s| == 64 && forall i :: 0 <= i < 64 ==> Base58.IsHexLetter(s[i])
  }

  // The 32 bytes of a display hash in wire order, last pair first.
  function Uint256(s: string): (r: Option<seq<Byte>>)
    ensures r.Some? <==> IsDisplayHash(s)
    ensures r.Some? ==> |r.value| == 32
  {
    if !IsDisplayHash(s) then None
    else Some(seq(32, i requires 0 <= i < 32 => (16 * HexValue(s[62 - 2 * i]) + HexValue(s[63 - 2 * i])) as Byte))
  }

  function Request(cfg: Config): (r: Option<seq<Byte>>)
    ensures r.Some? <==> IsDisplayHash(cfg.base) && IsDisplayHash(cfg.tip)
  {
    if Uint256(cfg.base).None? || Uint256(cfg.tip).None? then None
    else Some(Uint256(cfg.base).value + Uint256(cfg.tip).value)
  }

  // The bytes are the displayed hash read backwards, two digits each.
  lemma Uint256Displays(s: string)
    requires IsDisplayHash(s)
    ensures Base58.ReversedHex(Uint256(s).value) == s
  {
    var b, h := Uint256(s).value, Base58.ReversedHex(Uint256(s).value);
    assert |s| == 64;
    hide *;
    Base58.ReversedHexSize(b);
    forall i | 0 <= i < 64 ensures h[i] == s[i] { PairDisplays(s, i / 2); }
  }

  lemma PairDisplays(s: string, j: nat)
    requires IsDisplayHash(s) && j < 32
    ensures var h := Base58.ReversedHex(Uint256(s).value);
      |h| == 64 && h[2 * j] == s[2 * j] && h[2 * j + 1] == s[2 * j + 1]
  {
    hide *;
    PairByte(s, j);
    Base58.ReversedHexAt(Uint256(s).value, j);
    HexDigitsOf(s[2 * j], s[2 * j + 1]);
  }

  lemma PairByte(s: string, j: nat)
    requires IsDisplayHash(s) && j < 32
    ensures |s| == 64 && Base58.IsHexLetter(s[2 * j]) && Base58.IsHexLetter(s[2 * j + 1])
    ensures Uint256(s).Some? && |Uint256(s).value| == 32
    ensures Uint256(s).value[31 - j] == 16 * HexValue(s[2 * j]) + HexValue(s[2 * j + 1])
  {
    hide HexValue;
  }

  lemma HexDigitsOf(high: char, low: char)
    requires Base58.IsHexLetter(high) && Base58.IsHexLetter(low)
    ensures var x := 16 * HexValue(high) + HexValue(low);
      x < 256 && Base58.HEX[x / 16] == high && Base58.HEX[x % 16] == low
  {
    assert (16 * HexValue(high) + HexValue(low)) / 16 == HexValue(high);
    HexDigitOf(high);
    HexDigitOf(low);
  }

  lemma HexDigitOf(c: char)
    requires Base58.IsHexLetter(c)
    ensures Base58.HEX[HexValue(c)] == c
  {
    Base58.HexLettersAre();
    assert Base58.HexLetter(HexValue(c)) == c;
  }

  // The request is the base hash and then the tip hash, 32 bytes each.
  lemma RequestDisplays(cfg: Config)
    requires Request(cfg).Some?
    ensures var r := Request(cfg).value;
      |r| == 64 && Base58.ReversedHex(r[..32]) == cfg.base && Base58.ReversedHex(r[32..]) == cfg.tip
  {
    Uint256Displays(cfg.base);
    Uint256Displays(cfg.tip);
    var b, t := Uint256(cfg.base).value, Uint256(cfg.tip).value;
    assert (b + t)[..32] == b && (b + t)[32..] == t;
    hide Uint256;
  }

  // The peer's version is the first four bytes, low byte first, as a signed number; it is
  // taken from twenty bytes on and from the floor on.
  lemma VersionMeaning(payload: seq<Byte>)
    ensures |payload| < 20 ==> ParsePeerVersion(payload) == Err(ShortVersion(|payload|))
    ensures |payload| >= 20 ==>
      var a: int, b: int, c: int, d: int := payload[0], payload[1], payload[2], payload[3];
      var u := a + 0x100 * b + 0x1_0000 * c + 0x100_0000 * d;
      var v := if d < 0x80 then u else u - 0x1_0000_0000;
      ParsePeerVersion(payload) == if v < 70221 then Err(BelowFloor(v)) else Ok(v)
  {
    if |payload| >= 20 {
      assert payload[..4] == [payload[0], payload[1], payload[2], payload[3]];
      LittleEndianWords(payload[0], payload[1], payload[2], payload[3]);
      hide FromLE;
    }
  }

  // ---------- one message ----------

  const START := Session(AwaitVersion, None, [])

  function Stop(s: Session, reason: Reason): Stepped {
    Stepped(s.(state := Closed), [Refuse(reason)])
  }

  function OnVersion(cfg: Config, s: Session, payload: seq<Byte>): Stepped {
    if s.state != AwaitVersion then Stop(s, SecondVersion)
    else match ParsePeerVersion(payload)
      case Err(e) => Stop(s, e)
      case Ok(v) =>
        var negotiated := Min(cfg.offer, v);
        if cfg.lo <= negotiated <= cfg.hi
        then Stepped(s.(state := AwaitVerack, peer := Some(v)), [Send(Verack, [])])
        else Stop(s.(peer := Some(v)), Unreadable(negotiated))
  }

  // The state moves on before the request is built, and building it may throw.
  function OnVerack(cfg: Config, s: Session): Stepped {
    if s.state != AwaitVerack then Stepped(s, [])
    else Stepped(s.(state := Requested),
                 if Request(cfg).None? then [Throw] else [Send(GetMnListDiff, Request(cfg).value)])
  }

  function OnDiff(cfg: Config, s: Session, payload: seq<Byte>): Stepped {
    if s.state != Requested || s.peer.None? then Stop(s, Unrequested)
    else Stepped(s.(state := Closed),
                 [Capture(Record(cfg.offer, s.peer.value, Min(cfg.offer, s.peer.value), cfg.base, cfg.tip,
                                 payload, s.seen))])
  }

  function Noted(s: Session, c: Command): Session {
    if c in s.seen then s else s.(seen := s.seen + [c])
  }

  function Step(cfg: Config, before: Session, m: Message): Stepped {
    var s := Noted(before, m.command);
    if before.state.Closed? then Stepped(before, [])
    else if s.state.AwaitVersion? && m.command != Version then Stop(s, BeforeVersion(m.command))
    else match m.command
      case Version => OnVersion(cfg, s, m.payload)
      case Verack => OnVerack(cfg, s)
      case Ping => Stepped(s, [Send(Pong, m.payload)])
      case MnListDiff => OnDiff(cfg, s, m.payload)
      case _ => Stepped(s, [])
  }

  class Handshake {
    const cfg: Config
    var state: State
    var peer: Option<int>
    var seen: seq<Command>

    constructor (c: Config)
      requires Constructible(c)
      ensures cfg == c && Now() == START
    {
      cfg, state, peer, seen := c, AwaitVersion, None, [];
    }

    function Now(): Session
      reads this
    {
      Session(state, peer, seen)
    }

    // A session past the version exchange knows the peer's version.
    ghost predicate Valid()
      reads this
    {
      state == AwaitVerack || state == Requested ==> peer.Some?
    }

    method Refused(reason: Reason) returns (actions: seq<Action>)
      modifies this`state
      ensures state == Closed && actions == [Refuse(reason)]
    {
      state := Closed;
      return [Refuse(reason)];
    }

    method Handle(m: Message) returns (actions: seq<Action>)
      requires Valid()
      modifies this
      ensures Stepped(Now(), actions) == Step(cfg, old(Now()), m)
      ensures Valid()
    {
      if state == Closed { return []; }
      if m.command !in seen { seen := seen + [m.command]; }
      if state == AwaitVersion && m.command != Version {
        actions := Refused(BeforeVersion(m.command));
        return;
      }
      if m.command == Version {
        if state != AwaitVersion { actions := Refused(SecondVersion); return; }
        var parsed := ParsePeerVersion(m.payload);
        if parsed.Err? { actions := Refused(parsed.error); return; }
        peer := Some(parsed.value);
        var negotiated := if cfg.offer < parsed.value then cfg.offer else parsed.value;
        if negotiated < cfg.lo || negotiated > cfg.hi { actions := Refused(Unreadable(negotiated)); return; }
        state := AwaitVerack;
        return [Send(Verack, [])];
      }
      if m.command == Verack {
        if state != AwaitVerack { return []; }
        state := Requested;
        var base, tip := Uint256(cfg.base), Uint256(cfg.tip);
        if base.None? || tip.None? { return [Throw]; }
        return [Send(GetMnListDiff, base.value + tip.value)];
      }
      if m.command == Ping { return [Send(Pong, m.payload)]; }
      if m.command == MnListDiff {
        if state != Requested { actions := Refused(Unrequested); return; }
        var common := if cfg.offer < peer.value then cfg.offer else peer.value;
        state := Closed;
        return [Capture(Record(cfg.offer, peer.value, common, cfg.base, cfg.tip, m.payload, seen))];
      }
      return [];
    }
  }

  // The exported constructor refuses an offer the paired decoder cannot read.
  method Create(cfg: Config) returns (r: Option<Handshake>)
    ensures r.Some? <==> Constructible(cfg)
    ensures r.Some? ==> fresh(r.value) && r.value.cfg == cfg && r.value.Now() == START && r.value.Valid()
  {
    if cfg.offer < cfg.lo || cfg.offer > cfg.hi { return None; }
    var h := new Handshake(cfg);
    return Some(h);
  }

  // ---------- whole runs ----------

  function Run(cfg: Config, ms: seq<Message>): Stepped {
    if |ms| == 0 then Stepped(START, [])
    else
      var was := Run(cfg, ms[..|ms| - 1]);
      var now := Step(cfg, was.session, ms[|ms| - 1]);
      Stepped(now.session, was.actions + now.actions)
  }

  // A version message the session goes on from.
  predicate Welcome(cfg: Config, m: Message) {
    && m.command == Version
    && ParsePeerVersion(m.payload).Ok?
    && cfg.lo <= Min(cfg.offer, ParsePeerVersion(m.payload).value) <= cfg.hi
  }

  predicate Opened(cfg: Config, ms: seq<Message>) {
    && |ms| > 0 && Welcome(cfg, ms[0])
    && forall i :: 1 <= i < |ms| ==> Harmless(ms[i])
  }

  predicate Harmless(m: Message) {
    m.command != Version && m.command != MnListDiff
  }

  predicate HasVerack(ms: seq<Message>) {
    exists i :: 1 <= i < |ms| && ms[i].command == Verack
  }

  // The state after a run, read off the run's messages alone.
  function Phase(cfg: Config, ms: seq<Message>): State {
    if |ms| == 0 then AwaitVersion
    else if !Opened(cfg, ms) then Closed
    else if HasVerack(ms) then Requested
    else AwaitVerack
  }

  function PeerOf(ms: seq<Message>): (v: int)
    requires |ms| > 0
  {
    match ParsePeerVersion(ms[0].payload)
    case Ok(v) => v
    case Err(_) => 0
  }

  lemma OpenedGrows(cfg: Config, ms: seq<Message>)
    requires |ms| > 1
    ensures var p := ms[..|ms| - 1]; var m := ms[|ms| - 1];
      && (Opened(cfg, ms) <==> Opened(cfg, p) && Harmless(m))
      && (HasVerack(ms) <==> HasVerack(p) || m.command == Verack)
  {
    var p, m := ms[..|ms| - 1], ms[|ms| - 1];
    assert forall i :: 0 <= i < |p| ==> p[i] == ms[i];
    if HasVerack(p) {
      var i :| 1 <= i < |p| && p[i].command == Verack;
      assert ms[i].command == Verack;
    }
  }

  function NextState(cfg: Config, state: State, m: Message): State {
    match state
    case AwaitVersion => if Welcome(cfg, m) then AwaitVerack else Closed
    case AwaitVerack => if !Harmless(m) then Closed else if m.command == Verack then Requested else AwaitVerack
    case Requested => if Harmless(m) then Requested else Closed
    case Closed => Closed
  }

  lemma StepState(cfg: Config, s: Session, m: Message)
    ensures var now := Step(cfg, s, m).session;
      && now.state == NextState(cfg, s.state, m)
      && (s.state == AwaitVersion && Welcome(cfg, m) ==> now.peer == Some(ParsePeerVersion(m.payload).value))
      && (s.state != AwaitVersion ==> now.peer == s.peer)
  {
    hide Request, ParsePeerVersion;
  }

  lemma {:induction false} PhaseOfRun(cfg: Config, ms: seq<Message>)
    ensures var s := Run(cfg, ms).session;
      && s.state == Phase(cfg, ms)
      && (Opened(cfg, ms) ==> s.peer == Some(PeerOf(ms)))
  {
    if |ms| > 0 {
      PhaseOfRun(cfg, ms[..|ms| - 1]);
      StepState(cfg, Run(cfg, ms[..|ms| - 1]).session, ms[|ms| - 1]);
      hide Step;
      if |ms| > 1 {
        OpenedGrows(cfg, ms);
        hide Opened, HasVerack, ParsePeerVersion;
      }
    }
  }

  // What the message m is answered with after the messages ms, read off ms alone.
  function Answer(cfg: Config, ms: seq<Message>, m: Message): seq<Action> {
    match Phase(cfg, ms)
    case Closed => []
    case AwaitVersion =>
      if m.command != Version then [Refuse(BeforeVersion(m.command))]
      else if Welcome(cfg, m) then [Send(Verack, [])]
      else (match ParsePeerVersion(m.payload)
            case Err(e) => [Refuse(e)]
            case Ok(v) => [Refuse(Unreadable(Min(cfg.offer, v)))])
    case AwaitVerack =>
      if m.command == Version then [Refuse(SecondVersion)]
      else if m.command == MnListDiff then [Refuse(Unrequested)]
      else if m.command == Ping then [Send(Pong, m.payload)]
      else if m.command != Verack then []
      else if Request(cfg).None? then [Throw] else [Send(GetMnListDiff, Request(cfg).value)]
    case Requested =>
      if m.command == Version then [Refuse(SecondVersion)]
      else if m.command == MnListDiff then
        [Capture(Record(cfg.offer, PeerOf(ms), Min(cfg.offer, PeerOf(ms)), cfg.base, cfg.tip,
                        m.payload, FirstSeen(ms + [m])))]
      else if m.command == Ping then [Send(Pong, m.payload)]
      else []
  }

  lemma AnswerOfRun(cfg: Config, ms: seq<Message>, m: Message)
    ensures Run(cfg, ms + [m]).actions == Run(cfg, ms).actions + Answer(cfg, ms, m)
  {
    var s := Run(cfg, ms).session;
    assert (ms + [m])[..|ms|] == ms;
    PhaseOfRun(cfg, ms);
    if s.state != Closed {
      SeenOfRun(cfg, ms + [m]);
      StepSees(cfg, s, m);
    }
    hide Run, FirstSeen, Request, ParsePeerVersion, Opened, HasVerack, PeerOf;
    StepAnswers(cfg, ms, s, m);
  }

  lemma StepAnswers(cfg: Config, ms: seq<Message>, s: Session, m: Message)
    requires s.state == Phase(cfg, ms) && (Opened(cfg, ms) ==> s.peer == Some(PeerOf(ms)))
    requires s.state != Closed ==> Step(cfg, s, m).session.seen == FirstSeen(ms + [m])
    ensures Step(cfg, s, m).actions == Answer(cfg, ms, m)
  {
    hide FirstSeen, Request, ParsePeerVersion, Opened, HasVerack, PeerOf;
  }

  predicate Ends(a: Action) {
    a.Capture? || a.Refuse?
  }

  // One message makes the session do at most one thing, and it ends exactly when it closes.
  lemma StepFacts(cfg: Config, s: Session, m: Message)
    ensures var r := Step(cfg, s, m);
      && |r.actions| <= 1
      && (s.state == Closed ==> r == Stepped(s, []))
      && (s.state != Closed ==> (r.session.state == Closed <==> |r.actions| == 1 && Ends(r.actions[0])))
  {
    hide Request, ParsePeerVersion;
  }

  predicate NoEnd(actions: seq<Action>) {
    forall i :: 0 <= i < |actions| ==> !Ends(actions[i])
  }

  predicate EndedBy(actions: seq<Action>) {
    |actions| > 0 && Ends(actions[|actions| - 1]) && NoEnd(actions[..|actions| - 1])
  }

  // A session ends at most once, exactly when it is closed, and does nothing after.
  lemma {:induction false} EndsOnce(cfg: Config, ms: seq<Message>)
    ensures var r := Run(cfg, ms);
      if r.session.state == Closed then EndedBy(r.actions) else NoEnd(r.actions)
  {
    if |ms| > 0 {
      var was := Run(cfg, ms[..|ms| - 1]);
      EndsOnce(cfg, ms[..|ms| - 1]);
      StepFacts(cfg, was.session, ms[|ms| - 1]);
      var now := Step(cfg, was.session, ms[|ms| - 1]);
      assert Run(cfg, ms) == Stepped(now.session, was.actions + now.actions);
      hide *;
      OneMoreAction(was.actions, now.actions);
    } else {
      assert NoEnd([]);
    }
  }

  lemma OneMoreAction(was: seq<Action>, now: seq<Action>)
    requires |now| <= 1
    ensures now == [] ==> was + now == was
    ensures |now| == 1 && NoEnd(was) ==> if Ends(now[0]) then EndedBy(was + now) else NoEnd(was + now)
  {
    var all := was + now;
    assert |now| == 1 ==> all[..|all| - 1] == was;
    hide Ends;
  }

  // ---------- which runs capture, and what ----------

  // Message k is the diff that a run answers with a capture.
  predicate Completes(cfg: Config, ms: seq<Message>, k: nat) {
    && 0 < k < |ms|
    && Opened(cfg, ms[..k]) && HasVerack(ms[..k])
    && ms[k].command == MnListDiff
  }

  function FirstSeen(ms: seq<Message>): seq<Command> {
    if |ms| == 0 then []
    else
      var before := FirstSeen(ms[..|ms| - 1]);
      var c := ms[|ms| - 1].command;
      if c in before then before else before + [c]
  }

  function RecordAt(cfg: Config, ms: seq<Message>, k: nat): Record
    requires k < |ms|
  {
    Record(cfg.offer, PeerOf(ms), Min(cfg.offer, PeerOf(ms)), cfg.base, cfg.tip, ms[k].payload, FirstSeen(ms[..k + 1]))
  }

  lemma {:induction false} SeenMeaning(ms: seq<Message>)
    ensures forall i, j :: 0 <= i < j < |FirstSeen(ms)| ==> FirstSeen(ms)[i] != FirstSeen(ms)[j]
    ensures forall c :: c in FirstSeen(ms) <==> exists i :: 0 <= i < |ms| && ms[i].command == c
  {
    if |ms| > 0 {
      var p := ms[..|ms| - 1];
      SeenMeaning(p);
      assert forall i :: 0 <= i < |p| ==> p[i] == ms[i];
    }
  }

  // Until a session closes, the commands it has noted are the distinct ones it was sent.
  lemma {:induction false} SeenOfRun(cfg: Config, ms: seq<Message>)
    requires |ms| == 0 || Run(cfg, ms[..|ms| - 1]).session.state != Closed
    ensures Run(cfg, ms).session.seen == FirstSeen(ms)
  {
    if |ms| > 0 {
      var p := ms[..|ms| - 1];
      if |p| > 0 { EarlierOpen(cfg, p); SeenOfRun(cfg, p); }
      var was := Run(cfg, p).session;
      StepSees(cfg, was, ms[|ms| - 1]);
      hide Step;
    }
  }

  lemma StepSees(cfg: Config, s: Session, m: Message)
    requires s.state != Closed
    ensures Step(cfg, s, m).session.seen == if m.command in s.seen then s.seen else s.seen + [m.command]
  {
    hide Request, ParsePeerVersion;
  }

  lemma EarlierOpen(cfg: Config, ms: seq<Message>)
    requires |ms| > 0 && Run(cfg, ms).session.state != Closed
    ensures Run(cfg, ms[..|ms| - 1]).session.state != Closed
  {
  }

  lemma LastStepCaptures(cfg: Config, ms: seq<Message>, rec: Record)
    requires |ms| > 0
    ensures var k := |ms| - 1; var s := Run(cfg, ms[..k]).session;
      Capture(rec) in Step(cfg, s, ms[k]).actions <==> Completes(cfg, ms, k) && rec == RecordAt(cfg, ms, k)
  {
    var k := |ms| - 1;
    var s := Run(cfg, ms[..k]).session;
    PhaseOfRun(cfg, ms[..k]);
    assert ms[..k + 1] == ms;
    if s.state != Closed {
      SeenOfRun(cfg, ms);
      assert Run(cfg, ms).session == Step(cfg, s, ms[k]).session;
    }
    assert k > 0 ==> PeerOf(ms) == PeerOf(ms[..k]);
    hide Opened, HasVerack, Run, FirstSeen, Request, ParsePeerVersion, PeerOf;
    StepCaptures(cfg, s, ms[k], rec);
    hide Step;
  }

  lemma StepCaptures(cfg: Config, s: Session, m: Message, rec: Record)
    ensures var r := Step(cfg, s, m);
      Capture(rec) in r.actions <==>
        && s.state == Requested && m.command == MnListDiff && s.peer.Some?
        && rec == Record(cfg.offer, s.peer.value, Min(cfg.offer, s.peer.value), cfg.base, cfg.tip,
                         m.payload, r.session.seen)
  {
    hide Request, ParsePeerVersion;
  }

  lemma CompletesEarlier(cfg: Config, ms: seq<Message>, k: nat)
    requires k < |ms| - 1
    ensures var p := ms[..|ms| - 1]; Completes(cfg, ms, k) <==> Completes(cfg, p, k)
    ensures k > 0 ==> RecordAt(cfg, ms, k) == RecordAt(cfg, ms[..|ms| - 1], k)
  {
    var p := ms[..|ms| - 1];
    assert ms[..k] == p[..k] && ms[..k + 1] == p[..k + 1];
  }

  // The run has been completed by some message with this record.
  ghost predicate CompletedAs(cfg: Config, ms: seq<Message>, rec: Record) {
    exists k :: Completes(cfg, ms, k) && rec == RecordAt(cfg, ms, k)
  }

  lemma CompletedGrows(cfg: Config, ms: seq<Message>, rec: Record)
    requires |ms| > 0
    ensures var n := |ms| - 1;
      CompletedAs(cfg, ms, rec) <==>
        CompletedAs(cfg, ms[..n], rec) || (Completes(cfg, ms, n) && rec == RecordAt(cfg, ms, n))
  {
    var n := |ms| - 1;
    forall k: nat | 0 < k < n
      ensures Completes(cfg, ms, k) <==> Completes(cfg, ms[..n], k)
      ensures RecordAt(cfg, ms, k) == RecordAt(cfg, ms[..n], k)
    {
      CompletesEarlier(cfg, ms, k);
    }
    hide RecordAt, Opened, HasVerack;
    if k: nat :| 0 < k < n && Completes(cfg, ms[..n], k) && rec == RecordAt(cfg, ms[..n], k) {
      assert Completes(cfg, ms, k);
    }
  }

  // A run captures a record exactly when its first message is a version the session goes on
  // from, a verack follows, no second version and no early diff arrives, and then a diff does.
  lemma {:induction false} CaptureExactly(cfg: Config, ms: seq<Message>, rec: Record)
    ensures Capture(rec) in Run(cfg, ms).actions <==> CompletedAs(cfg, ms, rec)
  {
    if |ms| > 0 {
      CaptureExactly(cfg, ms[..|ms| - 1], rec);
      LastStepCaptures(cfg, ms, rec);
      CompletedGrows(cfg, ms, rec);
      hide Step, RecordAt, Completes, CompletedAs;
    }
  }

  // The common version of a capture is the smaller of the two offers and is readable.
  lemma CaptureIsReadable(cfg: Config, ms: seq<Message>, rec: Record)
    requires Capture(rec) in Run(cfg, ms).actions
    ensures rec.common == Min(cfg.offer, rec.peer) && cfg.lo <= rec.common <= cfg.hi
    ensures rec.peer >= MIN_PEER_PROTO_VERSION && rec.offered == cfg.offer
    ensures Version in rec.seen && Verack in rec.seen && MnListDiff in rec.seen
  {
    CaptureExactly(cfg, ms, rec);
    var k :| 0 < k < |ms| && Completes(cfg, ms, k) && rec == RecordAt(cfg, ms, k);
    var upTo := ms[..k + 1];
    SeenMeaning(upTo);
    var i :| 1 <= i < k && ms[..k][i].command == Verack;
    assert upTo[0].command == Version && upTo[i].command == Verack && upTo[k].command == MnListDiff;
    assert ms[..k][0] == ms[0];
  }

  // ---------- a capture answers our own request ----------

  predicate Asked(cfg: Config, actions: seq<Action>) {
    Request(cfg).Some? && Send(GetMnListDiff, Request(cfg).value) in actions
  }

  lemma {:induction false} RequestSent(cfg: Config, ms: seq<Message>)
    requires Request(cfg).Some? && Run(cfg, ms).session.state == Requested
    ensures Asked(cfg, Run(cfg, ms).actions)
  {
    var was := Run(cfg, ms[..|ms| - 1]);
    if was.session.state == Requested { RequestSent(cfg, ms[..|ms| - 1]); }
  }

  // Every capture in a run comes after the request in that run.
  predicate CapturesAnswerRequest(cfg: Config, ms: seq<Message>) {
    var actions := Run(cfg, ms).actions;
    forall i :: 0 <= i < |actions| && actions[i].Capture? ==> Asked(cfg, actions[..i])
  }

  lemma {:induction false} CaptureFollowsRequest(cfg: Config, ms: seq<Message>)
    requires Request(cfg).Some?
    ensures CapturesAnswerRequest(cfg, ms)
  {
    if |ms| > 0 {
      var p := ms[..|ms| - 1];
      CaptureFollowsRequest(cfg, p);
      var was := Run(cfg, p);
      var now := Step(cfg, was.session, ms[|ms| - 1]);
      StepFacts(cfg, was.session, ms[|ms| - 1]);
      OnlyRequestedCaptures(cfg, was.session, ms[|ms| - 1]);
      assert Run(cfg, ms).actions == was.actions + now.actions;
      hide Run, Step, Request, Asked;
      if was.session.state == Requested { RequestSent(cfg, p); }
      AnswersGrow(cfg, was.actions, now.actions);
    }
  }

  lemma OnlyRequestedCaptures(cfg: Config, s: Session, m: Message)
    ensures forall a :: a in Step(cfg, s, m).actions && a.Capture? ==> s.state == Requested
  {
    hide Request, ParsePeerVersion;
  }

  lemma AnswersGrow(cfg: Config, was: seq<Action>, now: seq<Action>)
    requires forall i :: 0 <= i < |was| && was[i].Capture? ==> Asked(cfg, was[..i])
    requires |now| <= 1 && (|now| == 1 && now[0].Capture? ==> Asked(cfg, was))
    ensures var all := was + now;
      forall i :: 0 <= i < |all| && all[i].Capture? ==> Asked(cfg, all[..i])
  {
    hide Asked;
    var all := was + now;
    forall i | 0 <= i < |all| && all[i].Capture? ensures Asked(cfg, all[..i]) {
      if i < |was| {
        assert all[..i] == was[..i];
      } else {
        assert all[..i] == was;
      }
    }
  }

  function Volunteered(cfg: Config): seq<Message>
    requires 0 <= cfg.offer < Pow(256, 4)
  {
    [Message(Version, LE(cfg.offer, 4) + LE(0, 16)), Message(Verack, []), Message(MnListDiff, [])]
  }

  lemma OwnOfferWelcome(cfg: Config)
    requires Constructible(cfg) && MIN_PEER_PROTO_VERSION <= cfg.offer < 0x8000_0000 < Pow(256, 4)
    ensures Welcome(cfg, Volunteered(cfg)[0])
  {
    var payload := LE(cfg.offer, 4) + LE(0, 16);
    assert payload[..4] == LE(cfg.offer, 4);
    FromLEOfLE(cfg.offer, 4);
    hide LE, FromLE, Pow;
    assert ParsePeerVersion(payload) == Ok(cfg.offer);
  }

  lemma VolunteeredCompletes(cfg: Config)
    requires Constructible(cfg) && MIN_PEER_PROTO_VERSION <= cfg.offer < 0x8000_0000 < Pow(256, 4)
    ensures Completes(cfg, Volunteered(cfg), 2)
  {
    OwnOfferWelcome(cfg);
    var ms := Volunteered(cfg);
    assert ms[1].command == Verack && ms[2].command == MnListDiff && |ms| == 3;
    hide Welcome, Volunteered, Pow, LE;
    assert ms[..2][0] == ms[0] && ms[..2][1] == ms[1];
  }

  // The request is only built after the state has moved on, so with a hash that is not
  // 64 lower-case hex digits nothing is ever sent and a volunteered diff is captured.
  lemma UnaskedCapture(cfg: Config)
    requires Constructible(cfg) && MIN_PEER_PROTO_VERSION <= cfg.offer < 0x8000_0000 < Pow(256, 4)
    requires Request(cfg).None?
    ensures !CapturesAnswerRequest(cfg, Volunteered(cfg))
  {
    var ms := Volunteered(cfg);
    assert |ms| == 3;
    hide Run, RecordAt, Welcome, Completes, Volunteered, Request;
    VolunteeredCompletes(cfg);
    var rec := RecordAt(cfg, ms, 2);
    CaptureExactly(cfg, ms, rec);
    var i :| 0 <= i < |Run(cfg, ms).actions| && Run(cfg, ms).actions[i] == Capture(rec);
    assert !Asked(cfg, Run(cfg, ms).actions[..i]);
  }

  // Over all message sequences, captures answer our own request exactly when both
  // configured hashes are display hashes.
  lemma RequestedIffHashesValid(cfg: Config)
    requires Constructible(cfg) && MIN_PEER_PROTO_VERSION <= cfg.offer < 0x8000_0000
    ensures (forall ms :: CapturesAnswerRequest(cfg, ms)) <==> IsDisplayHash(cfg.base) && IsDisplayHash(cfg.tip)
  {
    PowWidths();
    if Request(cfg).Some? {
      forall ms ensures CapturesAnswerRequest(cfg, ms) { CaptureFollowsRequest(cfg, ms); }
    } else {
      UnaskedCapture(cfg);
    }
  }
}
