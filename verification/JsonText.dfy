/**
 JSON values as the canonical serializer sees them, and their text.

 Strings and texts are sequences of UTF-16 code units.  `Write` gives the text of a value
 with its object members in the order they stand; escapes are the short ones where they
 exist and lower-case hexadecimal otherwise.  The reference parser reads a text from the
 left and returns the value together with what follows it, and every written value is
 proved to be recovered that way.
 */
module JsonText {
  import opened Bytes

  type Unit = u: int | 0 <= u < 0x1_0000

  type Text = seq<Unit>

  datatype Member<+V> = Member(key: Text, value: V)

  // OtherNumber stands for NaN, infinities and fractions, Unsupported for every value
  // that is not null, a boolean, a number, a string, an array or a plain object.
  datatype Json =
    | Null
    | Bool(b: bool)
    | Num(n: int)
    | OtherNumber
    | Str(s: Text)
    | Arr(items: seq<Json>)
    | Obj(members: seq<Member<Json>>)
    | Unsupported

  // ---------- tokens ----------

  const NULL_TEXT: Text := [0x6e, 0x75, 0x6c, 0x6c]
  const TRUE_TEXT: Text := [0x74, 0x72, 0x75, 0x65]
  const FALSE_TEXT: Text := [0x66, 0x61, 0x6c, 0x73, 0x65]
  const QUOTE: Unit := 0x22
  const BACKSLASH: Unit := 0x5c
  const COMMA: Unit := 0x2c
  const COLON: Unit := 0x3a
  const MINUS: Unit := 0x2d
  const ZERO: Unit := 0x30
  const OPEN_ARRAY: Unit := 0x5b
  const CLOSE_ARRAY: Unit := 0x5d
  const OPEN_OBJECT: Unit := 0x7b
  const CLOSE_OBJECT: Unit := 0x7d

  // ---------- strings ----------

  // The letter of a two-unit escape.
  function ShortEscape(u: Unit): Unit {
    if u == 8 then 0x62 else if u == 9 then 0x74 else if u == 10 then 0x6e
    else if u == 12 then 0x66 else if u == 13 then 0x72 else if u == QUOTE || u == BACKSLASH then u else 0
  }

  function FromShortEscape(u: Unit): Unit {
    if u == 0x62 then 8 else if u == 0x74 then 9 else if u == 0x6e then 10
    else if u == 0x66 then 12 else if u == 0x72 then 13 else u
  }

  function HexUnit(d: nat): Unit
    requires d < 16
  {
    if d < 10 then ZERO + d else 0x61 + d - 10
  }

  function HexUnitValue(u: Unit): nat {
    if ZERO <= u < ZERO + 10 then u - ZERO else if 0x61 <= u < 0x67 then u - 0x61 + 10 else 0
  }

  function Escape(u: Unit): (e: Text)
    ensures |e| > 0 && e[0] != QUOTE
  {
    if ShortEscape(u) != 0 then [BACKSLASH, ShortEscape(u)]
    else if u < 0x20 then [BACKSLASH, 0x75, ZERO, ZERO, HexUnit(u / 16), HexUnit(u % 16)]
    else [u]
  }

  function Escaped(s: Text): Text {
    if |s| == 0 then [] else Escape(s[0]) + Escaped(s[1..])
  }

  function Quote(s: Text): Text {
    [QUOTE] + Escaped(s) + [QUOTE]
  }

  // ---------- numbers ----------

  function DigitText(ds: seq<nat>): (t: Text)
    requires forall i :: 0 <= i < |ds| ==> ds[i] < 10
    ensures |t| == |ds| && forall i :: 0 <= i < |t| ==> t[i] == ZERO + ds[i]
  {
    seq(|ds|, i requires 0 <= i < |ds| => ZERO + ds[i])
  }

  function NumberText(n: int): (t: Text)
    ensures |t| > 0
  {
    if n < 0 then [MINUS] + DigitText(DecimalDigits(-n)) else DigitText(DecimalDigits(n))
  }

  // ---------- values ----------

  function Write(v: Json): Text
    decreases v, 1, 0
  {
    match v
    case Null => NULL_TEXT
    case Bool(b) => if b then TRUE_TEXT else FALSE_TEXT
    case Num(n) => NumberText(n)
    case Str(s) => Quote(s)
    case Arr(_) => [OPEN_ARRAY] + ItemsFrom(v, 0) + [CLOSE_ARRAY]
    case Obj(_) => [OPEN_OBJECT] + MembersFrom(v, 0) + [CLOSE_OBJECT]
    case _ => []
  }

  function Separator(k: nat): Text {
    if k == 0 then [] else [COMMA]
  }

  // The text of the items from k on, each but the first of all after a comma.
  function ItemsFrom(v: Json, k: nat): Text
    requires v.Arr? && k <= |v.items|
    decreases v, 0, |v.items| - k
  {
    if k == |v.items| then [] else Separator(k) + Write(v.items[k]) + ItemsFrom(v, k + 1)
  }

  function MemberText(key: Text, value: Text): Text {
    Quote(key) + [COLON] + value
  }

  function MembersFrom(v: Json, k: nat): Text
    requires v.Obj? && k <= |v.members|
    decreases v, 0, |v.members| - k
  {
    if k == |v.members| then []
    else Separator(k) + MemberText(v.members[k].key, Write(v.members[k].value)) + MembersFrom(v, k + 1)
  }

  // No part of the value is one the serializer has no text for.
  predicate Writable(v: Json) {
    match v
    case OtherNumber => false
    case Unsupported => false
    case Arr(items) => forall i :: 0 <= i < |items| ==> Writable(items[i])
    case Obj(members) => forall i :: 0 <= i < |members| ==> Writable(members[i].value)
    case _ => true
  }

  // ---------- the reference parser ----------

  datatype Parsed<+T> = Nothing | Found(value: T, rest: Text)

  // The characters of a string up to its closing quote.
  function ParseChars(t: Text, acc: Text): (r: Parsed<Text>)
    ensures r.Found? ==> |r.rest| < |t|
    decreases |t|
  {
    if |t| == 0 then Nothing
    else if t[0] == QUOTE then Found(acc, t[1..])
    else if t[0] != BACKSLASH then ParseChars(t[1..], acc + [t[0]])
    else if |t| < 2 then Nothing
    else if t[1] != 0x75 then ParseChars(t[2..], acc + [FromShortEscape(t[1])])
    else if |t| < 6 then Nothing
    else ParseChars(t[6..], acc + [16 * HexUnitValue(t[4]) + HexUnitValue(t[5])])
  }

  predicate IsDigit(u: Unit) {
    ZERO <= u < ZERO + 10
  }

  function ParseDigits(t: Text, acc: seq<nat>): (r: Parsed<seq<nat>>)
    ensures r.Found? && |r.rest| + |r.value| == |t| + |acc|
    decreases |t|
  {
    if |t| == 0 || !IsDigit(t[0]) then Found(acc, t) else ParseDigits(t[1..], acc + [t[0] - ZERO])
  }

  function ParseNumber(t: Text): (r: Parsed<Json>)
    ensures r.Found? ==> |r.rest| < |t|
  {
    var negative := |t| > 0 && t[0] == MINUS;
    var ds := ParseDigits(if negative then t[1..] else t, []);
    var n: int := Value(ds.value, 10);
    if |ds.value| == 0 then Nothing else Found(Num(if negative then -n else n), ds.rest)
  }

  function ParseToken(t: Text, token: Text, v: Json): (r: Parsed<Json>)
    ensures r.Found? ==> |r.rest| == |t| - |token|
  {
    if token <= t then Found(v, t[|token|..]) else Nothing
  }

  function Parse(t: Text): (r: Parsed<Json>)
    ensures r.Found? ==> |r.rest| < |t|
    decreases |t|, 0
  {
    if |t| == 0 then Nothing
    else if t[0] == 0x6e then ParseToken(t, NULL_TEXT, Null)
    else if t[0] == 0x74 then ParseToken(t, TRUE_TEXT, Bool(true))
    else if t[0] == 0x66 then ParseToken(t, FALSE_TEXT, Bool(false))
    else if t[0] == QUOTE then
      (match ParseChars(t[1..], [])
       case Nothing => Nothing
       case Found(s, rest) => Found(Str(s), rest))
    else if t[0] == OPEN_ARRAY then ParseItems(t[1..], [])
    else if t[0] == OPEN_OBJECT then ParseMembers(t[1..], [])
    else ParseNumber(t)
  }

  // What follows the separator due after k parts.
  function AfterSeparator(t: Text, k: nat): (r: Parsed<()>)
    ensures r.Found? ==> |r.rest| <= |t|
  {
    if k == 0 then Found((), t) else if |t| > 0 && t[0] == COMMA then Found((), t[1..]) else Nothing
  }

  function ParseItems(t: Text, acc: seq<Json>): (r: Parsed<Json>)
    ensures r.Found? ==> |r.rest| < |t|
    decreases |t|, 1
  {
    if |t| == 0 then Nothing
    else if t[0] == CLOSE_ARRAY then Found(Arr(acc), t[1..])
    else match AfterSeparator(t, |acc|)
      case Nothing => Nothing
      case Found(_, u) =>
        match Parse(u)
        case Nothing => Nothing
        case Found(v, rest) => ParseItems(rest, acc + [v])
  }

  function ParseKey(t: Text): (r: Parsed<Text>)
    ensures r.Found? ==> |r.rest| < |t|
  {
    if |t| == 0 || t[0] != QUOTE then Nothing
    else match ParseChars(t[1..], [])
      case Nothing => Nothing
      case Found(key, rest) => if |rest| > 0 && rest[0] == COLON then Found(key, rest[1..]) else Nothing
  }

  function ParseMembers(t: Text, acc: seq<Member<Json>>): (r: Parsed<Json>)
    ensures r.Found? ==> |r.rest| < |t|
    decreases |t|, 1
  {
    if |t| == 0 then Nothing
    else if t[0] == CLOSE_OBJECT then Found(Obj(acc), t[1..])
    else match AfterSeparator(t, |acc|)
      case Nothing => Nothing
      case Found(_, u) =>
        match ParseKey(u)
        case Nothing => Nothing
        case Found(key, after) =>
          match Parse(after)
          case Nothing => Nothing
          case Found(v, rest) => ParseMembers(rest, acc + [Member(key, v)])
  }

  // ---------- the parser reads back what was written ----------

  // Nothing that would continue a number follows.
  predicate Delimited(rest: Text) {
    |rest| == 0 || !IsDigit(rest[0])
  }

  lemma EscapeReads(u: Unit, more: Text, acc: Text)
    ensures ParseChars(Escape(u) + more, acc) == ParseChars(more, acc + [u])
  {
    var e := Escape(u);
    assert (e + more)[|e|..] == more;
    if u < 0x20 && ShortEscape(u) == 0 {
      assert HexUnitValue(HexUnit(u / 16)) == u / 16 && HexUnitValue(HexUnit(u % 16)) == u % 16;
    }
  }

  lemma {:induction false} CharsRead(s: Text, rest: Text, acc: Text)
    ensures ParseChars(Escaped(s) + [QUOTE] + rest, acc) == Found(acc + s, rest)
  {
    hide *;
    if |s| == 0 {
      QuoteEnds(rest, acc);
      assert acc + s == acc;
    } else {
      EscapedStep(s, rest);
      EscapeReads(s[0], Escaped(s[1..]) + [QUOTE] + rest, acc);
      CharsRead(s[1..], rest, acc + [s[0]]);
      assert acc + [s[0]] + s[1..] == acc + s;
    }
  }

  lemma QuoteEnds(rest: Text, acc: Text)
    ensures ParseChars(Escaped([]) + [QUOTE] + rest, acc) == Found(acc, rest)
  {
    var t := Escaped([]) + [QUOTE] + rest;
    assert t[0] == QUOTE && t[1..] == rest;
  }

  lemma EscapedStep(s: Text, rest: Text)
    requires |s| > 0
    ensures Escaped(s) + [QUOTE] + rest == Escape(s[0]) + (Escaped(s[1..]) + [QUOTE] + rest)
  {
    assert Escaped(s) == Escape(s[0]) + Escaped(s[1..]);
    hide *;
    Nest(Escape(s[0]), Escaped(s[1..]), [QUOTE], rest);
  }

  lemma Nest(a: Text, b: Text, c: Text, d: Text)
    ensures a + b + c + d == a + (b + c + d)
  {
  }

  lemma QuoteReads(s: Text, rest: Text)
    ensures var t := Quote(s) + rest; |t| > 0 && t[0] == QUOTE && ParseChars(t[1..], []) == Found(s, rest)
  {
    hide Escaped, ParseChars;
    CharsRead(s, rest, []);
    Nest([QUOTE], Escaped(s), [QUOTE], rest);
    assert Quote(s) + rest == [QUOTE] + (Escaped(s) + [QUOTE] + rest);
    hide Quote;
    assert [] + s == s;
  }

  lemma {:induction false} DigitsRead(ds: seq<nat>, rest: Text, acc: seq<nat>)
    requires (forall i :: 0 <= i < |ds| ==> ds[i] < 10) && Delimited(rest)
    ensures ParseDigits(DigitText(ds) + rest, acc) == Found(acc + ds, rest)
  {
    hide *;
    if |ds| == 0 {
      DigitsEnd(rest, acc);
      assert acc + ds == acc;
    } else {
      DigitStep(ds, rest, acc);
      DigitsRead(ds[1..], rest, acc + [ds[0]]);
      Shifted(acc, ds);
    }
  }

  lemma DigitsEnd(rest: Text, acc: seq<nat>)
    requires Delimited(rest)
    ensures ParseDigits(DigitText([]) + rest, acc) == Found(acc, rest)
  {
    assert DigitText([]) + rest == rest;
  }

  lemma Shifted(acc: seq<nat>, ds: seq<nat>)
    requires |ds| > 0
    ensures acc + [ds[0]] + ds[1..] == acc + ds
  {
  }

  lemma DigitStep(ds: seq<nat>, rest: Text, acc: seq<nat>)
    requires |ds| > 0 && forall i :: 0 <= i < |ds| ==> ds[i] < 10
    ensures ParseDigits(DigitText(ds) + rest, acc) == ParseDigits(DigitText(ds[1..]) + rest, acc + [ds[0]])
  {
    var t := DigitText(ds) + rest;
    assert t[0] == ZERO + ds[0] && t[1..] == DigitText(ds[1..]) + rest;
  }

  lemma NumberAt(t: Text, negative: bool, ds: seq<nat>, rest: Text)
    requires negative <==> |t| > 0 && t[0] == MINUS
    requires |ds| > 0 && ParseDigits(if negative then t[1..] else t, []) == Found(ds, rest)
    ensures var n: int := Value(ds, 10); ParseNumber(t) == Found(Num(if negative then -n else n), rest)
  {
    hide ParseDigits, Value;
  }

  lemma NumberLayout(n: int, rest: Text)
    ensures var t := NumberText(n) + rest;
      var digits := DigitText(DecimalDigits(if n < 0 then -n else n)) + rest;
      && |t| > 0 && (n < 0 <==> t[0] == MINUS)
      && (if n < 0 then t[1..] == digits else t == digits)
  {
    hide DecimalDigits, DigitText;
    var ds := DecimalDigits(if n < 0 then -n else n);
    var t, digits := NumberText(n) + rest, DigitText(ds) + rest;
    if n < 0 {
      assert t == [MINUS] + digits;
    } else {
      assert t[0] == ZERO + ds[0];
    }
  }

  lemma NumberReads(n: int, rest: Text)
    requires Delimited(rest)
    ensures ParseNumber(NumberText(n) + rest) == Found(Num(n), rest)
  {
    hide *;
    var magnitude := if n < 0 then -n else n;
    var ds := DecimalDigits(magnitude);
    ValueOfDecimalDigits(magnitude);
    DigitsRead(ds, rest, []);
    assert [] + ds == ds;
    NumberLayout(n, rest);
    NumberAt(NumberText(n) + rest, n < 0, ds, rest);
  }

  // The first unit of a written value tells its kind, and closes nothing.
  lemma FirstUnit(v: Json, rest: Text)
    requires Writable(v)
    ensures var t := Write(v) + rest;
      && |t| > 0 && t[0] != CLOSE_ARRAY && t[0] != CLOSE_OBJECT
      && (v.Num? ==> t[0] == MINUS || IsDigit(t[0]))
  {
    hide ItemsFrom, MembersFrom, Escaped, DecimalDigits;
    if v.Num? { assert (Write(v) + rest)[0] == NumberText(v.n)[0]; }
  }

  lemma SeparatorReads(k: nat, more: Text)
    ensures AfterSeparator(Separator(k) + more, k) == Found((), more)
  {
    var t := Separator(k) + more;
    assert k == 0 ==> t == more;
    assert k > 0 ==> t[1..] == more;
  }

  // One unfolding of the parser for each kind of first unit.
  lemma ParseAt(t: Text)
    requires |t| > 0
    ensures t[0] == MINUS || IsDigit(t[0]) ==> Parse(t) == ParseNumber(t)
    ensures t[0] == OPEN_ARRAY ==> Parse(t) == ParseItems(t[1..], [])
    ensures t[0] == OPEN_OBJECT ==> Parse(t) == ParseMembers(t[1..], [])
    ensures t[0] == QUOTE && ParseChars(t[1..], []).Found? ==>
      Parse(t) == Found(Str(ParseChars(t[1..], []).value), ParseChars(t[1..], []).rest)
  {
    hide ParseNumber, ParseItems, ParseMembers, ParseChars, ParseToken;
  }

  lemma TokenReads(rest: Text)
    ensures Parse(NULL_TEXT + rest) == Found(Null, rest)
    ensures Parse(TRUE_TEXT + rest) == Found(Bool(true), rest)
    ensures Parse(FALSE_TEXT + rest) == Found(Bool(false), rest)
  {
    assert (NULL_TEXT + rest)[4..] == rest && (TRUE_TEXT + rest)[4..] == rest && (FALSE_TEXT + rest)[5..] == rest;
  }

  lemma ContainerText(v: Json, rest: Text)
    requires v.Arr? || v.Obj?
    ensures var t := Write(v) + rest;
      if v.Arr? then |t| > 0 && t[0] == OPEN_ARRAY && t[1..] == ItemsFrom(v, 0) + [CLOSE_ARRAY] + rest
      else |t| > 0 && t[0] == OPEN_OBJECT && t[1..] == MembersFrom(v, 0) + [CLOSE_OBJECT] + rest
  {
    hide ItemsFrom, MembersFrom;
  }

  lemma ItemStep(t: Text, acc: seq<Json>, u: Text, v: Json, rest: Text)
    requires |t| > 0 && t[0] != CLOSE_ARRAY
    requires AfterSeparator(t, |acc|) == Found((), u) && Parse(u) == Found(v, rest)
    ensures ParseItems(t, acc) == ParseItems(rest, acc + [v])
  {
    hide Parse, AfterSeparator;
  }

  lemma MemberStep(t: Text, acc: seq<Member<Json>>, u: Text, key: Text, after: Text, v: Json, rest: Text)
    requires |t| > 0 && t[0] != CLOSE_OBJECT
    requires AfterSeparator(t, |acc|) == Found((), u)
    requires ParseKey(u) == Found(key, after) && Parse(after) == Found(v, rest)
    ensures ParseMembers(t, acc) == ParseMembers(rest, acc + [Member(key, v)])
  {
    hide Parse, ParseKey, AfterSeparator;
  }

  // The text still to read after item or member k - 1.
  function LaterItems(v: Json, k: nat, rest: Text): Text
    requires v.Arr? && k <= |v.items|
  {
    ItemsFrom(v, k) + [CLOSE_ARRAY] + rest
  }

  function LaterMembers(v: Json, k: nat, rest: Text): Text
    requires v.Obj? && k <= |v.members|
  {
    MembersFrom(v, k) + [CLOSE_OBJECT] + rest
  }

  lemma ItemLayout(v: Json, k: nat, rest: Text)
    requires v.Arr? && k < |v.items|
    ensures LaterItems(v, k, rest) == Separator(k) + (Write(v.items[k]) + LaterItems(v, k + 1, rest))
    ensures Delimited(LaterItems(v, k + 1, rest))
  {
    hide Write;
    assert ItemsFrom(v, k) == Separator(k) + Write(v.items[k]) + ItemsFrom(v, k + 1);
    Nest(Separator(k), Write(v.items[k]), ItemsFrom(v, k + 1), [CLOSE_ARRAY] + rest);
    Nest(Write(v.items[k]), ItemsFrom(v, k + 1), [CLOSE_ARRAY], rest);
  }

  lemma MemberLayout(v: Json, k: nat, rest: Text)
    requires v.Obj? && k < |v.members|
    ensures LaterMembers(v, k, rest) ==
      Separator(k) + (Quote(v.members[k].key) + [COLON] + (Write(v.members[k].value) + LaterMembers(v, k + 1, rest)))
    ensures Delimited(LaterMembers(v, k + 1, rest))
  {
    MemberDelimited(v, k + 1, rest);
    hide Write, Quote, Delimited;
    var m := v.members[k];
    assert MembersFrom(v, k) == Separator(k) + (Quote(m.key) + [COLON] + Write(m.value)) + MembersFrom(v, k + 1);
    Regroup(Separator(k), Quote(m.key), [COLON], Write(m.value), MembersFrom(v, k + 1), [CLOSE_OBJECT], rest);
    hide MembersFrom, Separator;
  }

  lemma MemberDelimited(v: Json, k: nat, rest: Text)
    requires v.Obj? && k <= |v.members|
    ensures k > 0 ==> Delimited(LaterMembers(v, k, rest))
  {
    hide Write, Quote;
  }

  lemma Regroup(s: Text, key: Text, c: Text, value: Text, more: Text, e: Text, rest: Text)
    ensures s + (key + c + value) + more + e + rest == s + (key + c + (value + (more + e + rest)))
  {
  }

  lemma ItemsDone(v: Json, rest: Text)
    requires v.Arr?
    ensures ParseItems(LaterItems(v, |v.items|, rest), v.items[..|v.items|]) == Found(v, rest)
  {
    var t := LaterItems(v, |v.items|, rest);
    assert t == [CLOSE_ARRAY] + rest && t[1..] == rest && v.items[..|v.items|] == v.items;
  }

  lemma MembersDone(v: Json, rest: Text)
    requires v.Obj?
    ensures ParseMembers(LaterMembers(v, |v.members|, rest), v.members[..|v.members|]) == Found(v, rest)
  {
    var t := LaterMembers(v, |v.members|, rest);
    assert t == [CLOSE_OBJECT] + rest && t[1..] == rest && v.members[..|v.members|] == v.members;
  }

  lemma PartsWritable(v: Json)
    requires Writable(v)
    ensures v.Arr? ==> forall i :: 0 <= i < |v.items| ==> Writable(v.items[i])
    ensures v.Obj? ==> forall i :: 0 <= i < |v.members| ==> Writable(v.members[i].value)
  {
  }

  lemma NotClosing(k: nat, more: Text)
    requires |more| > 0
    ensures var t := Separator(k) + more;
      && (more[0] != CLOSE_ARRAY ==> t[0] != CLOSE_ARRAY)
      && (more[0] != CLOSE_OBJECT ==> t[0] != CLOSE_OBJECT)
  {
  }

  lemma {:induction false} WrittenReads(v: Json, rest: Text)
    requires Writable(v) && Delimited(rest)
    ensures Parse(Write(v) + rest) == Found(v, rest)
    decreases v, 1, 0
  {
    var t := Write(v) + rest;
    FirstUnit(v, rest);
    ParseAt(t);
    match v
    case Null => TokenReads(rest);
    case Bool(b) => TokenReads(rest);
    case Num(n) => NumberReads(n, rest); hide *;
    case Str(s) => QuoteReads(s, rest); hide *;
    case Arr(items) =>
      hide *;
      ItemsRead(v, 0, rest);
      ContainerText(v, rest);
    case Obj(members) =>
      hide *;
      MembersRead(v, 0, rest);
      ContainerText(v, rest);
  }

  lemma {:induction false} ItemsRead(v: Json, k: nat, rest: Text)
    requires Writable(v) && v.Arr? && k <= |v.items|
    ensures ParseItems(LaterItems(v, k, rest), v.items[..k]) == Found(v, rest)
    decreases v, 0, |v.items| - k
  {
    hide *;
    PartsWritable(v);
    if k == |v.items| {
      ItemsDone(v, rest);
    } else {
      var item := v.items[k];
      var later := LaterItems(v, k + 1, rest);
      ItemLayout(v, k, rest);
      SeparatorReads(k, Write(item) + later);
      FirstUnit(item, later);
      NotClosing(k, Write(item) + later);
      WrittenReads(item, later);
      ItemsRead(v, k + 1, rest);
      ItemStep(LaterItems(v, k, rest), v.items[..k], Write(item) + later, item, later);
      assert v.items[..k] + [item] == v.items[..k + 1];
    }
  }

  lemma KeyReads(key: Text, more: Text)
    ensures var t := Quote(key) + [COLON] + more; |t| > 0 && t[0] != CLOSE_OBJECT && ParseKey(t) == Found(key, more)
  {
    var t := Quote(key) + [COLON] + more;
    assert t == Quote(key) + ([COLON] + more);
    QuoteReads(key, [COLON] + more);
    hide Quote;
    assert ([COLON] + more)[1..] == more;
  }

  lemma {:induction false} MembersRead(v: Json, k: nat, rest: Text)
    requires Writable(v) && v.Obj? && k <= |v.members|
    ensures ParseMembers(LaterMembers(v, k, rest), v.members[..k]) == Found(v, rest)
    decreases v, 0, |v.members| - k
  {
    hide *;
    PartsWritable(v);
    if k == |v.members| {
      MembersDone(v, rest);
    } else {
      var m := v.members[k];
      var later := LaterMembers(v, k + 1, rest);
      var after: Text := Write(m.value) + later;
      var u: Text := Quote(m.key) + [COLON] + after;
      MemberLayout(v, k, rest);
      SeparatorReads(k, u);
      KeyReads(m.key, after);
      NotClosing(k, u);
      WrittenReads(m.value, later);
      MembersRead(v, k + 1, rest);
      MemberStep(LaterMembers(v, k, rest), v.members[..k], u, m.key, after, m.value, later);
      assert v.members[..k] + [m] == v.members[..k + 1];
    }
  }

  // ---------- the spelling, written out ----------

  // Every unit of a string: itself, one of the seven short escapes, or a control escape
  // with two lower-case hexadecimal digits.
  lemma UnitSpelling(u: Unit)
    ensures u >= 0x20 && u != 0x22 && u != 0x5c ==> Write(Str([u])) == [0x22, u, 0x22]
    ensures u == 0x22 || u == 0x5c ==> Write(Str([u])) == [0x22, 0x5c, u, 0x22]
    ensures u == 0x08 ==> Write(Str([u])) == [0x22, 0x5c, 0x62, 0x22]
    ensures u == 0x09 ==> Write(Str([u])) == [0x22, 0x5c, 0x74, 0x22]
    ensures u == 0x0a ==> Write(Str([u])) == [0x22, 0x5c, 0x6e, 0x22]
    ensures u == 0x0c ==> Write(Str([u])) == [0x22, 0x5c, 0x66, 0x22]
    ensures u == 0x0d ==> Write(Str([u])) == [0x22, 0x5c, 0x72, 0x22]
    ensures u < 0x20 && u !in {0x08, 0x09, 0x0a, 0x0c, 0x0d} ==>
      Write(Str([u])) == [0x22, 0x5c, 0x75, 0x30, 0x30, 0x30 + u / 16,
                          if u % 16 < 10 then 0x30 + u % 16 else 0x57 + u % 16, 0x22]
  {
    assert [u][1..] == [] && Escaped([u]) == Escape(u) + [] == Escape(u);
    assert Write(Str([u])) == [QUOTE] + Escape(u) + [QUOTE];
    hide Write, Escaped;
  }

  // Strings are spelled unit by unit.
  lemma JoinedSpelling(s: Text, t: Text)
    ensures Write(Str([])) == [0x22, 0x22]
    ensures var a, b := Write(Str(s)), Write(Str(t));
      |a| >= 2 && |b| >= 2 && Write(Str(s + t)) == a[..|a| - 1] + b[1..]
  {
    EscapedJoins(s, t);
    var a, b := Write(Str(s)), Write(Str(t));
    assert a == [QUOTE] + Escaped(s) + [QUOTE] && b == [QUOTE] + Escaped(t) + [QUOTE];
    assert Write(Str(s + t)) == [QUOTE] + (Escaped(s) + Escaped(t)) + [QUOTE];
    hide *;
    TrimmedJoin([QUOTE], Escaped(s), Escaped(t));
  }

  lemma TrimmedJoin(q: Text, s: Text, t: Text)
    requires |q| == 1
    ensures var a, b := q + s + q, q + t + q;
      |a| >= 2 && |b| >= 2 && a[..|a| - 1] + b[1..] == q + (s + t) + q
  {
    assert (q + s + q)[..|q + s|] == q + s;
    assert q + t + q == q + (t + q) && (q + (t + q))[1..] == t + q;
  }

  lemma {:induction false} EscapedJoins(s: Text, t: Text)
    ensures Escaped(s + t) == Escaped(s) + Escaped(t)
  {
    if |s| == 0 {
      assert s + t == t;
    } else {
      assert (s + t)[0] == s[0] && (s + t)[1..] == s[1..] + t;
      EscapedJoins(s[1..], t);
      hide Escape;
    }
  }

  // A number is a sign if it is negative and then its digits, none of them a leading zero.
  lemma NumberSpelling(n: int)
    ensures var t := Write(Num(n)); var ds := if n < 0 then t[1..] else t;
      && (n < 0 ==> t[0] == 0x2d) && |ds| > 0
      && (forall i :: 0 <= i < |ds| ==> 0x30 <= ds[i] < 0x3a)
      && (ds[0] == 0x30 ==> n == 0 && |ds| == 1)
      && Value(DigitsIn(ds), 10) == if n < 0 then -n else n
  {
    var m := if n < 0 then -n else n;
    var digits := DigitText(DecimalDigits(m));
    assert Write(Num(n)) == if n < 0 then [MINUS] + digits else digits;
    hide *;
    DigitSpelling(m);
    assert ([MINUS] + digits)[1..] == digits;
  }

  lemma DigitSpelling(m: nat)
    ensures var ds := DigitText(DecimalDigits(m));
      && |ds| > 0 && (forall i :: 0 <= i < |ds| ==> 0x30 <= ds[i] < 0x3a)
      && (ds[0] == 0x30 ==> m == 0 && |ds| == 1) && Value(DigitsIn(ds), 10) == m
  {
    ValueOfDecimalDigits(m);
    FirstDigit(m);
    hide DecimalDigits, Value;
    assert DigitsIn(DigitText(DecimalDigits(m))) == DecimalDigits(m);
  }

  lemma FirstDigit(m: nat)
    ensures DecimalDigits(m)[0] == 0 ==> m == 0 && |DecimalDigits(m)| == 1
  {
    hide Digits;
  }

  function DigitsIn(t: Text): (ds: seq<nat>)
    requires forall i :: 0 <= i < |t| ==> 0x30 <= t[i] < 0x3a
    ensures |ds| == |t| && forall i :: 0 <= i < |t| ==> ds[i] == t[i] - 0x30
  {
    seq(|t|, i requires 0 <= i < |t| => t[i] - 0x30)
  }

  lemma TokenSpelling()
    ensures Write(Null) == [0x6e, 0x75, 0x6c, 0x6c]
    ensures Write(Bool(true)) == [0x74, 0x72, 0x75, 0x65]
    ensures Write(Bool(false)) == [0x66, 0x61, 0x6c, 0x73, 0x65]
  {
  }

  // An array is its items in order, with a comma before each but the first.
  lemma ArraySpelling(xs: seq<Json>, x: Json)
    ensures Write(Arr([])) == [0x5b, 0x5d]
    ensures var a := Write(Arr(xs));
      |a| >= 2 && Write(Arr(xs + [x])) ==
        a[..|a| - 1] + (if |xs| == 0 then [] else [0x2c]) + Write(x) + [0x5d]
  {
    ItemsGrow(xs, x, 0);
    var a, items, text := Write(Arr(xs)), ItemsFrom(Arr(xs), 0), Write(x);
    assert a == [0x5b] + items + [0x5d];
    assert Write(Arr(xs + [x])) == [0x5b] + (items + Separator(|xs|) + text) + [0x5d];
    assert Separator(|xs|) == if |xs| == 0 then [] else [0x2c];
    hide *;
    assert a[..|a| - 1] == [0x5b] + items;
    EnclosedEnd([0x5b], items, Separator(|xs|), text, [0x5d]);
  }

  lemma {:induction false} ItemsGrow(xs: seq<Json>, x: Json, k: nat)
    requires k <= |xs|
    ensures ItemsFrom(Arr(xs + [x]), k) == ItemsFrom(Arr(xs), k) + Separator(|xs|) + Write(x)
    decreases |xs| - k
  {
    hide Write, Separator;
    var big := Arr(xs + [x]);
    if k == |xs| {
      assert ItemsFrom(big, k + 1) == [];
      assert ItemsFrom(big, k) == Separator(k) + Write(x) + [];
      assert Separator(k) + Write(x) + [] == [] + Separator(k) + Write(x);
    } else {
      ItemsGrow(xs, x, k + 1);
      var head, more := Separator(k) + Write(xs[k]), ItemsFrom(Arr(xs), k + 1);
      assert ItemsFrom(big, k) == head + (more + Separator(|xs|) + Write(x));
      assert ItemsFrom(Arr(xs), k) == head + more;
      hide ItemsFrom;
      Nest(head, more, Separator(|xs|), Write(x));
    }
  }

  lemma EnclosedEnd(open: Text, items: Text, separator: Text, text: Text, close: Text)
    ensures open + (items + separator + text) + close == open + items + separator + text + close
  {
  }

  // An object is its members in order, each a key, a colon and its value.
  lemma ObjectSpelling(ms: seq<Member<Json>>, m: Member<Json>)
    ensures Write(Obj([])) == [0x7b, 0x7d]
    ensures var a := Write(Obj(ms));
      |a| >= 2 && Write(Obj(ms + [m])) ==
        a[..|a| - 1] + (if |ms| == 0 then [] else [0x2c]) + (Write(Str(m.key)) + [0x3a] + Write(m.value)) + [0x7d]
  {
    MembersGrow(ms, m, 0);
    var a, members, text := Write(Obj(ms)), MembersFrom(Obj(ms), 0), MemberText(m.key, Write(m.value));
    assert a == [0x7b] + members + [0x7d];
    assert Write(Obj(ms + [m])) == [0x7b] + (members + Separator(|ms|) + text) + [0x7d];
    assert Separator(|ms|) == if |ms| == 0 then [] else [0x2c];
    assert text == Write(Str(m.key)) + [0x3a] + Write(m.value);
    hide *;
    assert a[..|a| - 1] == [0x7b] + members;
    EnclosedEnd([0x7b], members, Separator(|ms|), text, [0x7d]);
  }

  lemma {:induction false} MembersGrow(ms: seq<Member<Json>>, m: Member<Json>, k: nat)
    requires k <= |ms|
    ensures MembersFrom(Obj(ms + [m]), k) ==
      MembersFrom(Obj(ms), k) + Separator(|ms|) + MemberText(m.key, Write(m.value))
    decreases |ms| - k
  {
    hide Write, Separator, MemberText;
    var big, text := Obj(ms + [m]), MemberText(m.key, Write(m.value));
    if k == |ms| {
      assert MembersFrom(big, k + 1) == [];
      assert MembersFrom(big, k) == Separator(k) + text + [];
      assert Separator(k) + text + [] == [] + Separator(k) + text;
    } else {
      MembersGrow(ms, m, k + 1);
      var head, more := Separator(k) + MemberText(ms[k].key, Write(ms[k].value)), MembersFrom(Obj(ms), k + 1);
      assert MembersFrom(big, k) == head + (more + Separator(|ms|) + text);
      assert MembersFrom(Obj(ms), k) == head + more;
      hide MembersFrom;
      Nest(head, more, Separator(|ms|), text);
    }
  }
}
