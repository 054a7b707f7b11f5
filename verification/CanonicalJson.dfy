/**
 The canonical serializer (canonicalJson.cjs): members sorted by UTF-16 code units, a
 depth bound, a node budget shared by the whole value, and a string domain.  Unicode
 normalization is a predicate given from outside.
 */
module CanonicalJson {
  import opened Bytes
  import opened JsonText
  import opened Outcomes

  const MAX_DEPTH := 100
  const MAX_NODES := 5_000_000

  type Normal = Text -> bool

  datatype Refusal = TooDeep | TooManyNodes | NotSafeInteger | LoneSurrogate | NotNormalized | NotSerializable

  // ---------- the string domain ----------

  predicate High(u: Unit) {
    0xd800 <= u <= 0xdbff
  }

  predicate Low(u: Unit) {
    0xdc00 <= u <= 0xdfff
  }

  // Every high surrogate is followed by a low one and every low one preceded by a high one.
  predicate Paired(s: Text) {
    && (forall i :: 0 <= i < |s| && High(s[i]) ==> i + 1 < |s| && Low(s[i + 1]))
    && (forall i :: 0 <= i < |s| && Low(s[i]) ==> i > 0 && High(s[i - 1]))
  }

  predicate StringOk(s: Text, nfc: Normal) {
    Paired(s) && nfc(s)
  }

  method AssertStringDomain(s: Text, nfc: Normal) returns (r: Option<Refusal>)
    ensures r == if !Paired(s) then Some(LoneSurrogate) else if !nfc(s) then Some(NotNormalized) else None
  {
    var i := 0;
    while i < |s|
      invariant 0 <= i <= |s|
      invariant forall j :: 0 <= j < i && High(s[j]) ==> j + 1 < i && Low(s[j + 1])
      invariant forall j :: 0 <= j < i && Low(s[j]) ==> j > 0 && High(s[j - 1])
    {
      if High(s[i]) {
        if i + 1 >= |s| || !Low(s[i + 1]) { return Some(LoneSurrogate); }
        i := i + 1;
      } else if Low(s[i]) {
        assert i > 0 ==> !High(s[i - 1]);
        return Some(LoneSurrogate);
      }
      i := i + 1;
    }
    if !nfc(s) { return Some(NotNormalized); }
    return None;
  }

  // ---------- key order ----------

  method CompareKeys(x: Text, y: Text) returns (d: int)
    ensures d < 0 <==> LexLess(x, y)
    ensures d == 0 <==> x == y
  {
    var n := if |x| < |y| then |x| else |y|;
    for i := 0 to n
      invariant x[..i] == y[..i]
    {
      if x[i] != y[i] {
        LexAtDifference(x, y, i);
        var a: int, b: int := x[i], y[i];
        return a - b;
      }
    }
    LexAtEnd(x, y);
    return |x| - |y|;
  }

  lemma {:induction false} LexAtDifference(x: Text, y: Text, i: nat)
    requires i < |x| && i < |y| && x[..i] == y[..i] && x[i] != y[i]
    ensures LexLess(x, y) <==> x[i] < y[i]
  {
    if i > 0 {
      assert x[0] == x[..i][0] && y[0] == y[..i][0];
      assert x[1..][..i - 1] == x[..i][1..] && y[1..][..i - 1] == y[..i][1..];
      LexAtDifference(x[1..], y[1..], i - 1);
    }
  }

  lemma {:induction false} LexAtEnd(x: Text, y: Text)
    requires (|x| <= |y| && x == y[..|x|]) || (|y| <= |x| && y == x[..|y|])
    ensures LexLess(x, y) <==> |x| < |y|
    ensures x == y <==> |x| == |y|
  {
    if |x| > 0 && |y| > 0 {
      assert x[0] == y[0];
      LexAtEnd(x[1..], y[1..]);
      assert x == [x[0]] + x[1..] && y == [y[0]] + y[1..];
    }
  }

  predicate Before<V>(a: Member<V>, b: Member<V>) {
    LexLess(a.key, b.key)
  }

  // Stable insertion after everything with a key no greater.
  function Insert<V>(s: seq<Member<V>>, x: Member<V>): seq<Member<V>> {
    if |s| == 0 || !Before(x, s[|s| - 1]) then s + [x] else Insert(s[..|s| - 1], x) + [s[|s| - 1]]
  }

  function Sort<V>(s: seq<Member<V>>): seq<Member<V>> {
    if |s| == 0 then [] else Insert(Sort(s[..|s| - 1]), s[|s| - 1])
  }

  lemma {:induction false} InsertAt<V>(s: seq<Member<V>>, x: Member<V>, p: nat)
    requires p <= |s| && (p > 0 ==> !Before(x, s[p - 1])) && forall i :: p <= i < |s| ==> Before(x, s[i])
    ensures Insert(s, x) == s[..p] + [x] + s[p..]
  {
    var k := |s| - 1;
    if p == |s| {
      assert s[..p] + [x] + s[p..] == s + [x];
    } else {
      InsertAt(s[..k], x, p);
      assert s[..k][..p] == s[..p] && s[p..] == s[..k][p..] + [s[k]];
    }
  }

  method SortMembers<V>(s: seq<Member<V>>) returns (t: seq<Member<V>>)
    ensures t == Sort(s)
  {
    t := [];
    for k := 0 to |s|
      invariant t == Sort(s[..k])
    {
      var p := |t|;
      while p > 0
        invariant 0 <= p <= |t|
        invariant forall i :: p <= i < |t| ==> Before(s[k], t[i])
      {
        var d := CompareKeys(s[k].key, t[p - 1].key);
        if d >= 0 { break; }
        p := p - 1;
      }
      InsertAt(t, s[k], p);
      assert s[..k + 1][..k] == s[..k];
      t := t[..p] + [s[k]] + t[p..];
    }
    assert s[..|s|] == s;
  }

  // ---------- what sorting keeps ----------

  lemma {:induction false} InsertKeeps<V>(s: seq<Member<V>>, x: Member<V>, y: Member<V>)
    ensures |Insert(s, x)| == |s| + 1
    ensures y in Insert(s, x) <==> y in s || y == x
  {
    if |s| > 0 && Before(x, s[|s| - 1]) {
      InsertKeeps(s[..|s| - 1], x, y);
      assert s == s[..|s| - 1] + [s[|s| - 1]];
    }
  }

  lemma {:induction false} SortKeeps<V>(s: seq<Member<V>>, y: Member<V>)
    ensures |Sort(s)| == |s|
    ensures y in Sort(s) <==> y in s
  {
    if |s| > 0 {
      SortKeeps(s[..|s| - 1], y);
      InsertKeeps(Sort(s[..|s| - 1]), s[|s| - 1], y);
      assert s == s[..|s| - 1] + [s[|s| - 1]];
    }
  }

  function MapValues<V, W>(s: seq<Member<V>>, f: V -> W): (t: seq<Member<W>>)
    ensures |t| == |s| && forall i :: 0 <= i < |s| ==> t[i] == Member(s[i].key, f(s[i].value))
  {
    seq(|s|, i requires 0 <= i < |s| => Member(s[i].key, f(s[i].value)))
  }

  lemma {:induction false} InsertMapped<V, W>(s: seq<Member<V>>, x: Member<V>, f: V -> W)
    ensures Insert(MapValues(s, f), Member(x.key, f(x.value))) == MapValues(Insert(s, x), f)
  {
    if |s| > 0 && Before(x, s[|s| - 1]) {
      InsertMapped(s[..|s| - 1], x, f);
      assert MapValues(s, f)[..|s| - 1] == MapValues(s[..|s| - 1], f);
    }
  }

  // Sorting by key and mapping the values commute.
  lemma {:induction false} SortMapped<V, W>(s: seq<Member<V>>, f: V -> W)
    ensures Sort(MapValues(s, f)) == MapValues(Sort(s), f)
  {
    if |s| > 0 {
      SortMapped(s[..|s| - 1], f);
      InsertMapped(Sort(s[..|s| - 1]), s[|s| - 1], f);
      assert MapValues(s, f)[..|s| - 1] == MapValues(s[..|s| - 1], f);
    }
  }

  predicate Distinct<V>(s: seq<Member<V>>) {
    forall i, j :: 0 <= i < |s| && 0 <= j < |s| ==> OtherKey(s[i], s[j]) || i == j
  }

  predicate OtherKey<V>(a: Member<V>, b: Member<V>) {
    a.key != b.key
  }

  predicate Ascending<V>(s: seq<Member<V>>) {
    forall i, j :: 0 <= i < j < |s| ==> Before(s[i], s[j])
  }

  lemma AscendingAppend<V>(s: seq<Member<V>>, z: Member<V>)
    requires Ascending(s) && forall y :: y in s ==> Before(y, z)
    ensures Ascending(s + [z])
  {
  }

  lemma {:induction false} InsertAscends<V>(s: seq<Member<V>>, x: Member<V>)
    requires Ascending(s) && forall y :: y in s ==> OtherKey(y, x)
    ensures Ascending(Insert(s, x))
  {
    if |s| > 0 {
      var k := |s| - 1;
      assert forall y :: y in s[..k] ==> Before(y, s[k]);
      assert s[k] in s;
      if Before(x, s[k]) {
        InsertAscends(s[..k], x);
        forall y | y in Insert(s[..k], x) ensures Before(y, s[k]) {
          InsertKeeps(s[..k], x, y);
        }
        AscendingAppend(Insert(s[..k], x), s[k]);
      } else {
        LexTotal(x.key, s[k].key);
        forall y | y in s ensures Before(y, x) {
          if y in s[..k] { LexTransitive(y.key, s[k].key, x.key); } else { assert y == s[k]; }
        }
        AscendingAppend(s, x);
      }
    }
  }

  lemma {:induction false} SortAscends<V>(s: seq<Member<V>>)
    requires Distinct(s)
    ensures Ascending(Sort(s))
  {
    if |s| > 0 {
      var k := |s| - 1;
      assert Distinct(s[..k]);
      SortAscends(s[..k]);
      forall y | y in Sort(s[..k]) ensures OtherKey(y, s[k]) {
        SortKeeps(s[..k], y);
        var i :| 0 <= i < k && s[..k][i] == y;
        assert OtherKey(s[i], s[k]) || i == k;
      }
      InsertAscends(Sort(s[..k]), s[k]);
    }
  }

  // ---------- the canonical form and the bounds ----------

  // The value with the members of every object sorted.
  function Canon(v: Json): Json {
    match v
    case Arr(items) => Arr(seq(|items|, i requires 0 <= i < |items| => Canon(items[i])))
    case Obj(members) =>
      Obj(Sort(seq(|members|, i requires 0 <= i < |members| => Member(members[i].key, Canon(members[i].value)))))
    case _ => v
  }

  function CanonicalText(v: Json): Text {
    Write(Canon(v))
  }

  // The parts of a container, in the value's own order.
  function Parts(v: Json): (r: seq<Json>)
    ensures forall i :: 0 <= i < |r| ==> r[i] < v
  {
    match v
    case Arr(items) => items
    case Obj(members) => seq(|members|, i requires 0 <= i < |members| => members[i].value)
    case _ => []
  }

  function Nodes(v: Json): (n: nat)
    ensures n >= 1
    decreases v, 1, 0
  {
    1 + NodesTo(v, |Parts(v)|)
  }

  function NodesTo(v: Json, k: nat): nat
    requires k <= |Parts(v)|
    decreases v, 0, k
  {
    if k == 0 then 0 else NodesTo(v, k - 1) + Nodes(Parts(v)[k - 1])
  }

  function Max(a: nat, b: nat): nat {
    if a < b then b else a
  }

  // How many containers deep the value nests.
  function Height(v: Json): nat
    decreases v, 1, 0
  {
    HeightTo(v, |Parts(v)|)
  }

  function HeightTo(v: Json, k: nat): nat
    requires k <= |Parts(v)|
    decreases v, 0, k
  {
    if k == 0 then 0 else Max(HeightTo(v, k - 1), 1 + Height(Parts(v)[k - 1]))
  }

  // The value's own contents, its parts aside.
  function OwnRefusal(v: Json, nfc: Normal): Option<Refusal> {
    match v
    case Num(n) => if Safe(n) then None else Some(NotSafeInteger)
    case OtherNumber => Some(NotSafeInteger)
    case Unsupported => Some(NotSerializable)
    case Str(s) => if !Paired(s) then Some(LoneSurrogate) else if !nfc(s) then Some(NotNormalized) else None
    case _ => None
  }

  predicate KeysOk(v: Json, nfc: Normal) {
    v.Obj? ==> forall i :: 0 <= i < |v.members| ==> StringOk(v.members[i].key, nfc)
  }

  // Strings and keys paired and normalized, numbers safe integers, nothing unsupported.
  predicate InDomain(v: Json, nfc: Normal)
    decreases v
  {
    OwnRefusal(v, nfc).None? && KeysOk(v, nfc) && forall i :: 0 <= i < |Parts(v)| ==> InDomain(Parts(v)[i], nfc)
  }

  // What the serializer accepts at a depth and after n nodes.
  predicate Fits(v: Json, depth: nat, n: nat, nfc: Normal) {
    depth + Height(v) <= MAX_DEPTH && n + Nodes(v) <= MAX_NODES && InDomain(v, nfc)
  }

  predicate StringFault(s: Text, e: Refusal, nfc: Normal) {
    if !Paired(s) then e.LoneSurrogate? else e.NotNormalized? && !nfc(s)
  }

  predicate KeyFault(v: Json, e: Refusal, nfc: Normal) {
    v.Obj? && exists m :: m in v.members && StringFault(m.key, e, nfc)
  }

  // The value or something in it is refused for e.
  predicate Fault(v: Json, e: Refusal, nfc: Normal)
    decreases v
  {
    OwnRefusal(v, nfc) == Some(e) || KeyFault(v, e, nfc) || exists x :: x in Parts(v) && Fault(x, e, nfc)
  }

  // A refusal names a bound that is really broken, or a fault that is really there.
  predicate Truthful(e: Refusal, v: Json, depth: nat, n: nat, nfc: Normal) {
    match e
    case TooDeep => depth + Height(v) > MAX_DEPTH
    case TooManyNodes => n + Nodes(v) > MAX_NODES
    case _ => Fault(v, e, nfc)
  }

  lemma StringFaultIff(s: Text, nfc: Normal)
    ensures StringOk(s, nfc) <==> !StringFault(s, LoneSurrogate, nfc) && !StringFault(s, NotNormalized, nfc)
    ensures forall e :: StringFault(s, e, nfc) ==> e == LoneSurrogate || e == NotNormalized
  {
    hide Paired;
  }

  predicate Faultless(v: Json, nfc: Normal) {
    forall e :: !Fault(v, e, nfc)
  }

  predicate KeysFaultless(v: Json, nfc: Normal) {
    forall e :: !KeyFault(v, e, nfc)
  }

  lemma KeysOkIff(v: Json, nfc: Normal)
    ensures KeysOk(v, nfc) <==> KeysFaultless(v, nfc)
  {
    hide StringFault, StringOk;
    if v.Obj? {
      forall m | m in v.members
        ensures StringOk(m.key, nfc) <==> forall e :: !StringFault(m.key, e, nfc)
      {
        StringFaultIff(m.key, nfc);
      }
      if !KeysOk(v, nfc) {
        var i :| 0 <= i < |v.members| && !StringOk(v.members[i].key, nfc);
        var e :| StringFault(v.members[i].key, e, nfc);
        assert v.members[i] in v.members;
        assert KeyFault(v, e, nfc);
      }
    }
  }

  lemma FaultlessStep(v: Json, nfc: Normal)
    ensures Faultless(v, nfc) <==>
      OwnRefusal(v, nfc).None? && KeysFaultless(v, nfc) && forall x :: x in Parts(v) ==> Faultless(x, nfc)
  {
    hide OwnRefusal, KeyFault, Parts;
    if Faultless(v, nfc) {
      forall e ensures !KeyFault(v, e, nfc) && OwnRefusal(v, nfc) != Some(e) { assert !Fault(v, e, nfc); }
      forall x, e | x in Parts(v) ensures !Fault(x, e, nfc) { assert !Fault(v, e, nfc); }
    } else {
      var e :| Fault(v, e, nfc);
      if OwnRefusal(v, nfc).None? && !KeyFault(v, e, nfc) {
        var x :| x in Parts(v) && Fault(x, e, nfc);
        assert !Faultless(x, nfc);
      }
    }
  }

  // Nothing is refused in a value exactly when it is in the domain.
  lemma {:induction false} InDomainIff(v: Json, nfc: Normal)
    ensures InDomain(v, nfc) <==> Faultless(v, nfc)
    decreases v
  {
    FaultlessStep(v, nfc);
    KeysOkIff(v, nfc);
    forall x | x in Parts(v) ensures InDomain(x, nfc) <==> Faultless(x, nfc) {
      InDomainIff(x, nfc);
    }
    hide OwnRefusal, KeysOk, KeysFaultless, Faultless;
    if InDomain(v, nfc) {
      forall x | x in Parts(v) ensures Faultless(x, nfc) { var i :| 0 <= i < |Parts(v)| && Parts(v)[i] == x; }
    }
  }

  lemma FaultOutside(v: Json, e: Refusal, nfc: Normal)
    requires Fault(v, e, nfc)
    ensures !InDomain(v, nfc)
  {
    hide *;
    InDomainIff(v, nfc);
    FaultlessNot(v, e, nfc);
  }

  lemma FaultlessNot(v: Json, e: Refusal, nfc: Normal)
    requires Fault(v, e, nfc)
    ensures !Faultless(v, nfc)
  {
    hide Fault;
  }

  predicate Within(x: Json, v: Json)
    decreases v
  {
    x == v || exists y :: y in Parts(v) && Within(x, y)
  }

  // The strings a value itself holds: its text, or its keys.
  predicate Holds(x: Json, s: Text) {
    x == Str(s) || (x.Obj? && exists m :: m in x.members && m.key == s)
  }

  ghost predicate Shows(x: Json, e: Refusal, nfc: Normal) {
    match e
    case NotSafeInteger => x.OtherNumber? || (x.Num? && !(-9007199254740991 <= x.n <= 9007199254740991))
    case NotSerializable => x.Unsupported?
    case LoneSurrogate => exists s :: Holds(x, s) && !Paired(s)
    case NotNormalized => exists s :: Holds(x, s) && Paired(s) && !nfc(s)
    case _ => false
  }

  ghost predicate ShownWithin(v: Json, e: Refusal, nfc: Normal) {
    exists x :: Within(x, v) && Shows(x, e, nfc)
  }

  lemma OwnFaultShows(v: Json, e: Refusal, nfc: Normal)
    ensures OwnRefusal(v, nfc) == Some(e) || KeyFault(v, e, nfc) <==> Shows(v, e, nfc)
  {
    hide Paired;
    if v.Str? { assert Holds(v, v.s); }
    if KeyFault(v, e, nfc) {
      var m :| m in v.members && StringFault(m.key, e, nfc);
      assert Holds(v, m.key);
    }
  }

  lemma ShownStep(v: Json, e: Refusal, nfc: Normal)
    ensures ShownWithin(v, e, nfc) <==> Shows(v, e, nfc) || exists y :: y in Parts(v) && ShownWithin(y, e, nfc)
  {
    hide Shows, Parts;
    if ShownWithin(v, e, nfc) {
      var x :| Within(x, v) && Shows(x, e, nfc);
      if x != v {
        var y :| y in Parts(v) && Within(x, y);
        assert ShownWithin(y, e, nfc);
      }
    }
    if y :| y in Parts(v) && ShownWithin(y, e, nfc) {
      var x :| Within(x, y) && Shows(x, e, nfc);
      assert Within(x, v);
    }
  }

  lemma FaultStep(v: Json, e: Refusal, nfc: Normal)
    ensures Fault(v, e, nfc) <==> Shows(v, e, nfc) || exists y :: y in Parts(v) && Fault(y, e, nfc)
  {
    OwnFaultShows(v, e, nfc);
    hide OwnRefusal, KeyFault, Shows, Parts;
  }

  // A fault is a number that is no safe integer, a value JSON cannot hold, or a string or key
  // that is unpaired or not normalized, somewhere in the value.
  lemma {:induction false} FaultMeaning(v: Json, e: Refusal, nfc: Normal)
    ensures Fault(v, e, nfc) <==> ShownWithin(v, e, nfc)
    decreases v
  {
    hide *;
    FaultStep(v, e, nfc);
    ShownStep(v, e, nfc);
    forall y | y in Parts(v) ensures Fault(y, e, nfc) <==> ShownWithin(y, e, nfc) {
      FaultMeaning(y, e, nfc);
    }
  }

  // What may be serialized, and for what reason the rest may be refused.
  lemma DomainMeaning(v: Json, nfc: Normal)
    ensures InDomain(v, nfc) <==> forall e :: !ShownWithin(v, e, nfc)
  {
    hide *;
    InDomainIff(v, nfc);
    FaultlessMeans(v, nfc);
  }

  lemma FaultlessMeans(v: Json, nfc: Normal)
    ensures Faultless(v, nfc) <==> forall e :: !ShownWithin(v, e, nfc)
  {
    forall e ensures Fault(v, e, nfc) <==> ShownWithin(v, e, nfc) { FaultMeaning(v, e, nfc); }
    hide Fault, ShownWithin;
  }

  // ---------- bounds of a list of parts, in any order ----------

  function ListNodes(vs: seq<Json>): nat {
    if |vs| == 0 then 0 else ListNodes(vs[..|vs| - 1]) + Nodes(vs[|vs| - 1])
  }

  function ListHeight(vs: seq<Json>): nat {
    if |vs| == 0 then 0 else Max(ListHeight(vs[..|vs| - 1]), 1 + Height(vs[|vs| - 1]))
  }

  predicate AllInDomain(vs: seq<Json>, nfc: Normal) {
    forall x :: x in vs ==> InDomain(x, nfc)
  }

  predicate ListFits(vs: seq<Json>, depth: nat, n: nat, nfc: Normal) {
    depth + ListHeight(vs) <= MAX_DEPTH && n + ListNodes(vs) <= MAX_NODES && AllInDomain(vs, nfc)
  }

  lemma {:induction false} PartsBounds(v: Json, k: nat)
    requires k <= |Parts(v)|
    ensures NodesTo(v, k) == ListNodes(Parts(v)[..k]) && HeightTo(v, k) == ListHeight(Parts(v)[..k])
  {
    if k > 0 {
      PartsBounds(v, k - 1);
      assert Parts(v)[..k][..k - 1] == Parts(v)[..k - 1];
    }
  }

  lemma FitsByParts(v: Json, depth: nat, n: nat, nfc: Normal)
    ensures Fits(v, depth, n, nfc) <==>
      OwnRefusal(v, nfc).None? && KeysOk(v, nfc) && ListFits(Parts(v), depth, n + 1, nfc)
    ensures Nodes(v) == 1 + ListNodes(Parts(v)) && Height(v) == ListHeight(Parts(v))
    ensures InDomain(v, nfc) <==> OwnRefusal(v, nfc).None? && KeysOk(v, nfc) && AllInDomain(Parts(v), nfc)
  {
    PartsBounds(v, |Parts(v)|);
    assert Parts(v)[..|Parts(v)|] == Parts(v);
    assert InDomain(v, nfc) <==> OwnRefusal(v, nfc).None? && KeysOk(v, nfc) && AllInDomain(Parts(v), nfc);
    hide OwnRefusal, KeysOk, AllInDomain, Parts, InDomain;
  }

  lemma ListStep(vs: seq<Json>, k: nat, nfc: Normal)
    requires k < |vs|
    ensures ListNodes(vs[..k + 1]) == ListNodes(vs[..k]) + Nodes(vs[k])
    ensures ListHeight(vs[..k + 1]) == Max(ListHeight(vs[..k]), 1 + Height(vs[k]))
    ensures AllInDomain(vs[..k + 1], nfc) <==> AllInDomain(vs[..k], nfc) && InDomain(vs[k], nfc)
  {
    assert vs[..k + 1][..k] == vs[..k] && vs[..k + 1] == vs[..k] + [vs[k]];
    hide Nodes, Height, InDomain;
  }

  lemma MaxKeeps(a: nat, b: nat)
    ensures a <= Max(a, b) && b <= Max(a, b)
  {
  }

  lemma {:induction false} ListPrefix(vs: seq<Json>, k: nat, nfc: Normal)
    requires k <= |vs|
    ensures ListNodes(vs[..k]) <= ListNodes(vs) && ListHeight(vs[..k]) <= ListHeight(vs)
    ensures AllInDomain(vs, nfc) ==> AllInDomain(vs[..k], nfc)
    decreases |vs| - k
  {
    hide *;
    if k == |vs| {
      assert vs[..k] == vs;
    } else {
      MaxKeeps(ListHeight(vs[..k]), 1 + Height(vs[k]));
      ListPrefix(vs, k + 1, nfc);
      ListStep(vs, k, nfc);
    }
  }

  predicate ListFault(vs: seq<Json>, e: Refusal, nfc: Normal) {
    exists x :: x in vs && Fault(x, e, nfc)
  }

  // Refusing part k is refusing the list, for the reason given.
  lemma ListBlame(vs: seq<Json>, k: nat, depth: nat, n: nat, nfc: Normal, e: Refusal)
    requires k < |vs| && Truthful(e, vs[k], depth + 1, n + ListNodes(vs[..k]), nfc)
    ensures !ListFits(vs, depth, n, nfc)
    ensures match e
      case TooDeep => depth + ListHeight(vs) > MAX_DEPTH
      case TooManyNodes => n + ListNodes(vs) > MAX_NODES
      case _ => ListFault(vs, e, nfc)
  {
    hide ListNodes, ListHeight, AllInDomain, Nodes, Height, InDomain, Fault;
    if !e.TooDeep? && !e.TooManyNodes? { FaultOutside(vs[k], e, nfc); }
    ListStep(vs, k, nfc);
    ListPrefix(vs, k + 1, nfc);
  }

  function Values(ms: seq<Member<Json>>): (r: seq<Json>)
    ensures |r| == |ms| && forall i :: 0 <= i < |r| ==> r[i] == ms[i].value
  {
    seq(|ms|, i requires 0 <= i < |ms| => ms[i].value)
  }

  lemma ValuesAppend(ms: seq<Member<Json>>, nfc: Normal)
    requires |ms| > 0
    ensures var p := ms[..|ms| - 1]; var v := ms[|ms| - 1].value;
      && ListNodes(Values(ms)) == ListNodes(Values(p)) + Nodes(v)
      && ListHeight(Values(ms)) == Max(ListHeight(Values(p)), 1 + Height(v))
      && (AllInDomain(Values(ms), nfc) <==> AllInDomain(Values(p), nfc) && InDomain(v, nfc))
  {
    hide *;
    var k := |ms| - 1;
    assert Values(ms)[..k + 1] == Values(ms) && Values(ms)[..k] == Values(ms[..k]);
    ListStep(Values(ms), k, nfc);
  }

  lemma {:induction false} InsertBounds(s: seq<Member<Json>>, x: Member<Json>, nfc: Normal)
    ensures var t := Values(Insert(s, x));
      && ListNodes(t) == ListNodes(Values(s)) + Nodes(x.value)
      && ListHeight(t) == Max(ListHeight(Values(s)), 1 + Height(x.value))
      && (AllInDomain(t, nfc) <==> AllInDomain(Values(s), nfc) && InDomain(x.value, nfc))
  {
    hide ListNodes, ListHeight, AllInDomain, Values, Nodes, Height, InDomain;
    var t := Insert(s, x);
    if |s| == 0 || !Before(x, s[|s| - 1]) {
      ValuesAppend(t, nfc);
      assert t[..|t| - 1] == s;
    } else {
      var p := s[..|s| - 1];
      InsertBounds(p, x, nfc);
      ValuesAppend(t, nfc);
      ValuesAppend(s, nfc);
      assert t[..|t| - 1] == Insert(p, x);
    }
  }

  lemma SortStep<V>(s: seq<Member<V>>)
    requires |s| > 0
    ensures Sort(s) == Insert(Sort(s[..|s| - 1]), s[|s| - 1])
  {
  }

  lemma SortEmpty<V>(s: seq<Member<V>>)
    requires |s| == 0
    ensures Sort(s) == s
  {
  }

  // Sorting changes none of the bounds.
  lemma {:induction false} SortBounds(ms: seq<Member<Json>>, nfc: Normal)
    ensures var t := Values(Sort(ms));
      && ListNodes(t) == ListNodes(Values(ms)) && ListHeight(t) == ListHeight(Values(ms))
      && (AllInDomain(t, nfc) <==> AllInDomain(Values(ms), nfc))
  {
    hide *;
    if |ms| == 0 {
      assert Sort(ms) == ms by { SortEmpty(ms); }
    } else {
      SortStep(ms);
      SortBounds(ms[..|ms| - 1], nfc);
      InsertBounds(Sort(ms[..|ms| - 1]), ms[|ms| - 1], nfc);
      ValuesAppend(ms, nfc);
    }
  }

  // ---------- the encoder ----------

  // What encoding a value at a depth does to a budget that stood at n.
  predicate Encoded(v: Json, depth: nat, n: nat, nfc: Normal, r: Result<Text, Refusal>, after: nat) {
    && (r.Ok? <==> Fits(v, depth, n, nfc))
    && (r.Ok? ==> r.value == CanonicalText(v) && after == n + Nodes(v))
    && (r.Err? ==> Truthful(r.error, v, depth, n, nfc))
  }

  predicate ListTruthful(e: Refusal, vs: seq<Json>, depth: nat, n: nat, nfc: Normal) {
    match e
    case TooDeep => depth + ListHeight(vs) > MAX_DEPTH
    case TooManyNodes => n + ListNodes(vs) > MAX_NODES
    case _ => ListFault(vs, e, nfc)
  }

  predicate ListEncoded(vs: seq<Json>, text: Text, depth: nat, n: nat, nfc: Normal, r: Result<Text, Refusal>,
                        after: nat)
  {
    && (r.Ok? <==> ListFits(vs, depth, n, nfc))
    && (r.Ok? ==> r.value == text && after == n + ListNodes(vs))
    && (r.Err? ==> ListTruthful(r.error, vs, depth, n, nfc))
  }

  // The loops have encoded the first k parts, and more is the text of the rest.
  predicate Underway(vs: seq<Json>, k: nat, depth: nat, n: nat, nfc: Normal, now: nat, body: Text, more: Text,
                     text: Text)
    requires k <= |vs|
  {
    ListFits(vs[..k], depth, n, nfc) && now == n + ListNodes(vs[..k]) && body + more == text
  }

  lemma Started(vs: seq<Json>, depth: nat, n: nat, nfc: Normal, text: Text)
    requires depth <= MAX_DEPTH && n <= MAX_NODES
    ensures Underway(vs, 0, depth, n, nfc, n, [], text, text)
  {
  }

  lemma Onwards(vs: seq<Json>, k: nat, depth: nat, n: nat, nfc: Normal, now: nat, body: Text, more: Text, text: Text,
                r: Result<Text, Refusal>, after: nat, prefix: Text, later: Text)
    requires k < |vs| && Underway(vs, k, depth, n, nfc, now, body, more, text)
    requires Encoded(vs[k], depth + 1, now, nfc, r, after)
    requires more == prefix + CanonicalText(vs[k]) + later
    ensures r.Ok? ==> Underway(vs, k + 1, depth, n, nfc, after, body + (prefix + r.value), later, text)
    ensures r.Err? ==> ListEncoded(vs, text, depth, n, nfc, r, after)
  {
    hide ListNodes, ListHeight, AllInDomain, Nodes, Height, InDomain, CanonicalText;
    ListStep(vs, k, nfc);
    if r.Err? {
      ListBlame(vs, k, depth, n, nfc, r.error);
    } else {
      assert body + (prefix + r.value) + later == body + (prefix + r.value + later);
    }
  }

  lemma Finished(vs: seq<Json>, depth: nat, n: nat, nfc: Normal, now: nat, body: Text, text: Text)
    requires Underway(vs, |vs|, depth, n, nfc, now, body, [], text)
    ensures ListEncoded(vs, text, depth, n, nfc, Ok(body), now)
  {
    assert vs[..|vs|] == vs && body + [] == body;
  }

  class Budget {
    var n: nat

    constructor ()
      ensures n == 0
    {
      n := 0;
    }
  }

  lemma CanonItems(v: Json)
    requires v.Arr?
    ensures var c := Canon(v);
      c.Arr? && |c.items| == |v.items| && forall k :: 0 <= k < |v.items| ==> c.items[k] == Canon(v.items[k])
  {
  }

  // Sorting first and canonizing the values after gives the members of the canonical form.
  lemma CanonMembers(v: Json)
    requires v.Obj?
    ensures var c := Canon(v); c.Obj? && c.members == MapValues(Sort(v.members), Canon)
  {
    SortMapped(v.members, Canon);
    assert seq(|v.members|, i requires 0 <= i < |v.members| => Member(v.members[i].key, Canon(v.members[i].value)))
      == MapValues(v.members, Canon);
  }

  lemma ItemsFromStep(v: Json, k: nat)
    requires v.Arr?
    ensures Canon(v).Arr? && |Canon(v).items| == |v.items|
    ensures k < |v.items| ==>
      ItemsFrom(Canon(v), k) == Separator(k) + CanonicalText(v.items[k]) + ItemsFrom(Canon(v), k + 1)
    ensures ItemsFrom(Canon(v), |v.items|) == []
  {
    CanonItems(v);
    hide Canon, Write;
  }

  lemma MembersFromStep(v: Json, sorted: seq<Member<Json>>, k: nat)
    requires v.Obj? && sorted == Sort(v.members)
    ensures Canon(v).Obj? && |Canon(v).members| == |sorted|
    ensures k < |sorted| ==>
      MembersFrom(Canon(v), k) ==
        Separator(k) + Quote(sorted[k].key) + [COLON] + CanonicalText(sorted[k].value) + MembersFrom(Canon(v), k + 1)
    ensures MembersFrom(Canon(v), |sorted|) == []
  {
    CanonMembers(v);
    hide Canon, Write, Quote, Sort;
    var c := Canon(v);
    if k < |sorted| {
      assert c.members[k] == Member(sorted[k].key, Canon(sorted[k].value));
      var key, value, more := Quote(sorted[k].key), CanonicalText(sorted[k].value), MembersFrom(c, k + 1);
      assert MembersFrom(c, k) == Separator(k) + (key + [COLON] + value) + more;
      hide *;
      Flatten(Separator(k), key, [COLON], value, more);
    }
  }

  lemma Flatten(s: Text, key: Text, c: Text, value: Text, more: Text)
    ensures s + (key + c + value) + more == s + key + c + value + more
  {
  }

  method EncodeItems(v: Json, depth: nat, budget: Budget, nfc: Normal) returns (r: Result<Text, Refusal>)
    requires v.Arr? && depth <= MAX_DEPTH && budget.n <= MAX_NODES
    modifies budget
    ensures Canon(v).Arr?
    ensures ListEncoded(v.items, ItemsFrom(Canon(v), 0), depth, old(budget.n), nfc, r, budget.n)
    decreases v, 1
  {
    hide *;
    var vs, body: Text := v.items, [];
    ItemsFromStep(v, 0);
    ghost var c, n := Canon(v), budget.n;
    Started(vs, depth, n, nfc, ItemsFrom(c, 0));
    for k := 0 to |vs|
      invariant Underway(vs, k, depth, n, nfc, budget.n, body, ItemsFrom(c, k), ItemsFrom(c, 0))
    {
      ghost var now := budget.n;
      var x := EncodeValue(vs[k], depth + 1, budget, nfc);
      ItemsFromStep(v, k);
      Onwards(vs, k, depth, n, nfc, now, body, ItemsFrom(c, k), ItemsFrom(c, 0), x, budget.n, Separator(k),
              ItemsFrom(c, k + 1));
      if x.Err? { return x; }
      body := body + (Separator(k) + x.value);
    }
    Finished(vs, depth, n, nfc, budget.n, body, ItemsFrom(c, 0));
    return Ok(body);
  }

  method EncodeMembers(v: Json, sorted: seq<Member<Json>>, depth: nat, budget: Budget, nfc: Normal)
    returns (r: Result<Text, Refusal>)
    requires v.Obj? && sorted == Sort(v.members) && depth <= MAX_DEPTH && budget.n <= MAX_NODES
    modifies budget
    ensures Canon(v).Obj?
    ensures ListEncoded(Values(sorted), MembersFrom(Canon(v), 0), depth, old(budget.n), nfc, r, budget.n)
    decreases v, 1
  {
    hide *;
    ghost var vs := Values(sorted);
    var body: Text := [];
    MembersFromStep(v, sorted, 0);
    ghost var c, n := Canon(v), budget.n;
    Started(vs, depth, n, nfc, MembersFrom(c, 0));
    for k := 0 to |sorted|
      invariant Underway(vs, k, depth, n, nfc, budget.n, body, MembersFrom(c, k), MembersFrom(c, 0))
    {
      ghost var now := budget.n;
      SortedPartSmaller(v, sorted, k);
      var x := EncodeValue(sorted[k].value, depth + 1, budget, nfc);
      MembersFromStep(v, sorted, k);
      var before := Separator(k) + Quote(sorted[k].key) + [COLON];
      Onwards(vs, k, depth, n, nfc, now, body, MembersFrom(c, k), MembersFrom(c, 0), x, budget.n, before,
              MembersFrom(c, k + 1));
      if x.Err? { return x; }
      body := body + (before + x.value);
    }
    Finished(vs, depth, n, nfc, budget.n, body, MembersFrom(c, 0));
    return Ok(body);
  }

  lemma SortedPartSmaller(v: Json, sorted: seq<Member<Json>>, k: nat)
    requires v.Obj? && sorted == Sort(v.members) && k < |sorted|
    ensures sorted[k].value < v
  {
    SortKeeps(v.members, sorted[k]);
    hide Sort;
    var i :| 0 <= i < |v.members| && v.members[i] == sorted[k];
  }

  // Keys are checked in sorted order before any value is encoded.
  method AssertKeys(v: Json, sorted: seq<Member<Json>>, nfc: Normal) returns (r: Option<Refusal>)
    requires v.Obj? && sorted == Sort(v.members)
    ensures r.None? <==> KeysOk(v, nfc)
    ensures r.Some? ==> KeyFault(v, r.value, nfc) && !r.value.TooDeep? && !r.value.TooManyNodes?
  {
    for k := 0 to |sorted|
      invariant forall i :: 0 <= i < k ==> StringOk(sorted[i].key, nfc)
    {
      hide Sort, Paired;
      r := AssertStringDomain(sorted[k].key, nfc);
      if r.Some? {
        SortKeeps(v.members, sorted[k]);
        var i :| 0 <= i < |v.members| && v.members[i] == sorted[k];
        assert !StringOk(v.members[i].key, nfc) && v.members[i] in v.members;
        return;
      }
    }
    forall i | 0 <= i < |v.members| ensures StringOk(v.members[i].key, nfc) {
      SortKeeps(v.members, v.members[i]);
      hide Sort, Paired;
      var j :| 0 <= j < |sorted| && sorted[j] == v.members[i];
    }
    return None;
  }

  method EncodeValue(v: Json, depth: nat, budget: Budget, nfc: Normal) returns (r: Result<Text, Refusal>)
    modifies budget
    ensures Encoded(v, depth, old(budget.n), nfc, r, budget.n)
    decreases v, 2
  {
    hide *;
    ghost var n := budget.n;
    FitsByParts(v, depth, n, nfc);
    if depth > MAX_DEPTH {
      Refused(v, depth, n, nfc, TooDeep, budget.n);
      return Err(TooDeep);
    }
    budget.n := budget.n + 1;
    if budget.n > MAX_NODES {
      Refused(v, depth, n, nfc, TooManyNodes, budget.n);
      return Err(TooManyNodes);
    }
    match v
    case Str(s) =>
      var bad := AssertStringDomain(s, nfc);
      ghost var _ := LeafEncoded(v, depth, n, nfc);
      return if bad.Some? then Err(bad.value) else Ok(Quote(s));
    case Arr(_) =>
      var x := EncodeItems(v, depth, budget, nfc);
      ArrayEncoded(v, depth, n, nfc, x, budget.n);
      return if x.Err? then x else Ok([OPEN_ARRAY] + x.value + [CLOSE_ARRAY]);
    case Obj(members) =>
      var sorted := SortMembers(members);
      var bad := AssertKeys(v, sorted, nfc);
      if bad.Some? {
        Refused(v, depth, n, nfc, bad.value, budget.n);
        return Err(bad.value);
      }
      var x := EncodeMembers(v, sorted, depth, budget, nfc);
      ObjectEncoded(v, sorted, depth, n, nfc, x, budget.n);
      return if x.Err? then x else Ok([OPEN_OBJECT] + x.value + [CLOSE_OBJECT]);
    case _ =>
      ghost var _ := LeafEncoded(v, depth, n, nfc);
      return match v
             case Null => Ok(NULL_TEXT)
             case Bool(b) => Ok(if b then TRUE_TEXT else FALSE_TEXT)
             case Num(i) => if Safe(i) then Ok(NumberText(i)) else Err(NotSafeInteger)
             case OtherNumber => Err(NotSafeInteger)
             case _ => Err(NotSerializable);
  }

  lemma Refused(v: Json, depth: nat, n: nat, nfc: Normal, e: Refusal, after: nat)
    requires match e
      case TooDeep => depth > MAX_DEPTH
      case TooManyNodes => n + 1 > MAX_NODES
      case _ => OwnRefusal(v, nfc) == Some(e) || KeyFault(v, e, nfc)
    ensures Encoded(v, depth, n, nfc, Err(e), after)
  {
    hide Height, Nodes, OwnRefusal, KeyFault, InDomain;
    if Fault(v, e, nfc) { FaultOutside(v, e, nfc); }
  }

  lemma LeafEncoded(v: Json, depth: nat, n: nat, nfc: Normal) returns (bad: Option<Refusal>)
    requires !v.Arr? && !v.Obj? && depth <= MAX_DEPTH && n + 1 <= MAX_NODES
    ensures Encoded(v, depth, n, nfc, if bad.Some? then Err(bad.value) else Ok(CanonicalText(v)), n + 1)
    ensures match v
      case Str(s) =>
        && CanonicalText(v) == Quote(s)
        && bad == if !Paired(s) then Some(LoneSurrogate) else if !nfc(s) then Some(NotNormalized) else None
      case Null => bad.None? && CanonicalText(v) == NULL_TEXT
      case Bool(b) => bad.None? && CanonicalText(v) == if b then TRUE_TEXT else FALSE_TEXT
      case Num(i) =>
        && CanonicalText(v) == NumberText(i)
        && bad == if Safe(i) then None else Some(NotSafeInteger)
      case OtherNumber => bad == Some(NotSafeInteger)
      case _ => bad == Some(NotSerializable)
  {
    bad := OwnRefusal(v, nfc);
    FitsByParts(v, depth, n, nfc);
    hide NumberText, Quote, Paired;
  }

  // A fault of a part is one of the whole.
  lemma PartsFault(v: Json, nfc: Normal)
    ensures forall e :: ListFault(Parts(v), e, nfc) ==> Fault(v, e, nfc)
  {
    hide OwnRefusal, KeyFault, Parts;
  }

  lemma SortedFault(ms: seq<Member<Json>>, nfc: Normal)
    ensures forall e :: ListFault(Values(Sort(ms)), e, nfc) ==> ListFault(Values(ms), e, nfc)
  {
    hide Sort, Fault;
    var t := Sort(ms);
    forall e | ListFault(Values(t), e, nfc) ensures ListFault(Values(ms), e, nfc) {
      var x :| x in Values(t) && Fault(x, e, nfc);
      var i :| 0 <= i < |t| && Values(t)[i] == x;
      SortKeeps(ms, t[i]);
      var j :| 0 <= j < |ms| && ms[j] == t[i];
      assert Values(ms)[j] == x;
    }
  }

  lemma SortedEncoded(ms: seq<Member<Json>>, text: Text, depth: nat, n: nat, nfc: Normal, x: Result<Text, Refusal>,
                      after: nat)
    requires ListEncoded(Values(Sort(ms)), text, depth, n, nfc, x, after)
    ensures ListEncoded(Values(ms), text, depth, n, nfc, x, after)
  {
    SortBounds(ms, nfc);
    SortedFault(ms, nfc);
    hide Sort, Values, ListNodes, ListHeight, AllInDomain, ListFault;
  }

  // A container is encoded once its parts are.
  lemma PartsEncoded(v: Json, text: Text, depth: nat, n: nat, nfc: Normal, x: Result<Text, Refusal>, after: nat)
    requires OwnRefusal(v, nfc).None? && KeysOk(v, nfc)
    requires ListEncoded(Parts(v), text, depth, n + 1, nfc, x, after)
    ensures Encoded(v, depth, n, nfc, if x.Err? then x else Ok(CanonicalText(v)), after)
    ensures x.Ok? ==> x.value == text
  {
    FitsByParts(v, depth, n, nfc);
    PartsFault(v, nfc);
    hide OwnRefusal, KeysOk, Parts, ListNodes, ListHeight, Nodes, Height, ListFits, Fits, Fault, ListFault,
         CanonicalText;
  }

  lemma ArrayText(v: Json)
    requires v.Arr? && Canon(v).Arr?
    ensures CanonicalText(v) == [OPEN_ARRAY] + ItemsFrom(Canon(v), 0) + [CLOSE_ARRAY]
  {
    hide Canon, ItemsFrom;
  }

  lemma ObjectText(v: Json)
    requires v.Obj? && Canon(v).Obj?
    ensures CanonicalText(v) == [OPEN_OBJECT] + MembersFrom(Canon(v), 0) + [CLOSE_OBJECT]
  {
    hide Canon, MembersFrom;
  }

  lemma ArrayOwn(v: Json, nfc: Normal)
    requires v.Arr?
    ensures OwnRefusal(v, nfc).None? && KeysOk(v, nfc) && Parts(v) == v.items
  {
  }

  lemma ObjectOwn(v: Json, nfc: Normal)
    requires v.Obj?
    ensures OwnRefusal(v, nfc).None? && Parts(v) == Values(v.members)
  {
  }

  lemma ArrayEncoded(v: Json, depth: nat, n: nat, nfc: Normal, x: Result<Text, Refusal>, after: nat)
    requires v.Arr? && Canon(v).Arr?
    requires ListEncoded(v.items, ItemsFrom(Canon(v), 0), depth, n + 1, nfc, x, after)
    ensures Encoded(v, depth, n, nfc, if x.Err? then x else Ok([OPEN_ARRAY] + x.value + [CLOSE_ARRAY]), after)
  {
    hide *;
    ArrayOwn(v, nfc);
    PartsEncoded(v, ItemsFrom(Canon(v), 0), depth, n, nfc, x, after);
    ArrayText(v);
  }

  lemma ObjectEncoded(v: Json, sorted: seq<Member<Json>>, depth: nat, n: nat, nfc: Normal, x: Result<Text, Refusal>,
                      after: nat)
    requires v.Obj? && Canon(v).Obj? && sorted == Sort(v.members) && KeysOk(v, nfc)
    requires ListEncoded(Values(sorted), MembersFrom(Canon(v), 0), depth, n + 1, nfc, x, after)
    ensures Encoded(v, depth, n, nfc, if x.Err? then x else Ok([OPEN_OBJECT] + x.value + [CLOSE_OBJECT]), after)
  {
    hide *;
    ObjectOwn(v, nfc);
    SortedEncoded(v.members, MembersFrom(Canon(v), 0), depth, n + 1, nfc, x, after);
    PartsEncoded(v, MembersFrom(Canon(v), 0), depth, n, nfc, x, after);
    ObjectText(v);
  }

  method CanonicalString(v: Json, nfc: Normal) returns (r: Result<Text, Refusal>)
    ensures r.Ok? <==> Height(v) <= MAX_DEPTH && Nodes(v) <= MAX_NODES && InDomain(v, nfc)
    ensures r.Ok? ==> r.value == CanonicalText(v)
    ensures r.Err? ==> Truthful(r.error, v, 0, 0, nfc)
  {
    var budget := new Budget();
    r := EncodeValue(v, 0, budget, nfc);
    hide Height, Nodes, InDomain, CanonicalText;
  }

  // ---------- the text determines the value, and only the value ----------

  lemma {:induction false} DomainWritable(v: Json, nfc: Normal)
    requires InDomain(v, nfc)
    ensures Writable(v)
    decreases v
  {
    forall i | 0 <= i < |Parts(v)| ensures Writable(Parts(v)[i]) { DomainWritable(Parts(v)[i], nfc); }
    assert v.Arr? ==> forall i :: 0 <= i < |v.items| ==> Parts(v)[i] == v.items[i];
    assert v.Obj? ==> forall i :: 0 <= i < |v.members| ==> Parts(v)[i] == v.members[i].value;
  }

  // Canonizing a container whose parts stay writable keeps it writable.
  lemma PartsWritable(v: Json)
    requires Writable(v)
    ensures forall x :: x in Parts(v) ==> Writable(x)
  {
    hide Canon;
  }

  lemma ArrayWritable(v: Json)
    requires v.Arr? && forall x :: x in Parts(v) ==> Writable(Canon(x))
    ensures Writable(Canon(v))
  {
    CanonItems(v);
    var c := Canon(v);
    hide Canon;
    forall i | 0 <= i < |c.items| ensures Writable(c.items[i]) { assert v.items[i] in Parts(v); }
  }

  lemma ObjectWritable(v: Json)
    requires v.Obj? && forall x :: x in Parts(v) ==> Writable(Canon(x))
    ensures Writable(Canon(v))
  {
    CanonMembers(v);
    var c, sorted := Canon(v), Sort(v.members);
    hide Canon, Sort;
    forall i | 0 <= i < |c.members| ensures Writable(c.members[i].value) {
      SortKeeps(v.members, sorted[i]);
      var j :| 0 <= j < |v.members| && v.members[j] == sorted[i];
      assert v.members[j].value == Parts(v)[j];
    }
  }

  lemma LeafCanon(v: Json)
    requires !v.Arr? && !v.Obj?
    ensures Canon(v) == v
  {
  }

  lemma {:induction false} CanonWritable(v: Json)
    requires Writable(v)
    ensures Writable(Canon(v))
    decreases v
  {
    hide *;
    PartsWritable(v);
    forall x | x in Parts(v) ensures Writable(Canon(x)) { CanonWritable(x); }
    if v.Arr? {
      ArrayWritable(v);
    } else if v.Obj? {
      ObjectWritable(v);
    } else {
      LeafCanon(v);
    }
  }

  // The reference parser recovers the value from its text, members in key order.
  lemma CanonicalReads(v: Json, nfc: Normal)
    requires InDomain(v, nfc)
    ensures Parse(CanonicalText(v)) == Found(Canon(v), [])
  {
    DomainWritable(v, nfc);
    CanonWritable(v);
    WrittenReads(Canon(v), []);
    assert CanonicalText(v) + [] == CanonicalText(v);
  }

  // No object in the value has a key twice, as no JavaScript object can.
  predicate DistinctKeys(v: Json)
    decreases v
  {
    (v.Obj? ==> Distinct(v.members)) && forall i :: 0 <= i < |Parts(v)| ==> DistinctKeys(Parts(v)[i])
  }

  function IndexOf<V>(s: seq<Member<V>>, key: Text): (i: nat)
    ensures i <= |s| && (i < |s| ==> s[i].key == key)
    ensures forall j :: 0 <= j < i ==> s[j].key != key
  {
    if |s| == 0 || s[0].key == key then 0 else 1 + IndexOf(s[1..], key)
  }

  // Equal as values: arrays item by item, objects key by key, whatever the order of insertion.
  predicate Same(v: Json, w: Json)
    decreases v
  {
    if v.Arr? && w.Arr? then
      |v.items| == |w.items| && forall i :: 0 <= i < |v.items| ==> Same(v.items[i], w.items[i])
    else if v.Obj? && w.Obj? then
      && (forall j :: 0 <= j < |w.members| ==> IndexOf(v.members, w.members[j].key) < |v.members|)
      && (forall i :: 0 <= i < |v.members| ==>
           var j := IndexOf(w.members, v.members[i].key);
           j < |w.members| && Same(v.members[i].value, w.members[j].value))
    else v == w
  }

  lemma {:induction false} AscendingUnique<V>(a: seq<Member<V>>, b: seq<Member<V>>)
    requires Ascending(a) && Ascending(b) && forall y :: y in a <==> y in b
    ensures a == b
  {
    NonEmptyHas(a);
    NonEmptyHas(b);
    if |a| > 0 && |b| > 0 {
      assert a[0] in b;
      assert b[0] in a;
      var i :| 0 <= i < |b| && b[i] == a[0];
      var j :| 0 <= j < |a| && a[j] == b[0];
      LexAsymmetric(a[0].key, b[0].key);
      assert Before(b[0], b[i]) || i == 0;
      assert Before(a[0], a[j]) || j == 0;
      assert a[0] == b[0];
      forall y ensures y in a[1..] <==> y in b[1..] {
        TailMembers(a, y);
        TailMembers(b, y);
      }
      AscendingUnique(a[1..], b[1..]);
      assert a == [a[0]] + a[1..] && b == [b[0]] + b[1..];
    }
  }

  lemma TailMembers<V>(s: seq<Member<V>>, y: Member<V>)
    requires Ascending(s) && |s| > 0
    ensures y in s[1..] <==> y in s && y != s[0]
  {
    assert s == [s[0]] + s[1..];
    LexAsymmetric(s[0].key, s[0].key);
    assert s[0] !in s[1..] by {
      forall i | 1 <= i < |s| ensures s[i] != s[0] { assert Before(s[0], s[i]); }
    }
  }

  lemma MappedDistinct(ms: seq<Member<Json>>)
    requires Distinct(ms)
    ensures Distinct(MapValues(ms, Canon))
  {
    forall i, j | 0 <= i < |ms| && 0 <= j < |ms|
      ensures OtherKey(MapValues(ms, Canon)[i], MapValues(ms, Canon)[j]) || i == j
    {
      assert OtherKey(ms[i], ms[j]) || i == j;
    }
  }

  // Two lists of members with distinct keys sort alike exactly when they have the same members.
  lemma SortAlike<V>(a: seq<Member<V>>, b: seq<Member<V>>)
    requires Distinct(a) && Distinct(b)
    ensures Sort(a) == Sort(b) <==> forall y :: y in a <==> y in b
  {
    forall y ensures (y in Sort(a) <==> y in a) && (y in Sort(b) <==> y in b) {
      SortKeeps(a, y);
      SortKeeps(b, y);
    }
    SortAscends(a);
    SortAscends(b);
    hide Distinct, Ascending, Sort;
    if forall y :: y in a <==> y in b { AscendingUnique(Sort(a), Sort(b)); }
  }

  lemma {:induction false} SameIffCanon(v: Json, w: Json)
    requires DistinctKeys(v) && DistinctKeys(w)
    ensures Same(v, w) <==> Canon(v) == Canon(w)
    decreases v
  {
    if v.Arr? && w.Arr? {
      CanonItems(v);
      CanonItems(w);
      forall i | 0 <= i < |v.items| && i < |w.items|
        ensures Same(v.items[i], w.items[i]) <==> Canon(v.items[i]) == Canon(w.items[i])
      {
        assert DistinctKeys(Parts(v)[i]) && DistinctKeys(Parts(w)[i]);
        SameIffCanon(v.items[i], w.items[i]);
      }
      ArraysSame(v, w);
    } else if v.Obj? && w.Obj? {
      forall i | 0 <= i < |v.members|
        ensures var j := IndexOf(w.members, v.members[i].key);
          j < |w.members| ==>
            (Same(v.members[i].value, w.members[j].value) <==> Agree(v.members, w.members, i))
      {
        var j := IndexOf(w.members, v.members[i].key);
        if j < |w.members| {
          assert DistinctKeys(Parts(v)[i]) && DistinctKeys(Parts(w)[j]);
          SameIffCanon(v.members[i].value, w.members[j].value);
        }
      }
      ObjectSame(v, w);
      ObjectsSame(v, w);
    } else {
      KindKept(v);
      KindKept(w);
    }
  }

  lemma ObjectSame(v: Json, w: Json)
    requires v.Obj? && w.Obj?
    requires forall i :: 0 <= i < |v.members| ==>
      var j := IndexOf(w.members, v.members[i].key);
      j < |w.members| ==> (Same(v.members[i].value, w.members[j].value) <==> Agree(v.members, w.members, i))
    ensures Same(v, w) <==> AllAgree(v.members, w.members) && Covers(v.members, w.members)
  {
    hide Canon, IndexOf;
    assert forall i :: 0 <= i < |v.members| && Agree(v.members, w.members, i) ==>
      IndexOf(w.members, v.members[i].key) < |w.members|;
    assert Covers(v.members, w.members) <==>
      forall j :: 0 <= j < |w.members| ==> IndexOf(v.members, w.members[j].key) < |v.members|;
    hide Covers, Agree;
  }

  lemma KindKept(v: Json)
    ensures (Canon(v).Arr? <==> v.Arr?) && (Canon(v).Obj? <==> v.Obj?)
    ensures !v.Arr? && !v.Obj? ==> Canon(v) == v
  {
  }

  lemma ArraysSame(v: Json, w: Json)
    requires v.Arr? && w.Arr?
    requires forall i :: 0 <= i < |v.items| && i < |w.items| ==>
      (Same(v.items[i], w.items[i]) <==> Canon(v.items[i]) == Canon(w.items[i]))
    ensures Same(v, w) <==> Canon(v) == Canon(w)
  {
    CanonItems(v);
    CanonItems(w);
    var a, b := Canon(v).items, Canon(w).items;
    if Canon(v) == Canon(w) {
      forall i | 0 <= i < |v.items| ensures Same(v.items[i], w.items[i]) { assert a[i] == b[i]; }
    }
    if Same(v, w) {
      assert a == b;
    }
  }

  predicate Agree(ms: seq<Member<Json>>, ns: seq<Member<Json>>, i: nat)
    requires i < |ms|
  {
    var j := IndexOf(ns, ms[i].key);
    j < |ns| && Canon(ms[i].value) == Canon(ns[j].value)
  }

  lemma AgreeIffMember(ms: seq<Member<Json>>, ns: seq<Member<Json>>, i: nat)
    requires i < |ms| && Distinct(ns)
    ensures MapValues(ms, Canon)[i] in MapValues(ns, Canon) <==> Agree(ms, ns, i)
  {
    var a, b, j := MapValues(ms, Canon), MapValues(ns, Canon), IndexOf(ns, ms[i].key);
    if k :| 0 <= k < |b| && b[k] == a[i] {
      assert OtherKey(ns[j], ns[k]) || j == k;
    }
    if Agree(ms, ns, i) { assert b[j] == a[i]; }
  }

  lemma AgreeBack(ms: seq<Member<Json>>, ns: seq<Member<Json>>, j: nat)
    requires j < |ns| && Distinct(ns) && forall i :: 0 <= i < |ms| ==> Agree(ms, ns, i)
    ensures Agree(ns, ms, j) <==> IndexOf(ms, ns[j].key) < |ms|
  {
    var i := IndexOf(ms, ns[j].key);
    if i < |ms| {
      assert Agree(ms, ns, i);
      assert OtherKey(ns[IndexOf(ns, ms[i].key)], ns[j]) || IndexOf(ns, ms[i].key) == j;
    }
  }

  predicate AllAgree(ms: seq<Member<Json>>, ns: seq<Member<Json>>) {
    forall i :: 0 <= i < |ms| ==> Agree(ms, ns, i)
  }

  predicate Covers(ms: seq<Member<Json>>, ns: seq<Member<Json>>) {
    forall j :: 0 <= j < |ns| ==> IndexOf(ms, ns[j].key) < |ms|
  }

  lemma SameMappedIff(ms: seq<Member<Json>>, ns: seq<Member<Json>>)
    requires Distinct(ms) && Distinct(ns)
    ensures var a, b := MapValues(ms, Canon), MapValues(ns, Canon);
      (forall y :: y in a <==> y in b) <==> AllAgree(ms, ns) && Covers(ms, ns)
  {
    SameMembers(MapValues(ms, Canon), MapValues(ns, Canon));
    forall i | 0 <= i < |ms|
      ensures MapValues(ms, Canon)[i] in MapValues(ns, Canon) <==> Agree(ms, ns, i)
    {
      AgreeIffMember(ms, ns, i);
    }
    forall j | 0 <= j < |ns|
      ensures MapValues(ns, Canon)[j] in MapValues(ms, Canon) <==> Agree(ns, ms, j)
      ensures AllAgree(ms, ns) ==> (Agree(ns, ms, j) <==> IndexOf(ms, ns[j].key) < |ms|)
    {
      AgreeIffMember(ns, ms, j);
      if AllAgree(ms, ns) { AgreeBack(ms, ns, j); }
    }
    hide MapValues, Agree, Distinct, Canon, IndexOf;
  }

  lemma ObjectsSame(v: Json, w: Json)
    requires v.Obj? && w.Obj? && Distinct(v.members) && Distinct(w.members)
    requires Same(v, w) <==> AllAgree(v.members, w.members) && Covers(v.members, w.members)
    ensures Same(v, w) <==> Canon(v) == Canon(w)
  {
    hide *;
    MappedDistinct(v.members);
    MappedDistinct(w.members);
    SortAlike(MapValues(v.members, Canon), MapValues(w.members, Canon));
    CanonMembers(v);
    CanonMembers(w);
    SortMapped(v.members, Canon);
    SortMapped(w.members, Canon);
    SameMappedIff(v.members, w.members);
  }

  lemma SameMembers<V>(a: seq<V>, b: seq<V>)
    ensures (forall y :: y in a <==> y in b) <==>
      (forall i :: 0 <= i < |a| ==> a[i] in b) && (forall j :: 0 <= j < |b| ==> b[j] in a)
  {
    if forall y :: y in a <==> y in b {
      forall i | 0 <= i < |a| ensures a[i] in b { assert a[i] in a; }
      forall j | 0 <= j < |b| ensures b[j] in a { assert b[j] in b; }
    }
  }

  // Canonical texts are equal exactly when the values are, whatever the order of insertion.
  lemma TextDeterminesValue(v: Json, w: Json, nfc: Normal)
    requires InDomain(v, nfc) && InDomain(w, nfc) && DistinctKeys(v) && DistinctKeys(w)
    ensures CanonicalText(v) == CanonicalText(w) <==> Same(v, w)
  {
    CanonicalReads(v, nfc);
    CanonicalReads(w, nfc);
    SameIffCanon(v, w);
    hide Parse, Write, Canon, Same;
  }

  // No object inside the value has its keys out of order.
  predicate KeysAscend(v: Json)
    decreases v
  {
    (v.Obj? ==> Ascending(v.members)) && forall i :: 0 <= i < |Parts(v)| ==> KeysAscend(Parts(v)[i])
  }

  lemma {:induction false} CanonAscends(v: Json)
    requires DistinctKeys(v)
    ensures KeysAscend(Canon(v))
    decreases v
  {
    match v
    case Arr(items) =>
      forall i | 0 <= i < |items| ensures KeysAscend(Canon(items[i])) {
        assert DistinctKeys(Parts(v)[i]);
        hide *;
        CanonAscends(items[i]);
      }
      hide *;
      ArrayAscends(v);
    case Obj(members) =>
      assert Distinct(members);
      forall j | 0 <= j < |members| ensures KeysAscend(Canon(members[j].value)) {
        assert DistinctKeys(Parts(v)[j]);
        hide *;
        CanonAscends(members[j].value);
      }
      hide *;
      ObjectAscends(v);
    case _ =>
  }

  lemma ArrayAscends(v: Json)
    requires v.Arr? && forall i :: 0 <= i < |v.items| ==> KeysAscend(Canon(v.items[i]))
    ensures KeysAscend(Canon(v))
  {
    CanonItems(v);
    hide Canon;
  }

  lemma ObjectAscends(v: Json)
    requires v.Obj? && Distinct(v.members)
    requires forall j :: 0 <= j < |v.members| ==> KeysAscend(Canon(v.members[j].value))
    ensures KeysAscend(Canon(v))
  {
    CanonMembers(v);
    hide Canon, Sort;
    MappedDistinct(v.members);
    SortMapped(v.members, Canon);
    SortAscends(MapValues(v.members, Canon));
    var sorted := Sort(v.members);
    forall i | 0 <= i < |sorted| ensures KeysAscend(Canon(v).members[i].value) {
      SortKeeps(v.members, sorted[i]);
      var j :| 0 <= j < |v.members| && v.members[j] == sorted[i];
    }
  }
}
