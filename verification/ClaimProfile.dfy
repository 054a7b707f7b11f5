/**
 The claim profile of an envelope.

 Every component of the evidence is either authenticated, by a verifier that was run and
 passed, or trusted from its source; one aggregate follows from all of them and from the
 completeness of the rewards.  `DeriveProfile` is the seam's derivation (auditSeam.cjs) and
 `CheckerAccepts` the executable specification's rules (check_vectors.py); the profiles the
 two produce and accept are the same.
 */
module ClaimProfile {
  import opened Outcomes
  import Rewards

  datatype Component =
    | Recognition | BaseProof | CoreContinuityFinality | PlatformCommits | DecoderCoverage | L1Backing
    | ReceiptValidity | BookConformance | Conservation | TransitionHashing | IdentifierConversion | Schedule

  datatype Verifier =
    | CheckpointRecognition | BasePackageProof | CoreWalk | PlatformCommitChain | DecodeDispositions
    | L1BackingAtHeight | ReceiptDuties | BookRules | ConservationRule | TransitionHashes | Identifiers

  datatype Claim = Authenticated | TrustedSource(notRun: seq<Verifier>)

  datatype Aggregate = TrustedOnly | PartialEvidence | ProofVerifiedExceptSchedule

  type Claims = map<Component, Claim>

  datatype Failure = DependencyNotAuthenticated(component: Component, dependency: Component)

  const COMPONENTS := [
    Recognition, BaseProof, CoreContinuityFinality, PlatformCommits, DecoderCoverage, L1Backing,
    ReceiptValidity, BookConformance, Conservation, TransitionHashing, IdentifierConversion, Schedule]

  lemma EveryComponentListed(c: Component)
    ensures c in COMPONENTS
  {
    assert COMPONENTS[0] == Recognition && COMPONENTS[1] == BaseProof && COMPONENTS[2] == CoreContinuityFinality;
    assert COMPONENTS[3] == PlatformCommits && COMPONENTS[4] == DecoderCoverage && COMPONENTS[5] == L1Backing;
    assert COMPONENTS[6] == ReceiptValidity && COMPONENTS[7] == BookConformance && COMPONENTS[8] == Conservation;
    assert COMPONENTS[9] == TransitionHashing && COMPONENTS[10] == IdentifierConversion && COMPONENTS[11] == Schedule;
  }

  function VerifierOf(c: Component): Option<Verifier> {
    match c
    case Recognition => Some(CheckpointRecognition)
    case BaseProof => Some(BasePackageProof)
    case CoreContinuityFinality => Some(CoreWalk)
    case PlatformCommits => Some(PlatformCommitChain)
    case DecoderCoverage => Some(DecodeDispositions)
    case L1Backing => Some(L1BackingAtHeight)
    case ReceiptValidity => Some(ReceiptDuties)
    case BookConformance => Some(BookRules)
    case Conservation => Some(ConservationRule)
    case TransitionHashing => Some(TransitionHashes)
    case IdentifierConversion => Some(Identifiers)
    case Schedule => None
  }

  function Deps(c: Component): seq<Component> {
    match c
    case Recognition => [IdentifierConversion, CoreContinuityFinality]
    case BaseProof => [CoreContinuityFinality, IdentifierConversion]
    case DecoderCoverage => [PlatformCommits]
    case BookConformance => [DecoderCoverage, Recognition]
    case Conservation => [Recognition, CoreContinuityFinality, BookConformance]
    case TransitionHashing => [DecoderCoverage]
    case L1Backing => [CoreContinuityFinality]
    case _ => []
  }

  predicate Barred(c: Component) {
    c == Schedule || c == L1Backing || c == ReceiptValidity
  }

  predicate Incomplete(rec: Rewards.Record) {
    || rec.entitlement.Unknown? || rec.entitlement.Unfinalized?
    || (rec.fanout.Slots? && exists i :: 0 <= i < |rec.fanout.records| && rec.fanout.records[i].allocation.Unclosed?)
  }

  predicate AnyIncomplete(recs: seq<Rewards.Record>) {
    exists i :: 0 <= i < |recs| && Incomplete(recs[i])
  }

  // ---------- the specification's rules ----------

  predicate Total(claims: Claims) {
    forall c: Component :: c in claims
  }

  predicate DependenciesMet(claims: Claims)
    requires Total(claims)
  {
    forall c: Component :: claims[c] == Authenticated ==> forall d :: d in Deps(c) ==> claims[d] == Authenticated
  }

  function NotRun(c: Component): seq<Verifier> {
    if VerifierOf(c).Some? then [VerifierOf(c).value] else []
  }

  predicate ClaimOk(c: Component, claim: Claim) {
    match claim
    case Authenticated => !Barred(c)
    case TrustedSource(notRun) => notRun == NotRun(c)
  }

  function AggregateOf(claims: Claims, incomplete: bool): Aggregate
    requires Total(claims)
  {
    if forall c: Component :: claims[c] != Authenticated then TrustedOnly
    else if incomplete || exists c: Component :: c != Schedule && claims[c] != Authenticated then PartialEvidence
    else ProofVerifiedExceptSchedule
  }

  predicate CheckerAccepts(claims: Claims, aggregate: Aggregate, recs: seq<Rewards.Record>) {
    && Total(claims) && DependenciesMet(claims)
    && (forall c: Component :: ClaimOk(c, claims[c]))
    && aggregate == AggregateOf(claims, AnyIncomplete(recs))
  }

  // ---------- the seam's derivation ----------

  function ClaimFor(c: Component, ran: set<Verifier>): Claim {
    var v := VerifierOf(c);
    if v.Some? && v.value in ran && !Barred(c) then Authenticated else TrustedSource(NotRun(c))
  }

  function ClaimsFor(ran: set<Verifier>): (claims: Claims)
    ensures Total(claims) && forall c: Component :: claims[c] == ClaimFor(c, ran)
  {
    assert forall c: Component :: c in COMPONENTS by { forall c: Component { EveryComponentListed(c); } }
    map c: Component | c in COMPONENTS :: ClaimFor(c, ran)
  }

  method AssertDependencies(claims: Claims) returns (r: Option<Failure>)
    requires Total(claims)
    ensures r.None? <==> DependenciesMet(claims)
    ensures r.Some? ==>
      && claims[r.value.component] == Authenticated && claims[r.value.dependency] != Authenticated
      && r.value.dependency in Deps(r.value.component)
  {
    for i := 0 to |COMPONENTS|
      invariant forall k :: 0 <= k < i && claims[COMPONENTS[k]] == Authenticated ==>
        forall d :: d in Deps(COMPONENTS[k]) ==> claims[d] == Authenticated
    {
      var c := COMPONENTS[i];
      var deps := Deps(c);
      hide Deps;
      for j := 0 to |deps|
        invariant claims[c] == Authenticated ==> forall k :: 0 <= k < j ==> claims[deps[k]] == Authenticated
      {
        if claims[c] == Authenticated && claims[deps[j]] != Authenticated {
          return Some(DependencyNotAuthenticated(c, deps[j]));
        }
      }
    }
    hide Deps;
    forall c: Component | claims[c] == Authenticated ensures forall d :: d in Deps(c) ==> claims[d] == Authenticated {
      EveryComponentListed(c);
      var k :| 0 <= k < |COMPONENTS| && COMPONENTS[k] == c;
    }
    return None;
  }

  method FindIncomplete(recs: seq<Rewards.Record>) returns (incomplete: bool)
    ensures incomplete <==> AnyIncomplete(recs)
  {
    incomplete := false;
    for i := 0 to |recs|
      invariant incomplete <==> exists k :: 0 <= k < i && Incomplete(recs[k])
    {
      var rec := recs[i];
      var unclosed := rec.entitlement.Unknown? || rec.entitlement.Unfinalized?;
      if rec.fanout.Slots? {
        var records := rec.fanout.records;
        for j := 0 to |records|
          invariant unclosed <==>
            || rec.entitlement.Unknown? || rec.entitlement.Unfinalized?
            || exists k :: 0 <= k < j && records[k].allocation.Unclosed?
        {
          if records[j].allocation.Unclosed? { unclosed := true; }
        }
      }
      assert unclosed <==> Incomplete(rec);
      if unclosed { incomplete := true; }
    }
  }

  // Every component that is not the schedule, and whether any is not authenticated.
  method SomeNotAuthenticated(claims: Claims) returns (some: bool, any: bool)
    requires Total(claims)
    ensures some <==> exists c: Component :: c != Schedule && claims[c] != Authenticated
    ensures any <==> exists c: Component :: claims[c] == Authenticated
  {
    some, any := false, false;
    for i := 0 to |COMPONENTS|
      invariant some <==> exists c :: c in COMPONENTS[..i] && c != Schedule && claims[c] != Authenticated
      invariant any <==> exists c :: c in COMPONENTS[..i] && claims[c] == Authenticated
    {
      assert COMPONENTS[..i + 1] == COMPONENTS[..i] + [COMPONENTS[i]];
      if COMPONENTS[i] != Schedule && claims[COMPONENTS[i]] != Authenticated { some := true; }
      if claims[COMPONENTS[i]] == Authenticated { any := true; }
    }
    assert COMPONENTS[..|COMPONENTS|] == COMPONENTS;
    forall c: Component ensures c in COMPONENTS { EveryComponentListed(c); }
  }

  method CollectClaims(ran: set<Verifier>) returns (claims: Claims)
    ensures claims == ClaimsFor(ran)
  {
    hide ClaimFor;
    claims := map[];
    for i := 0 to |COMPONENTS|
      invariant forall c: Component :: c in claims <==> c in COMPONENTS[..i]
      invariant forall c: Component :: c in claims ==> claims[c] == ClaimFor(c, ran)
    {
      assert COMPONENTS[..i + 1] == COMPONENTS[..i] + [COMPONENTS[i]];
      claims := claims[COMPONENTS[i] := ClaimFor(COMPONENTS[i], ran)];
    }
    assert COMPONENTS[..|COMPONENTS|] == COMPONENTS;
    forall c: Component ensures c in claims { EveryComponentListed(c); }
  }

  lemma AggregateFrom(claims: Claims, incomplete: bool, some: bool, any: bool)
    requires Total(claims)
    requires some <==> exists c: Component :: c != Schedule && claims[c] != Authenticated
    requires any <==> exists c: Component :: claims[c] == Authenticated
    ensures AggregateOf(claims, incomplete) ==
      if !any then TrustedOnly else if incomplete || some then PartialEvidence else ProofVerifiedExceptSchedule
  {
  }

  method DeriveProfile(ran: set<Verifier>, recs: seq<Rewards.Record>) returns (r: Result<(Claims, Aggregate), Failure>)
    ensures r.Ok? <==> DependenciesMet(ClaimsFor(ran))
    ensures r.Ok? ==> r.value == (ClaimsFor(ran), AggregateOf(ClaimsFor(ran), AnyIncomplete(recs)))
  {
    hide *;
    var claims := CollectClaims(ran);
    var broken := AssertDependencies(claims);
    if broken.Some? { return Err(broken.value); }
    var incomplete := FindIncomplete(recs);
    var some, any := SomeNotAuthenticated(claims);
    var aggregate :=
      if !any then TrustedOnly else if incomplete || some then PartialEvidence else ProofVerifiedExceptSchedule;
    AggregateFrom(claims, incomplete, some, any);
    return Ok((claims, aggregate));
  }

  // ---------- the two agree ----------

  lemma VerifierNamesOne(c: Component, d: Component)
    requires VerifierOf(c).Some? && VerifierOf(c) == VerifierOf(d)
    ensures c == d
  {
  }

  // The verifiers an accepted profile says have run.
  function RanOf(claims: Claims): set<Verifier> {
    set c | c in claims && claims[c] == Authenticated && VerifierOf(c).Some? :: VerifierOf(c).value
  }

  lemma ClaimsOfRan(claims: Claims)
    requires Total(claims) && forall c: Component :: ClaimOk(c, claims[c])
    ensures ClaimsFor(RanOf(claims)) == claims
  {
    hide ClaimFor, ClaimOk, RanOf, ClaimsFor;
    forall c: Component ensures ClaimFor(c, RanOf(claims)) == claims[c] { ClaimOfRan(claims, c); }
    TotalSame(claims, ClaimsFor(RanOf(claims)));
  }

  lemma TotalSame(a: Claims, b: Claims)
    requires Total(a) && Total(b) && forall c: Component :: a[c] == b[c]
    ensures a == b
  {
  }

  lemma ClaimOfRan(claims: Claims, c: Component)
    requires Total(claims) && ClaimOk(c, claims[c])
    ensures ClaimFor(c, RanOf(claims)) == claims[c]
  {
    if VerifierOf(c).Some? { RanIff(claims, c); }
    hide RanOf, NotRun;
  }

  lemma RanIff(claims: Claims, c: Component)
    requires Total(claims) && VerifierOf(c).Some?
    ensures VerifierOf(c).value in RanOf(claims) <==> claims[c] == Authenticated
  {
    if VerifierOf(c).value in RanOf(claims) {
      var d :| d in claims && claims[d] == Authenticated && VerifierOf(d) == VerifierOf(c);
      VerifierNamesOne(c, d);
    }
  }

  // The specification accepts exactly the profiles the seam derives from some set of verifiers.
  lemma AcceptedIffDerived(claims: Claims, aggregate: Aggregate, recs: seq<Rewards.Record>)
    ensures CheckerAccepts(claims, aggregate, recs) <==>
      exists ran :: claims == ClaimsFor(ran) && DependenciesMet(claims)
        && aggregate == AggregateOf(claims, AnyIncomplete(recs))
  {
    if CheckerAccepts(claims, aggregate, recs) {
      ClaimsOfRan(claims);
      assert claims == ClaimsFor(RanOf(claims));
    }
    if ran :| claims == ClaimsFor(ran) {
      forall c: Component ensures ClaimOk(c, claims[c]) { assert claims[c] == ClaimFor(c, ran); }
    }
  }

  // d is reached from c by at most n dependency steps.
  predicate Needs(c: Component, d: Component, n: nat)
    decreases n
  {
    n > 0 && exists e :: e in Deps(c) && (e == d || Needs(e, d, n - 1))
  }

  // Authentication is closed under dependencies of dependencies.
  lemma {:induction false} AuthenticatedClosure(claims: Claims, c: Component, d: Component, n: nat)
    requires Total(claims) && DependenciesMet(claims) && claims[c] == Authenticated && Needs(c, d, n)
    ensures claims[d] == Authenticated
    decreases n
  {
    var e :| e in Deps(c) && (e == d || Needs(e, d, n - 1));
    hide Deps;
    if e != d { AuthenticatedClosure(claims, e, d, n - 1); }
  }

  // Two barred components are required for it, so no accepted profile has the strongest aggregate.
  lemma StrongestUnreachable(claims: Claims, aggregate: Aggregate, recs: seq<Rewards.Record>)
    requires CheckerAccepts(claims, aggregate, recs)
    ensures aggregate != ProofVerifiedExceptSchedule
    ensures aggregate == TrustedOnly <==> forall c: Component :: claims[c] != Authenticated
  {
    assert ClaimOk(L1Backing, claims[L1Backing]);
    assert claims[L1Backing] != Authenticated;
  }

  lemma DepsNotBarred(c: Component, d: Component)
    requires d in Deps(c)
    ensures d != Schedule && d != L1Backing && d != ReceiptValidity
  {
  }

  lemma ClaimWhenAllRan(c: Component, ran: set<Verifier>)
    requires forall v: Verifier :: v in ran
    ensures ClaimFor(c, ran) == Authenticated <==> c != Schedule && c != L1Backing && c != ReceiptValidity
  {
    hide NotRun;
  }

  // With every verifier run and passed, everything but the barred three is authenticated.
  lemma EveryVerifierRan(ran: set<Verifier>)
    requires forall v: Verifier :: v in ran
    ensures DependenciesMet(ClaimsFor(ran))
    ensures forall c: Component ::
      ClaimsFor(ran)[c] == Authenticated <==> c != Schedule && c != L1Backing && c != ReceiptValidity
  {
    hide ClaimsFor, ClaimFor, Deps;
    forall c: Component
      ensures ClaimsFor(ran)[c] == Authenticated <==> c != Schedule && c != L1Backing && c != ReceiptValidity
    {
      ClaimWhenAllRan(c, ran);
    }
    forall c: Component, d | d in Deps(c) ensures ClaimsFor(ran)[d] == Authenticated { DepsNotBarred(c, d); }
  }

  const CONSERVATION_BASIS: set<Component> := {
    Conservation, Recognition, CoreContinuityFinality, BookConformance, DecoderCoverage, PlatformCommits,
    IdentifierConversion
  }

  lemma BasisClosed(c: Component, d: Component)
    requires c in CONSERVATION_BASIS && d in Deps(c)
    ensures d in CONSERVATION_BASIS
  {
  }

  lemma BasisReached()
    ensures Recognition in Deps(Conservation) && CoreContinuityFinality in Deps(Conservation)
    ensures BookConformance in Deps(Conservation) && IdentifierConversion in Deps(Recognition)
    ensures DecoderCoverage in Deps(BookConformance) && PlatformCommits in Deps(DecoderCoverage)
  {
  }

  lemma BasisMembers(c: Component)
    ensures c in CONSERVATION_BASIS <==>
      || c == Conservation || c == Recognition || c == CoreContinuityFinality || c == BookConformance
      || c == DecoderCoverage || c == PlatformCommits || c == IdentifierConversion
  {
  }

  // Authenticated conservation rests on six other components, and on no more than these.
  lemma ConservationRests(claims: Claims, ran: set<Verifier>)
    requires Total(claims) && DependenciesMet(claims) && claims[Conservation] == Authenticated
    ensures forall c :: c in CONSERVATION_BASIS ==> claims[c] == Authenticated
    ensures (forall c: Component :: ClaimFor(c, ran) == Authenticated <==> c in CONSERVATION_BASIS) ==>
      DependenciesMet(ClaimsFor(ran))
  {
    hide Deps, ClaimFor, ClaimsFor, CONSERVATION_BASIS;
    BasisReached();
    forall c | c in CONSERVATION_BASIS ensures claims[c] == Authenticated { BasisMembers(c); }
    if forall c: Component :: ClaimFor(c, ran) == Authenticated <==> c in CONSERVATION_BASIS {
      forall c: Component, d | c in CONSERVATION_BASIS && d in Deps(c) ensures d in CONSERVATION_BASIS {
        BasisClosed(c, d);
      }
    }
  }

  // With no verifier run every component is trusted, and names the one verifier it lacks.
  lemma NoVerifierRan()
    ensures var claims := ClaimsFor({});
      && claims[Recognition] == TrustedSource([CheckpointRecognition])
      && claims[BaseProof] == TrustedSource([BasePackageProof])
      && claims[CoreContinuityFinality] == TrustedSource([CoreWalk])
      && claims[PlatformCommits] == TrustedSource([PlatformCommitChain])
      && claims[DecoderCoverage] == TrustedSource([DecodeDispositions])
      && claims[L1Backing] == TrustedSource([L1BackingAtHeight])
      && claims[ReceiptValidity] == TrustedSource([ReceiptDuties])
      && claims[BookConformance] == TrustedSource([BookRules])
      && claims[Conservation] == TrustedSource([ConservationRule])
      && claims[TransitionHashing] == TrustedSource([TransitionHashes])
      && claims[IdentifierConversion] == TrustedSource([Identifiers])
      && claims[Schedule] == TrustedSource([])
  {
    hide ClaimsFor;
  }
}
