/**
 * Choosing a correction source: a virtual reference station if every gate passes, else one
 * physical base station, else nothing. Messages and reason texts are left out.
 */
module Selection {
  import opened Ordering
  import opened Text
  import opened Wire

  datatype QC = ACCEPT | WARN | REJECT | QC_BLOCKED | MISSING

  datatype Candidate = Candidate(id: string, qc: QC, coordinateVerified: bool, navigation: bool,
                                 hasInterval: bool, distance: Option<real>)

  /** The target's coordinate may be unknown; the target may itself be a listed station. */
  datatype Discovery = Discovery(targetKnown: bool, targetId: Option<string>, candidates: seq<Candidate>, warnings: nat)

  datatype Policy = Policy(
    minReferences: int, allowExtrapolation: bool, fallbackEnabled: bool, requireSpatial: bool, requireVrs: bool,
    previewEnabled: bool, minCommonSeconds: real, preferredMax: real, degradedMax: real, maximum: real)

  predicate ValidPolicy(p: Policy) {
    && p.minReferences >= 3 && p.minCommonSeconds > 0.0
    && 0.0 < p.preferredMax <= p.degradedMax <= p.maximum
  }

  datatype Approval = APPROVED | PROVISIONAL | NOT_APPROVED | UPSTREAM_BLOCKED | UNAVAILABLE

  /** An upstream assessment: its approval, and whether it carries a fingerprint. */
  datatype Spatial = Spatial(status: Approval, fingerprinted: bool)
  datatype Vrs = Vrs(status: Approval, fingerprinted: bool, leakage: string)

  datatype Mode = AUTO | VRS_ONLY | SINGLE_BASE_ONLY
  datatype Request = Request(mode: Mode, allowFallback: bool, diagnostic: bool)

  predicate IsTarget(d: Discovery, c: Candidate) { d.targetId == Some(c.id) }

  function NotTarget(d: Discovery): Candidate -> bool {
    (c: Candidate) => !IsTarget(d, c)
  }

  function Others(d: Discovery): seq<Candidate> {
    Filter(NotTarget(d), d.candidates)
  }

  function Filter<T(==,!new)>(keep: T -> bool, s: seq<T>): (r: seq<T>)
    ensures forall x :: x in r <==> x in s && keep(x)
    ensures |r| <= |s|
  {
    if s == [] then []
    else
      var last := s[|s| - 1];
      Filter(keep, s[..|s| - 1]) + if keep(last) then [last] else []
  }

  lemma FilterSnoc<T(!new)>(keep: T -> bool, s: seq<T>, x: T)
    ensures Filter(keep, s + [x]) == Filter(keep, s) + if keep(x) then [x] else []
  {
    assert (s + [x])[..|s|] == s;
  }

  // ----- the network gate

  datatype Blocker =
    | UnverifiedCoordinate(id: string) | NoNavigation(id: string) | InsufficientReferences(count: nat)
    | GeometryInsufficient | ExtrapolationNotPermitted | NoCommonInterval
    | NetworkNotEligible | GeometryNotPassed | SpatialNotApproved | VrsNotApproved
    | TargetLeakage | LeakageUnassessed | ProvenanceInvalid | SpatialFingerprintMissing | VrsFingerprintMissing
    | NoSingleBaseCandidate | TooDistant(id: string)

  datatype Geometry = PASS | INSUFFICIENT | EXTRAPOLATION | UNASSESSED

  /** How the references stand around the target; the fan is measured by the square of its area. */
  datatype Spread = Spread(extent: Option<real>, fanSquared: Option<real>, mean: Option<real>, contained: Option<bool>)

  const NO_SPREAD := Spread(None, None, None, None)

  datatype Coverage = COMPLETE | PARTIAL | NONE

  datatype Network = Network(eligible: bool, admitted: seq<Candidate>, references: seq<string>, geometry: Geometry,
                             spread: Spread, common: Option<real>, navigation: Coverage,
                             blockers: seq<Blocker>, warnings: nat)

  predicate Admissible(c: Candidate) { c.qc.ACCEPT? && c.coordinateVerified && c.navigation }

  function GateBlocker(c: Candidate): seq<Blocker> {
    if !c.qc.ACCEPT? then []
    else if !c.coordinateVerified then [UnverifiedCoordinate(c.id)]
    else if !c.navigation then [NoNavigation(c.id)]
    else []
  }

  function GateBlockers(pool: seq<Candidate>): seq<Blocker> {
    if pool == [] then [] else GateBlockers(pool[..|pool| - 1]) + GateBlocker(pool[|pool| - 1])
  }

  function Distances(cs: seq<Candidate>): seq<real> {
    if cs == [] then []
    else
      var last := cs[|cs| - 1];
      Distances(cs[..|cs| - 1]) + if last.distance.Some? then [last.distance.value] else []
  }

  function Least(s: seq<real>): (m: real)
    requires s != []
    ensures m in s && forall x <- s :: m <= x
  {
    if |s| == 1 then s[0]
    else
      var rest := Least(s[1..]);
      assert s == [s[0]] + s[1..];
      if s[0] <= rest then s[0] else rest
  }

  function Greatest(s: seq<real>): (m: real)
    requires s != []
    ensures m in s && forall x <- s :: x <= m
  {
    if |s| == 1 then s[0]
    else
      var rest := Greatest(s[1..]);
      assert s == [s[0]] + s[1..];
      if s[0] >= rest then s[0] else rest
  }

  /** Far and lopsided reference distances count as extrapolation; no distance at all is unassessed. */
  function GeometryQuality(admitted: seq<Candidate>): Geometry {
    var distances := Distances(admitted);
    if distances == [] then UNASSESSED
    else if Greatest(distances) > 2.0 * Least(distances) && Greatest(distances) > 500000.0 then EXTRAPOLATION
    else if |admitted| >= 3 then PASS
    else INSUFFICIENT
  }

  lemma {:induction false} DistancesAre(cs: seq<Candidate>, x: real)
    ensures x in Distances(cs) <==> exists c <- cs :: c.distance == Some(x)
  {
    hide Distances;
    if cs == [] {
      NoDistances();
    } else {
      var front, last := cs[..|cs| - 1], cs[|cs| - 1];
      assert cs == front + [last];
      DistancesAre(front, x);
      DistancesSnoc(front, last);
    }
  }

  /** Some distance is known, and no known one is both over 500 km and over twice another. */
  ghost predicate StandsWell(cs: seq<Candidate>) {
    && (exists c <- cs :: c.distance.Some?)
    && forall a <- cs, b <- cs | a.distance.Some? && b.distance.Some? ::
         a.distance.value <= 2.0 * b.distance.value || a.distance.value <= 500000.0
  }

  /** From three references on, what the geometry is called, by the distances alone. */
  lemma GeometryIs(cs: seq<Candidate>)
    requires |cs| >= 3
    ensures GeometryQuality(cs).PASS? <==> StandsWell(cs)
    ensures GeometryQuality(cs).UNASSESSED? <==> forall c <- cs :: c.distance.None?
    ensures GeometryQuality(cs).EXTRAPOLATION?
            <==> exists a <- cs, b <- cs | a.distance.Some? && b.distance.Some? ::
                   a.distance.value > 2.0 * b.distance.value && a.distance.value > 500000.0
  {
    hide Distances;
    forall x ensures x in Distances(cs) <==> exists c <- cs :: c.distance == Some(x) {
      DistancesAre(cs, x);
    }
    forall c <- cs | c.distance.Some? ensures c.distance.value in Distances(cs) {}
    if Distances(cs) != [] {
      var far, near := Greatest(Distances(cs)), Least(Distances(cs));
      var a :| a in cs && a.distance == Some(far);
      var b :| b in cs && b.distance == Some(near);
      forall c <- cs | c.distance.Some? ensures near <= c.distance.value <= far {}
    }
  }

  function Total(s: seq<real>): real {
    if s == [] then 0.0 else s[0] + Total(s[1..])
  }

  predicate Shorter(x: real, y: real) { x <= y }

  /** Heron's product over the three smallest distances, none below zero. */
  function FanSquared(distances: seq<real>): Option<real> {
    if |distances| < 3 then None
    else
      var ordered := SortBy(Shorter, distances);
      var half := (ordered[0] + ordered[1] + ordered[2]) / 2.0;
      var product := half * (half - ordered[0]) * (half - ordered[1]) * (half - ordered[2]);
      Some(if product > 0.0 then product else 0.0)
  }

  function SpreadOf(admitted: seq<Candidate>): Spread {
    var distances := Distances(admitted);
    if distances == [] then NO_SPREAD
    else
      Spread(Some(Greatest(distances)), FanSquared(distances), Some(Total(distances) / |distances| as real),
             Some(!GeometryQuality(admitted).EXTRAPOLATION?))
  }

  /** The list with one more blocker when the condition holds. */
  function Note(blockers: seq<Blocker>, condition: bool, b: Blocker): (r: seq<Blocker>)
    ensures r == [] <==> blockers == [] && !condition
  {
    if condition then blockers + [b] else blockers
  }

  function CommonSeconds(admitted: seq<Candidate>): Option<real> {
    if admitted == [] || exists c <- admitted :: !c.hasInterval then None else Some(86400.0)
  }

  function CoverageOf(admitted: seq<Candidate>): Coverage {
    if admitted == [] then NONE else if forall c <- admitted :: c.navigation then COMPLETE else PARTIAL
  }

  function Ids(cs: seq<Candidate>): seq<string> {
    seq(|cs|, i requires 0 <= i < |cs| => cs[i].id)
  }

  function AssessedNetwork(d: Discovery, p: Policy): Network {
    var pool := Others(d);
    var admitted := Filter(Admissible, pool);
    var few := |admitted| < p.minReferences;
    var geometry :=
      if |admitted| >= 3 && d.targetKnown then GeometryQuality(admitted) else if !few then UNASSESSED else INSUFFICIENT;
    var assessed := |admitted| >= 3 && d.targetKnown;
    var common := CommonSeconds(admitted);
    var b0 := Note(GateBlockers(pool), few, InsufficientReferences(|admitted|));
    var b1 := Note(b0, assessed && geometry.INSUFFICIENT?, GeometryInsufficient);
    var b2 := Note(b1, assessed && geometry.EXTRAPOLATION? && !p.allowExtrapolation, ExtrapolationNotPermitted);
    var blockers := Note(b2, common.Some? && common.value < p.minCommonSeconds, NoCommonInterval);
    Network(blockers == [] && !few, admitted, SortBy(LexLe, Ids(admitted)), geometry,
            if assessed then SpreadOf(admitted) else NO_SPREAD, common, CoverageOf(admitted), blockers,
            if !assessed && !few then 1 else 0)
  }

  lemma GateBlockersSnoc(pool: seq<Candidate>, c: Candidate)
    ensures GateBlockers(pool + [c]) == GateBlockers(pool) + GateBlocker(c)
  {
    assert (pool + [c])[..|pool|] == pool;
  }

  lemma NoneAdmitted()
    ensures Filter(Admissible, []) == [] && GateBlockers([]) == []
  {}

  /** The gate loop over the stations other than the target. */
  method AdmitReferences(pool: seq<Candidate>) returns (admitted: seq<Candidate>, blockers: seq<Blocker>)
    ensures admitted == Filter(Admissible, pool) && blockers == GateBlockers(pool)
  {
    hide Filter, GateBlockers;
    admitted, blockers := [], [];
    NoneAdmitted();
    for i := 0 to |pool|
      invariant admitted == Filter(Admissible, pool[..i]) && blockers == GateBlockers(pool[..i])
    {
      var c := pool[i];
      assert pool[..i + 1] == pool[..i] + [c];
      FilterSnoc(Admissible, pool[..i], c);
      GateBlockersSnoc(pool[..i], c);
      if !c.qc.ACCEPT? {
      } else if !c.coordinateVerified {
        blockers := blockers + [UnverifiedCoordinate(c.id)];
      } else if !c.navigation {
        blockers := blockers + [NoNavigation(c.id)];
      } else {
        admitted := admitted + [c];
      }
    }
    assert pool[..|pool|] == pool;
  }

  method AssessNetwork(d: Discovery, p: Policy) returns (n: Network)
    ensures n == AssessedNetwork(d, p)
  {
    hide GeometryQuality, SpreadOf, CommonSeconds, Others, SortBy, Ids, Filter, GateBlockers;
    var admitted, blockers := AdmitReferences(Others(d));
    if |admitted| < p.minReferences {
      blockers := blockers + [InsufficientReferences(|admitted|)];
    }
    var geometry, spread, warnings := UNASSESSED, NO_SPREAD, 0;
    if |admitted| >= 3 && d.targetKnown {
      geometry := GeometryQuality(admitted);
      spread := SpreadOf(admitted);
      if geometry.INSUFFICIENT? {
        blockers := blockers + [GeometryInsufficient];
      }
      if geometry.EXTRAPOLATION? && !p.allowExtrapolation {
        blockers := blockers + [ExtrapolationNotPermitted];
      }
    } else if |admitted| >= p.minReferences {
      warnings := 1;
    } else {
      geometry := INSUFFICIENT;
    }
    var common := CommonSeconds(admitted);
    if common.Some? && common.value < p.minCommonSeconds {
      blockers := blockers + [NoCommonInterval];
    }
    var navigation := if admitted == [] then NONE else if forall c <- admitted :: c.navigation then COMPLETE else PARTIAL;
    n := Network(blockers == [] && |admitted| >= p.minReferences, admitted, SortBy(LexLe, Ids(admitted)), geometry,
                 spread, common, navigation, blockers, warnings);
  }

  // ----- how the references stand, by their distances

  lemma Sixteenth(a: real, b: real, c: real)
    ensures var half := (a + b + c) / 2.0;
            16.0 * (half * (half - a) * (half - b) * (half - c)) == (a + b + c) * (b + c - a) * (a + c - b) * (a + b - c)
  {
    var p := (a + b + c) / 2.0;
    var x, y, z := p - a, p - b, p - c;
    assert a + b + c == 2.0 * p && b + c - a == 2.0 * x && a + c - b == 2.0 * y && a + b - c == 2.0 * z;
    Doubled(p, x, y, z);
  }

  lemma Doubled(p: real, x: real, y: real, z: real)
    ensures 16.0 * (p * x * y * z) == (2.0 * p) * (2.0 * x) * (2.0 * y) * (2.0 * z)
  {
    assert (2.0 * p) * (2.0 * x) == 4.0 * (p * x);
    assert (4.0 * (p * x)) * (2.0 * y) == 8.0 * (p * x * y);
    assert (8.0 * (p * x * y)) * (2.0 * z) == 16.0 * (p * x * y * z);
  }

  /** The fan is the triangle with the three smallest distances as sides, or nothing where they are no triangle. */
  lemma FanIs(distances: seq<real>, a: real, b: real, c: real, rest: seq<real>)
    requires a <= b <= c && (forall x <- rest :: c <= x)
    requires multiset(distances) == multiset([a, b, c] + rest)
    ensures var product := (a + b + c) * (b + c - a) * (a + c - b) * (a + b - c);
            var fan := FanSquared(distances);
            fan.Some? && 16.0 * fan.value == if product > 0.0 then product else 0.0
  {
    hide SortBy;
    SameLength(distances, [a, b, c] + rest);
    SmallestThree(distances, a, b, c, rest);
    Sixteenth(a, b, c);
  }

  lemma ShorterOrders()
    ensures TotalPreorder(Shorter) && Antisymmetric(Shorter)
  {}

  lemma SmallestThree(distances: seq<real>, a: real, b: real, c: real, rest: seq<real>)
    requires a <= b <= c && (forall x <- rest :: c <= x)
    requires multiset(distances) == multiset([a, b, c] + rest)
    ensures var ordered := SortBy(Shorter, distances);
            |ordered| >= 3 && ordered[0] == a && ordered[1] == b && ordered[2] == c
  {
    hide SortBy, TotalPreorder, Antisymmetric, SortedBy;
    ShorterOrders();
    var later := SortBy(Shorter, rest);
    SortBySorts(Shorter, rest);
    SortBySorts(Shorter, distances);
    SameMembers(later, rest);
    ThreeInFront(a, b, c, later);
    AppendSame([a, b, c], rest, later);
    SortedOnlyOneWay(Shorter, SortBy(Shorter, distances), [a, b, c] + later);
  }

  lemma ThreeInFront(a: real, b: real, c: real, later: seq<real>)
    requires a <= b <= c && (forall x <- later :: c <= x) && SortedBy(Shorter, later)
    ensures SortedBy(Shorter, [a, b, c] + later)
  {
    forall i | 0 <= i < |later| ensures c <= later[i] {
      assert later[i] in later;
    }
  }

  lemma AppendSame(front: seq<real>, s: seq<real>, t: seq<real>)
    requires multiset(s) == multiset(t)
    ensures multiset(front + s) == multiset(front + t)
  {}

  lemma TotalSnoc(s: seq<real>, x: real)
    ensures Total(s + [x]) == Total(s) + x
  {
    if s != [] {
      TotalSnoc(s[1..], x);
      assert (s + [x])[1..] == s[1..] + [x];
    } else {
      assert s + [x] == [x];
    }
  }

  /** The extent is the greatest distance known, the target is contained unless that is extrapolation. */
  lemma SpreadIs(cs: seq<Candidate>)
    requires |cs| >= 3
    ensures var spread := SpreadOf(cs);
            if forall c <- cs :: c.distance.None? then spread == NO_SPREAD
            else
              && spread.extent.Some? && spread.mean.Some?
              && (exists c <- cs :: c.distance == spread.extent)
              && (forall c <- cs | c.distance.Some? :: c.distance.value <= spread.extent.value)
              && spread.contained == Some(StandsWell(cs))
  {
    hide Distances, GeometryQuality;
    GeometryIs(cs);
    forall x ensures x in Distances(cs) <==> exists c <- cs :: c.distance == Some(x) {
      DistancesAre(cs, x);
    }
    QualityOfNone(cs);
    forall c <- cs | c.distance.Some? ensures c.distance.value in Distances(cs) {}
  }

  lemma QualityOfNone(cs: seq<Candidate>)
    requires |cs| >= 3
    ensures GeometryQuality(cs).UNASSESSED? <==> Distances(cs) == []
    ensures !GeometryQuality(cs).INSUFFICIENT?
  {
    hide Distances;
  }

  lemma NoTotal()
    ensures Total([]) == 0.0
  {}

  /** One more reference weighs in the mean as each of those before it, or not at all. */
  lemma MeanStep(cs: seq<Candidate>, c: Candidate)
    ensures var before := SpreadOf(cs).mean;
            var after := SpreadOf(cs + [c]).mean;
            if c.distance.None? then after == before
            else after.Some? && after.value * (|Distances(cs)| + 1) as real
                                == (if before.None? then 0.0 else before.value * |Distances(cs)| as real) + c.distance.value
  {
    hide Distances, GeometryQuality, FanSquared, Total;
    DistancesSnoc(cs, c);
    assert Distances(cs) + [] == Distances(cs);
    if c.distance.Some? {
      TotalSnoc(Distances(cs), c.distance.value);
      NoTotal();
    }
  }

  lemma {:induction false} AdmittedAreAdmissible(pool: seq<Candidate>)
    ensures forall c <- Filter(Admissible, pool) :: c.navigation
  {}

  lemma {:induction false} NoGeometryBlocker(pool: seq<Candidate>)
    ensures GeometryInsufficient !in GateBlockers(pool)
  {
    if pool != [] {
      NoGeometryBlocker(pool[..|pool| - 1]);
    }
  }

  /**
   * Partial navigation coverage and the blocker for insufficient geometry never come up, and the one
   * warning is that enough references stand around an unknown target.
   */
  lemma NetworkNeverReports(d: Discovery, p: Policy)
    requires ValidPolicy(p)
    ensures var n := AssessedNetwork(d, p);
            && !n.navigation.PARTIAL? && (n.navigation.NONE? <==> n.admitted == [])
            && GeometryInsufficient !in n.blockers
            && n.warnings == (if !d.targetKnown && |n.admitted| >= p.minReferences then 1 else 0)
            && n.spread == (if d.targetKnown && |n.admitted| >= 3 then SpreadOf(n.admitted) else NO_SPREAD)
            && (n.geometry.INSUFFICIENT? <==> |n.admitted| < if d.targetKnown then 3 else p.minReferences)
  {
    hide GeometryQuality, SpreadOf, Others, SortBy, Ids, Filter, GateBlockers, CommonSeconds;
    var admitted := Filter(Admissible, Others(d));
    AdmittedAreAdmissible(Others(d));
    NoGeometryBlocker(Others(d));
    if |admitted| >= 3 {
      QualityOfNone(admitted);
    }
  }

  // ----- the virtual reference station gate

  function ResolvedLeakage(v: Vrs, override: Option<bool>): Option<bool> {
    if override.Some? then override
    else if Upper(Strip(v.leakage)) in {"PASS", "NO_LEAKAGE", "EXCLUDED"} then Some(true)
    else if Upper(Strip(v.leakage)) in {"FAIL", "LEAKAGE", "LEAKED"} then Some(false)
    else None
  }

  /** Blanks around the word and its letter case do not matter; an explicit verdict goes first. */
  lemma LeakageIsRead(v: Vrs, left: string, word: string, right: string, override: Option<bool>)
    requires v.leakage == left + word + right
    requires (forall c <- left + right :: IsSpace(c)) && word != "" && !IsSpace(word[0]) && !IsSpace(word[|word| - 1])
    ensures var r := ResolvedLeakage(v, override);
            if override.Some? then r == override
            else
              && (r == Some(true) <==> Upper(word) == "PASS" || Upper(word) == "NO_LEAKAGE" || Upper(word) == "EXCLUDED")
              && (r == Some(false) <==> Upper(word) == "FAIL" || Upper(word) == "LEAKAGE" || Upper(word) == "LEAKED")
  {
    hide IsSpace, Upper, StripLeft, StripRight;
    StrippedIs(left, word, right);
  }

  datatype Upstream = Upstream(spatial: Spatial, vrs: Vrs, leakageOverride: Option<bool>, provenancePass: bool)

  datatype VrsGate = VrsGate(selectable: bool, blockers: seq<Blocker>, warnings: nat)

  function ApprovalBlockers(n: Network, u: Upstream, p: Policy): seq<Blocker> {
    var b0 := Note(n.blockers, !n.eligible, NetworkNotEligible);
    var b1 := Note(b0, !n.geometry.PASS?, GeometryNotPassed);
    var b2 := Note(b1, p.requireSpatial && !u.spatial.status.APPROVED?, SpatialNotApproved);
    Note(b2, p.requireVrs && !u.vrs.status.APPROVED?, VrsNotApproved)
  }

  function EvidenceBlockers(blockers: seq<Blocker>, u: Upstream): seq<Blocker> {
    var leakage := ResolvedLeakage(u.vrs, u.leakageOverride);
    var b0 := Note(blockers, leakage == Some(false), TargetLeakage);
    var b1 := Note(b0, leakage.None?, LeakageUnassessed);
    var b2 := Note(b1, !u.provenancePass, ProvenanceInvalid);
    var b3 := Note(b2, !u.spatial.fingerprinted, SpatialFingerprintMissing);
    Note(b3, !u.vrs.fingerprinted, VrsFingerprintMissing)
  }

  function AssessedVrs(n: Network, u: Upstream, p: Policy): VrsGate {
    var blockers := EvidenceBlockers(ApprovalBlockers(n, u, p), u);
    VrsGate(blockers == [], blockers,
            n.warnings + (if !u.spatial.fingerprinted then 1 else 0) + (if !u.vrs.fingerprinted then 1 else 0))
  }

  /** The gates of the network and of the upstream approvals. */
  method CheckApprovals(n: Network, u: Upstream, p: Policy) returns (blockers: seq<Blocker>)
    ensures blockers == ApprovalBlockers(n, u, p)
  {
    blockers := n.blockers;
    if !n.eligible {
      blockers := blockers + [NetworkNotEligible];
    }
    if !n.geometry.PASS? {
      blockers := blockers + [GeometryNotPassed];
    }
    if p.requireSpatial && !u.spatial.status.APPROVED? {
      blockers := blockers + [SpatialNotApproved];
    }
    if p.requireVrs && !u.vrs.status.APPROVED? {
      blockers := blockers + [VrsNotApproved];
    }
  }

  /** The gates of leakage, provenance and fingerprints. */
  method CheckEvidence(approvals: seq<Blocker>, u: Upstream) returns (blockers: seq<Blocker>, warnings: nat)
    ensures blockers == EvidenceBlockers(approvals, u)
    ensures warnings == (if !u.spatial.fingerprinted then 1 else 0) + (if !u.vrs.fingerprinted then 1 else 0)
  {
    hide ResolvedLeakage;
    blockers, warnings := approvals, 0;
    var leakage := ResolvedLeakage(u.vrs, u.leakageOverride);
    if leakage == Some(false) {
      blockers := blockers + [TargetLeakage];
    } else if leakage.None? {
      blockers := blockers + [LeakageUnassessed];
    }
    if !u.provenancePass {
      blockers := blockers + [ProvenanceInvalid];
    }
    if !u.spatial.fingerprinted {
      blockers := blockers + [SpatialFingerprintMissing];
      warnings := warnings + 1;
    }
    if !u.vrs.fingerprinted {
      blockers := blockers + [VrsFingerprintMissing];
      warnings := warnings + 1;
    }
  }

  method AssessVrs(n: Network, u: Upstream, p: Policy) returns (g: VrsGate)
    ensures g == AssessedVrs(n, u, p)
  {
    hide ApprovalBlockers, EvidenceBlockers;
    var approvals := CheckApprovals(n, u, p);
    var blockers, warnings := CheckEvidence(approvals, u);
    g := VrsGate(blockers == [], blockers, n.warnings + warnings);
  }

  // ----- the single base gate

  datatype Band = Preferred | Degraded | Maximum | BeyondMaximum | Unknown

  function BandOf(p: Policy, distance: Option<real>): Band {
    if distance.None? then Unknown
    else if distance.value <= p.preferredMax then Preferred
    else if distance.value <= p.degradedMax then Degraded
    else if distance.value <= p.maximum then Maximum
    else BeyondMaximum
  }

  /** Separate single-base verdicts, where given, replace the station's own. */
  function SingleQc(singleQc: map<string, QC>, c: Candidate): QC {
    if c.id in singleQc then singleQc[c.id] else c.qc
  }

  predicate Gated(singleQc: map<string, QC>, c: Candidate) {
    SingleQc(singleQc, c).ACCEPT? && c.navigation && c.coordinateVerified && c.hasInterval
  }

  predicate ById(a: Candidate, b: Candidate) { LexLe(a.id, b.id) }

  /** An unknown distance and a distance of exactly zero both rank as infinite. */
  predicate Infinite(c: Candidate) { c.distance.None? || c.distance.value == 0.0 }

  /** Known before unknown, then by distance, then by station id. */
  predicate Before(a: Candidate, b: Candidate) {
    if a.distance.None? != b.distance.None? then a.distance.Some?
    else if Infinite(a) != Infinite(b) then !Infinite(a)
    else if !Infinite(a) && a.distance.value != b.distance.value then a.distance.value < b.distance.value
    else LexLe(a.id, b.id)
  }

  function PassesGates(singleQc: map<string, QC>): Candidate -> bool {
    (c: Candidate) => Gated(singleQc, c)
  }

  function Survivors(d: Discovery, singleQc: map<string, QC>): seq<Candidate> {
    Filter(PassesGates(singleQc), SortBy(ById, Others(d)))
  }

  datatype Reason = QcNotAccepted(status: QC) | NavigationMissing | CoordinateUnverified | IntervalMissing | TooFarAway

  datatype Rejection = Rejection(id: string, reason: Reason)

  /** The first gate that a station fails. */
  function RejectionOf(singleQc: map<string, QC>, c: Candidate): seq<Rejection> {
    if !SingleQc(singleQc, c).ACCEPT? then [Rejection(c.id, QcNotAccepted(SingleQc(singleQc, c)))]
    else if !c.navigation then [Rejection(c.id, NavigationMissing)]
    else if !c.coordinateVerified then [Rejection(c.id, CoordinateUnverified)]
    else if !c.hasInterval then [Rejection(c.id, IntervalMissing)]
    else []
  }

  function Rejections(singleQc: map<string, QC>, pool: seq<Candidate>): seq<Rejection> {
    if pool == [] then []
    else Rejections(singleQc, pool[..|pool| - 1]) + RejectionOf(singleQc, pool[|pool| - 1])
  }

  datatype SingleBase = SingleBase(available: bool, reference: Option<string>, distance: Option<real>, band: Band,
                                   ranked: seq<Candidate>, rejected: seq<Rejection>, blockers: seq<Blocker>, warnings: nat)

  function AssessedSingleBase(d: Discovery, singleQc: map<string, QC>, p: Policy): SingleBase {
    var survivors := Survivors(d, singleQc);
    var rejected := Rejections(singleQc, SortBy(ById, Others(d)));
    var ordered := SortBy(Before, survivors);
    if ordered == [] then SingleBase(false, None, None, Unknown, [], rejected, [NoSingleBaseCandidate], 0)
    else
      var selected := ordered[0];
      var band := BandOf(p, selected.distance);
      if band.BeyondMaximum? then
        SingleBase(false, None, None, Unknown, ordered, rejected + [Rejection(selected.id, TooFarAway)],
                   [TooDistant(selected.id)], 0)
      else
        SingleBase(true, Some(selected.id), selected.distance, band, ordered, rejected, [], if band.Preferred? then 0 else 1)
  }

  lemma RejectionsSnoc(singleQc: map<string, QC>, pool: seq<Candidate>, c: Candidate)
    ensures Rejections(singleQc, pool + [c]) == Rejections(singleQc, pool) + RejectionOf(singleQc, c)
  {
    assert (pool + [c])[..|pool|] == pool;
  }

  lemma NothingFiltered(singleQc: map<string, QC>)
    ensures Filter(PassesGates(singleQc), []) == [] && Rejections(singleQc, []) == []
  {}

  method AssessSingleBase(d: Discovery, singleQc: map<string, QC>, p: Policy) returns (a: SingleBase)
    ensures a == AssessedSingleBase(d, singleQc, p)
  {
    hide SortBy, Others, BandOf, Before, ById, Filter, Rejections, SingleQc;
    var pool := SortBy(ById, Others(d));
    var survivors: seq<Candidate>, rejected: seq<Rejection> := [], [];
    NothingFiltered(singleQc);
    for i := 0 to |pool|
      invariant survivors == Filter(PassesGates(singleQc), pool[..i]) && rejected == Rejections(singleQc, pool[..i])
    {
      var c := pool[i];
      assert pool[..i + 1] == pool[..i] + [c];
      FilterSnoc(PassesGates(singleQc), pool[..i], c);
      RejectionsSnoc(singleQc, pool[..i], c);
      if !SingleQc(singleQc, c).ACCEPT? {
        rejected := rejected + [Rejection(c.id, QcNotAccepted(SingleQc(singleQc, c)))];
      } else if !c.navigation {
        rejected := rejected + [Rejection(c.id, NavigationMissing)];
      } else if !c.coordinateVerified {
        rejected := rejected + [Rejection(c.id, CoordinateUnverified)];
      } else if !c.hasInterval {
        rejected := rejected + [Rejection(c.id, IntervalMissing)];
      } else {
        survivors := survivors + [c];
      }
    }
    assert pool[..|pool|] == pool;
    assert survivors == Survivors(d, singleQc);
    var ordered := SortBy(Before, survivors);
    if ordered == [] {
      return SingleBase(false, None, None, Unknown, [], rejected, [NoSingleBaseCandidate], 0);
    }
    var selected := ordered[0];
    var band := BandOf(p, selected.distance);
    if band.BeyondMaximum? {
      rejected := rejected + [Rejection(selected.id, TooFarAway)];
      return SingleBase(false, None, None, Unknown, ordered, rejected, [TooDistant(selected.id)], 0);
    }
    return SingleBase(true, Some(selected.id), selected.distance, band, ordered, rejected, [],
                      if band.Preferred? then 0 else 1);
  }

  /** The rejection names the station and the first gate that it fails. */
  predicate FirstFailure(singleQc: map<string, QC>, c: Candidate, r: Rejection) {
    var accepted := SingleQc(singleQc, c).ACCEPT?;
    && r.id == c.id
    && match r.reason
       case QcNotAccepted(status) => !accepted && status == SingleQc(singleQc, c)
       case NavigationMissing => accepted && !c.navigation
       case CoordinateUnverified => accepted && c.navigation && !c.coordinateVerified
       case IntervalMissing => accepted && c.navigation && c.coordinateVerified && !c.hasInterval
       case TooFarAway => false
  }

  lemma RejectedUnlessGated(singleQc: map<string, QC>, c: Candidate)
    ensures |RejectionOf(singleQc, c)| == if Gated(singleQc, c) then 0 else 1
    ensures !Gated(singleQc, c) ==> FirstFailure(singleQc, c, RejectionOf(singleQc, c)[0])
  {}

  /** Every station but the target either passes all gates or is rejected, once, for the first it fails. */
  lemma {:induction false} GatesPartition(singleQc: map<string, QC>, pool: seq<Candidate>)
    ensures |Filter(PassesGates(singleQc), pool)| + |Rejections(singleQc, pool)| == |pool|
    ensures forall c <- pool :: Gated(singleQc, c) || exists r <- Rejections(singleQc, pool) :: FirstFailure(singleQc, c, r)
  {
    hide Filter, Rejections, RejectionOf, Gated, FirstFailure;
    if pool != [] {
      var front, c := pool[..|pool| - 1], pool[|pool| - 1];
      assert pool == front + [c];
      FilterSnoc(PassesGates(singleQc), front, c);
      RejectionsSnoc(singleQc, front, c);
      RejectedUnlessGated(singleQc, c);
      GatesPartition(singleQc, front);
      var all := Rejections(singleQc, pool);
      assert forall r <- Rejections(singleQc, front) :: r in all;
      if !Gated(singleQc, c) {
        assert RejectionOf(singleQc, c)[0] in all;
      }
    } else {
      NothingFiltered(singleQc);
    }
  }

  /** And nothing else is rejected. */
  lemma {:induction false} OnlyFailuresAreRejected(singleQc: map<string, QC>, pool: seq<Candidate>, r: Rejection)
    requires r in Rejections(singleQc, pool)
    ensures exists c <- pool :: !Gated(singleQc, c) && FirstFailure(singleQc, c, r)
  {
    hide Rejections, RejectionOf, Gated, FirstFailure;
    NothingFiltered(singleQc);
    var front, c := pool[..|pool| - 1], pool[|pool| - 1];
    assert pool == front + [c];
    RejectionsSnoc(singleQc, front, c);
    if r in Rejections(singleQc, front) {
      OnlyFailuresAreRejected(singleQc, front, r);
    } else {
      RejectedUnlessGated(singleQc, c);
      assert r == RejectionOf(singleQc, c)[0] && c in pool;
    }
  }

  // ----- the decision

  datatype Correction = VRS | SINGLE_BASE | NO_CORRECTION
  datatype Status = OK | DEGRADED | BLOCKED | DIAGNOSTIC_ONLY
  datatype Integrity = INTACT | LIMITED | UNUSABLE

  datatype Decision = Decision(correction: Correction, status: Status, integrity: Integrity, reference: Option<string>,
                               distance: Option<real>, network: seq<Candidate>, fallbackUsed: bool)

  function DeriveIntegrity(correction: Correction, status: Status, warnings: nat, blockers: bool): Integrity {
    if (correction.NO_CORRECTION? || status.BLOCKED? || blockers)
       && ((correction.NO_CORRECTION? && status.DIAGNOSTIC_ONLY?) || blockers) then UNUSABLE
    else if status.DEGRADED? || status.DIAGNOSTIC_ONLY? || warnings > 0 then LIMITED
    else if (correction.SINGLE_BASE? || correction.VRS?) && status.OK? then INTACT
    else if correction.NO_CORRECTION? then UNUSABLE
    else LIMITED
  }

  function NoCorrection(r: Request): Decision {
    Decision(NO_CORRECTION, if r.diagnostic then DIAGNOSTIC_ONLY else BLOCKED, UNUSABLE, None, None, [], false)
  }

  function Preview(n: Network): Decision {
    Decision(NO_CORRECTION, DIAGNOSTIC_ONLY, UNUSABLE, None, None, n.admitted, false)
  }

  function ChooseVrs(r: Request, n: Network, warnings: nat): Decision {
    var status := if r.diagnostic then DIAGNOSTIC_ONLY else OK;
    Decision(VRS, status, DeriveIntegrity(VRS, status, warnings, false), None, None, n.admitted, false)
  }

  function ChooseSingleBase(r: Request, n: Network, s: SingleBase, warnings: nat, fallback: bool): Decision {
    var status := if r.diagnostic then DIAGNOSTIC_ONLY
                  else if s.band.Degraded? || s.band.Maximum? || s.band.Unknown? then DEGRADED else OK;
    Decision(SINGLE_BASE, status, DeriveIntegrity(SINGLE_BASE, status, warnings, false), s.reference, s.distance,
             n.admitted, fallback)
  }

  predicate AnyAccepted(d: Discovery) { exists c <- d.candidates :: c.qc.ACCEPT? }

  predicate AnyNavigation(d: Discovery) { exists c <- d.candidates :: c.navigation }

  function DecideAuto(r: Request, d: Discovery, n: Network, s: SingleBase, g: VrsGate, p: Policy): Decision {
    var refused := if r.diagnostic && p.previewEnabled then Preview(n) else NoCorrection(r);
    if !AnyAccepted(d) || !AnyNavigation(d) then refused
    else if g.selectable then ChooseVrs(r, n, d.warnings)
    else if p.fallbackEnabled && r.allowFallback && s.available then
      ChooseSingleBase(r, n, s, d.warnings + g.warnings + s.warnings, true)
    else refused
  }

  function DecideVrsOnly(r: Request, d: Discovery, n: Network, g: VrsGate): Decision {
    if !AnyAccepted(d) then if r.diagnostic then Preview(n) else NoCorrection(r)
    else if g.selectable && !r.diagnostic then ChooseVrs(r, n, d.warnings + g.warnings)
    else if r.diagnostic then Preview(n)
    else NoCorrection(r)
  }

  function DecideSingleOnly(r: Request, d: Discovery, n: Network, s: SingleBase): Decision {
    if s.available then ChooseSingleBase(r, n, s, d.warnings + s.warnings, false)
    else if r.diagnostic then Preview(n)
    else NoCorrection(r)
  }

  function Decide(r: Request, d: Discovery, singleQc: map<string, QC>, u: Upstream, p: Policy): Decision {
    var n := AssessedNetwork(d, p);
    var s := AssessedSingleBase(d, singleQc, p);
    var g := AssessedVrs(n, u, p);
    if !d.targetKnown then NoCorrection(r)
    else
      match r.mode
      case VRS_ONLY => DecideVrsOnly(r, d, n, g)
      case SINGLE_BASE_ONLY => DecideSingleOnly(r, d, n, s)
      case AUTO => DecideAuto(r, d, n, s, g, p)
  }

  // ----- a virtual reference station is chosen only with every gate passed

  predicate UpstreamPasses(u: Upstream, p: Policy) {
    && (p.requireSpatial ==> u.spatial.status.APPROVED?) && (p.requireVrs ==> u.vrs.status.APPROVED?)
    && ResolvedLeakage(u.vrs, u.leakageOverride) == Some(true) && u.provenancePass
    && u.spatial.fingerprinted && u.vrs.fingerprinted
  }

  /**
   * No accepted non-target station lacks coordinates or navigation, enough of them stand well, and
   * unless the interval of one of them is unknown their common interval is long enough.
   */
  ghost predicate NetworkPasses(d: Discovery, p: Policy) {
    var references := Filter(Admissible, Others(d));
    && GatesClear(d) && |references| >= p.minReferences && StandsWell(references)
    && (IntervalsKnown(references) ==> 86400.0 >= p.minCommonSeconds)
  }

  ghost predicate GatesClear(d: Discovery) {
    forall c <- Others(d) :: c.qc.ACCEPT? ==> c.coordinateVerified && c.navigation
  }

  ghost predicate IntervalsKnown(references: seq<Candidate>) {
    forall c <- references :: c.hasInterval
  }

  lemma {:induction false} NoGateBlockers(pool: seq<Candidate>)
    ensures GateBlockers(pool) == [] <==> forall c <- pool :: c.qc.ACCEPT? ==> c.coordinateVerified && c.navigation
  {
    hide GateBlockers;
    if pool == [] {
      NoneAdmitted();
    } else {
      var n := |pool| - 1;
      NoGateBlockers(pool[..n]);
      assert pool == pool[..n] + [pool[n]];
      GateBlockersSnoc(pool[..n], pool[n]);
    }
  }

  lemma NetworkGateIff(d: Discovery, p: Policy)
    requires ValidPolicy(p) && d.targetKnown
    ensures var n := AssessedNetwork(d, p);
            (n.blockers == [] && n.eligible && n.geometry.PASS?) <==> NetworkPasses(d, p)
  {
    hide GeometryQuality, GateBlockers, Filter, Others, StandsWell;
    NoGateBlockers(Others(d));
    if |Filter(Admissible, Others(d))| >= 3 {
      GeometryIs(Filter(Admissible, Others(d)));
    }
  }

  lemma VrsGateIff(n: Network, u: Upstream, p: Policy)
    ensures AssessedVrs(n, u, p).selectable
            <==> n.blockers == [] && n.eligible && n.geometry.PASS? && UpstreamPasses(u, p)
  {
    var leakage := ResolvedLeakage(u.vrs, u.leakageOverride);
    if leakage.Some? {
      assert leakage == Some(true) || !leakage.value;
    }
  }

  /** A virtual reference station is chosen exactly when the request asks for it and every gate passes. */
  lemma VrsChosenIff(r: Request, d: Discovery, singleQc: map<string, QC>, u: Upstream, p: Policy)
    requires ValidPolicy(p)
    ensures Decide(r, d, singleQc, u, p).correction.VRS?
            <==> && d.targetKnown && (r.mode.AUTO? || (r.mode.VRS_ONLY? && !r.diagnostic))
                 && NetworkPasses(d, p) && UpstreamPasses(u, p)
  {
    hide AssessedNetwork, AssessedSingleBase, AssessedVrs, UpstreamPasses, NetworkPasses, DeriveIntegrity, AnyAccepted, AnyNavigation;
    if d.targetKnown {
      NetworkGateIff(d, p);
      VrsGateIff(AssessedNetwork(d, p), u, p);
      if NetworkPasses(d, p) {
        ReferencesExist(d, p);
      }
    }
  }

  lemma ReferencesExist(d: Discovery, p: Policy)
    requires ValidPolicy(p) && NetworkPasses(d, p)
    ensures AnyAccepted(d) && AnyNavigation(d)
  {
    hide GeometryQuality;
    var c := Filter(Admissible, Others(d))[0];
    assert c in Filter(Admissible, Others(d));
    assert c in d.candidates;
  }

  /** What a chosen virtual reference station guarantees about the stations behind it. */
  lemma VrsHasReferences(r: Request, d: Discovery, singleQc: map<string, QC>, u: Upstream, p: Policy)
    requires ValidPolicy(p) && Decide(r, d, singleQc, u, p).correction.VRS?
    ensures var network := Decide(r, d, singleQc, u, p).network;
            && |network| >= 3 && StandsWell(network)
            && forall c <- network :: c in d.candidates && d.targetId != Some(c.id) && Admissible(c)
  {
    hide GeometryQuality, AssessedSingleBase, AssessedVrs, AssessedNetwork, Filter, UpstreamPasses, DeriveIntegrity;
    VrsChosenIff(r, d, singleQc, u, p);
    ChosenNetwork(r, d, singleQc, u, p);
    assert forall c <- Filter(Admissible, Others(d)) :: c in Others(d) && Admissible(c);
  }

  lemma ChosenNetwork(r: Request, d: Discovery, singleQc: map<string, QC>, u: Upstream, p: Policy)
    requires Decide(r, d, singleQc, u, p).correction.VRS?
    ensures Decide(r, d, singleQc, u, p).network == Filter(Admissible, Others(d))
  {
    hide AssessedSingleBase, AssessedVrs, Filter, DeriveIntegrity, AnyAccepted, AnyNavigation, Note, GeometryQuality,
         SpreadOf, GateBlockers, CommonSeconds, CoverageOf, SortBy;
  }

  // ----- weaker evidence never helps

  predicate WeakerSpatial(a: Spatial, b: Spatial) {
    (a.status.APPROVED? ==> b.status.APPROVED?) && (a.fingerprinted ==> b.fingerprinted)
  }

  /** a supports a virtual reference station no better than b does. */
  predicate Weaker(a: Upstream, b: Upstream) {
    && WeakerSpatial(a.spatial, b.spatial)
    && (a.vrs.status.APPROVED? ==> b.vrs.status.APPROVED?) && (a.vrs.fingerprinted ==> b.vrs.fingerprinted)
    && (ResolvedLeakage(a.vrs, a.leakageOverride) == Some(true) ==> ResolvedLeakage(b.vrs, b.leakageOverride) == Some(true))
    && (a.provenancePass ==> b.provenancePass)
  }

  lemma WeakeningNeverPromotes(r: Request, d: Discovery, singleQc: map<string, QC>, weak: Upstream, strong: Upstream, p: Policy)
    requires ValidPolicy(p) && Weaker(weak, strong)
    requires Decide(r, d, singleQc, weak, p).correction.VRS?
    ensures Decide(r, d, singleQc, strong, p) == Decide(r, d, singleQc, weak, p)
  {
    hide AssessedNetwork, AssessedSingleBase, NetworkPasses;
    VrsChosenIff(r, d, singleQc, weak, p);
    VrsChosenIff(r, d, singleQc, strong, p);
    VrsGateIff(AssessedNetwork(d, p), weak, p);
    VrsGateIff(AssessedNetwork(d, p), strong, p);
  }

  /** Unless the candidate fails only its verdict, lowering the verdict keeps the accepted references in number. */
  lemma {:induction false} LoweredAdmits(d: Discovery, s: seq<Candidate>, i: nat, lowered: Candidate)
    requires i < |s| && !lowered.qc.ACCEPT? && lowered.id == s[i].id
    ensures var before := Filter(Admissible, Filter(NotTarget(d), s));
            var after := Filter(Admissible, Filter(NotTarget(d), s[i := lowered]));
            |after| <= |before| && (IsTarget(d, lowered) ==> after == before)
  {
    hide Filter, IsTarget;
    var last := |s| - 1;
    var front, c := s[..last], s[last];
    assert s == front + [c];
    OtherSnoc(d, front, c);
    if i == last {
      assert s[i := lowered] == front + [lowered];
      OtherSnoc(d, front, lowered);
      SameTarget(d, c, lowered);
    } else {
      assert s[i := lowered] == front[i := lowered] + [c];
      OtherSnoc(d, front[i := lowered], c);
      LoweredAdmits(d, front, i, lowered);
    }
  }

  lemma SameTarget(d: Discovery, a: Candidate, b: Candidate)
    requires a.id == b.id
    ensures IsTarget(d, a) == IsTarget(d, b)
  {}

  lemma OtherSnoc(d: Discovery, front: seq<Candidate>, c: Candidate)
    ensures Filter(Admissible, Filter(NotTarget(d), front + [c]))
            == Filter(Admissible, Filter(NotTarget(d), front)) + if !IsTarget(d, c) && Admissible(c) then [c] else []
  {
    hide Filter, IsTarget, Admissible;
    FilterSnoc(NotTarget(d), front, c);
    var others := Filter(NotTarget(d), front);
    FilterSnoc(Admissible, others, c);
    assert others + [] == others && Filter(Admissible, others) + [] == Filter(Admissible, others);
  }

  /** The same discovery with the verdict on one station lowered. */
  function Lowered(d: Discovery, i: nat, qc: QC): Discovery
    requires i < |d.candidates|
  {
    d.(candidates := d.candidates[i := d.candidates[i].(qc := qc)])
  }

  lemma LoweredOthers(d: Discovery, i: nat, qc: QC, c: Candidate)
    requires i < |d.candidates| && d.candidates[i].qc.ACCEPT? && !qc.ACCEPT? && c.qc.ACCEPT?
    ensures c in Others(d) <==> c in Others(Lowered(d, i, qc)) || (c == d.candidates[i] && !IsTarget(d, c))
  {
    var e := Lowered(d, i, qc);
    if c in Others(e) {
      var j :| 0 <= j < |e.candidates| && e.candidates[j] == c;
      assert d.candidates[j] == c;
    }
    if c in Others(d) && c != d.candidates[i] {
      var j :| 0 <= j < |d.candidates| && d.candidates[j] == c;
      assert e.candidates[j] == c;
    }
  }

  lemma LoweredGates(d: Discovery, i: nat, qc: QC)
    requires i < |d.candidates| && d.candidates[i].qc.ACCEPT? && !qc.ACCEPT? && GatesClear(Lowered(d, i, qc))
    ensures var c := d.candidates[i];
            GatesClear(d) <==> IsTarget(d, c) || (c.coordinateVerified && c.navigation)
  {
    hide Others, IsTarget, Lowered;
    var c := d.candidates[i];
    LoweredOthers(d, i, qc, c);
    forall x <- Others(d) | x.qc.ACCEPT? && x != c ensures x.coordinateVerified && x.navigation {
      LoweredOthers(d, i, qc, x);
    }
    LoweredIsOther(d, i, qc);
  }

  lemma LoweredIsOther(d: Discovery, i: nat, qc: QC)
    requires i < |d.candidates|
    ensures d.candidates[i] in Others(d) <==> !IsTarget(d, d.candidates[i])
  {
    hide IsTarget;
  }

  lemma LoweredIntervals(d: Discovery, i: nat, qc: QC)
    requires i < |d.candidates| && d.candidates[i].qc.ACCEPT? && !qc.ACCEPT?
    requires IntervalsKnown(Filter(Admissible, Others(d)))
    ensures IntervalsKnown(Filter(Admissible, Others(Lowered(d, i, qc))))
  {
    hide Others, Lowered;
    forall x <- Filter(Admissible, Others(Lowered(d, i, qc))) ensures x.hasInterval {
      LoweredOthers(d, i, qc, x);
      assert x in Filter(Admissible, Others(d));
    }
  }

  lemma LoweredReferences(d: Discovery, i: nat, qc: QC)
    requires i < |d.candidates| && !qc.ACCEPT?
    ensures var before, after := Filter(Admissible, Others(d)), Filter(Admissible, Others(Lowered(d, i, qc)));
            |after| <= |before| && (IsTarget(d, d.candidates[i]) ==> after == before)
  {
    hide Filter;
    var c := d.candidates[i];
    LoweredAdmits(d, d.candidates, i, c.(qc := qc));
    OthersByTarget(d, Lowered(d, i, qc));
  }

  lemma OthersByTarget(d: Discovery, e: Discovery)
    requires d.targetId == e.targetId
    ensures Others(e) == Filter(NotTarget(d), e.candidates)
  {
    SameFilter(NotTarget(d), NotTarget(e), e.candidates);
  }

  lemma {:induction false} SameFilter<T(!new)>(one: T -> bool, other: T -> bool, s: seq<T>)
    requires forall x :: one(x) == other(x)
    ensures Filter(one, s) == Filter(other, s)
  {
    if s != [] {
      SameFilter(one, other, s[..|s| - 1]);
    }
  }

  lemma LoweredNetwork(d: Discovery, i: nat, qc: QC, p: Policy)
    requires i < |d.candidates| && d.candidates[i].qc.ACCEPT? && !qc.ACCEPT?
    requires NetworkPasses(Lowered(d, i, qc), p)
    ensures var c := d.candidates[i];
            NetworkPasses(d, p)
            <==> IsTarget(d, c)
                 || (c.coordinateVerified && c.navigation && StandsWell(Filter(Admissible, Others(d))))
  {
    hide GeometryQuality, IsTarget, Filter, Others, Lowered, GatesClear, IntervalsKnown;
    LoweredReferences(d, i, qc);
    LoweredGates(d, i, qc);
    if IntervalsKnown(Filter(Admissible, Others(d))) {
      LoweredIntervals(d, i, qc);
    }
  }

  /**
   * Lowering the verdict on a station may promote. Where a virtual reference station is chosen after an
   * accepted station is lowered, it was chosen before exactly when that station is the target itself, or
   * has coordinates and navigation and the geometry passes with it.
   */
  lemma LoweringAStation(r: Request, d: Discovery, i: nat, qc: QC, singleQc: map<string, QC>, u: Upstream, p: Policy)
    requires ValidPolicy(p) && i < |d.candidates| && d.candidates[i].qc.ACCEPT? && !qc.ACCEPT?
    requires Decide(r, Lowered(d, i, qc), singleQc, u, p).correction.VRS?
    ensures var c := d.candidates[i];
            Decide(r, d, singleQc, u, p).correction.VRS?
            <==> d.targetId == Some(c.id)
                 || (c.coordinateVerified && c.navigation && StandsWell(Filter(Admissible, Others(d))))
  {
    hide Decide, GeometryQuality, NetworkPasses, UpstreamPasses, Filter, Others, Admissible;
    VrsChosenIff(r, Lowered(d, i, qc), singleQc, u, p);
    VrsChosenIff(r, d, singleQc, u, p);
    LoweredNetwork(d, i, qc, p);
  }

  function Station(id: string, qc: QC, navigation: bool, hasInterval: bool): Candidate {
    Candidate(id, qc, true, navigation, hasInterval, Some(1.0))
  }

  /** Three good references a metre from the target. */
  function Three(hasInterval: bool): seq<Candidate> {
    [Station("A", ACCEPT, true, hasInterval), Station("B", ACCEPT, true, hasInterval), Station("C", ACCEPT, true, hasInterval)]
  }

  /** One more station at the end of the list, when the target is no station. */
  lemma StationAdmitted(d: Discovery, front: seq<Candidate>, c: Candidate)
    requires d.targetId.None? && Filter(Admissible, Filter(NotTarget(d), front)) == front
    ensures Filter(Admissible, Filter(NotTarget(d), front + [c])) == if Admissible(c) then front + [c] else front
  {
    hide Filter, Admissible;
    OtherSnoc(d, front, c);
  }

  lemma ThreeAdmitted(d: Discovery, hasInterval: bool)
    requires d.targetId.None?
    ensures Filter(Admissible, Filter(NotTarget(d), Three(hasInterval))) == Three(hasInterval)
  {
    hide Filter;
    var a, b, c := Three(hasInterval)[0], Three(hasInterval)[1], Three(hasInterval)[2];
    NothingOther(d);
    StationAdmitted(d, [], a);
    StationAdmitted(d, [] + [a], b);
    StationAdmitted(d, [] + [a] + [b], c);
    assert [] + [a] + [b] + [c] == Three(hasInterval);
  }

  lemma ThreeAreAdmitted(d: Discovery, hasInterval: bool, more: seq<Candidate>)
    requires d.targetId.None? && |more| <= 1 && (forall c <- more :: !Admissible(c))
    requires d.candidates == Three(hasInterval) + more
    ensures Filter(Admissible, Others(d)) == Three(hasInterval)
  {
    hide Filter, Three, Admissible;
    ThreeAdmitted(d, hasInterval);
    if |more| == 1 {
      StationAdmitted(d, Three(hasInterval), more[0]);
      assert more == [more[0]];
    } else {
      assert d.candidates == Three(hasInterval);
    }
  }

  lemma NothingOther(d: Discovery)
    ensures Filter(Admissible, Filter(NotTarget(d), [])) == []
  {}

  lemma ThreeStandWell(hasInterval: bool)
    ensures StandsWell(Three(hasInterval))
  {
    assert Three(hasInterval)[0] in Three(hasInterval);
  }

  lemma NoDistances()
    ensures Distances([]) == []
  {}

  lemma DistancesSnoc(cs: seq<Candidate>, c: Candidate)
    ensures Distances(cs + [c]) == Distances(cs) + if c.distance.Some? then [c.distance.value] else []
  {
    assert (cs + [c])[..|cs|] == cs;
  }

  /** An accepted station without navigation blocks; the same station with a warning verdict is passed over. */
  lemma LoweringPromotes(r: Request, singleQc: map<string, QC>, u: Upstream, p: Policy, warnings: nat)
    requires ValidPolicy(p) && p.minReferences == 3 && p.minCommonSeconds <= 86400.0
    requires UpstreamPasses(u, p) && r.mode.AUTO?
    ensures var d := Discovery(true, None, Three(true) + [Station("D", ACCEPT, false, true)], warnings);
            && !Decide(r, d, singleQc, u, p).correction.VRS?
            && Decide(r, Lowered(d, 3, WARN), singleQc, u, p).correction.VRS?
  {
    hide Decide, UpstreamPasses, GeometryQuality, Filter;
    var d := Discovery(true, None, Three(true) + [Station("D", ACCEPT, false, true)], warnings);
    var e := Lowered(d, 3, WARN);
    assert e.candidates == Three(true) + [Station("D", WARN, false, true)];
    ThreeAreAdmitted(e, true, [Station("D", WARN, false, true)]);
    ThreeStandWell(true);
    VrsChosenIff(r, e, singleQc, u, p);
    LoweringAStation(r, d, 3, WARN, singleQc, u, p);
  }

  /**
   * Three references whose intervals are unknown pass whatever common interval the policy asks for;
   * with their intervals known they pass only if it asks for no more than a day.
   */
  lemma UnknownIntervalPasses(r: Request, singleQc: map<string, QC>, u: Upstream, p: Policy, warnings: nat, known: bool)
    requires ValidPolicy(p) && p.minReferences == 3 && UpstreamPasses(u, p) && r.mode.AUTO?
    ensures var d := Discovery(true, None, Three(known), warnings);
            Decide(r, d, singleQc, u, p).correction.VRS? <==> !known || p.minCommonSeconds <= 86400.0
  {
    hide Decide, UpstreamPasses, GeometryQuality, Filter;
    var d := Discovery(true, None, Three(known), warnings);
    assert Three(known) + [] == Three(known);
    ThreeAreAdmitted(d, known, []);
    ThreeStandWell(known);
    VrsChosenIff(r, d, singleQc, u, p);
    assert Three(known)[0] in Three(known);
  }

  /** Three references at 100, 400 and 600 km. */
  function Spaced(): seq<Candidate> {
    [Station("A", ACCEPT, true, true).(distance := Some(100000.0)),
     Station("B", ACCEPT, true, true).(distance := Some(400000.0)),
     Station("C", ACCEPT, true, true).(distance := Some(600000.0))]
  }

  /** They are refused whatever else holds: the geometry is extrapolation. */
  lemma FarReferencesAreRefused(r: Request, singleQc: map<string, QC>, u: Upstream, p: Policy, warnings: nat)
    requires ValidPolicy(p) && p.minReferences == 3
    ensures var d := Discovery(true, None, Spaced(), warnings);
            !Decide(r, d, singleQc, u, p).correction.VRS? && AssessedNetwork(d, p).geometry.EXTRAPOLATION?
  {
    hide Decide, UpstreamPasses, GeometryQuality, Filter, GateBlockers;
    var d := Discovery(true, None, Spaced(), warnings);
    var a, b, c := Spaced()[0], Spaced()[1], Spaced()[2];
    NothingOther(d);
    StationAdmitted(d, [], a);
    StationAdmitted(d, [] + [a], b);
    StationAdmitted(d, [] + [a] + [b], c);
    assert [] + [a] + [b] + [c] == Spaced();
    assert a in Spaced() && c in Spaced() && c.distance.value > 2.0 * a.distance.value;
    GeometryIs(Spaced());
    VrsChosenIff(r, d, singleQc, u, p);
  }

  // ----- the single base that is picked

  lemma BeforeIsPreorder()
    ensures TotalPreorder(Before) && TotalPreorder(ById)
  {
    forall a: Candidate, b: Candidate ensures (Before(a, b) || Before(b, a)) && (ById(a, b) || ById(b, a)) {
      LexTotal(a.id, b.id);
    }
    forall a: Candidate, b: Candidate, c: Candidate
      ensures (Before(a, b) && Before(b, c) ==> Before(a, c)) && (ById(a, b) && ById(b, c) ==> ById(a, c))
    {
      if LexLe(a.id, b.id) && LexLe(b.id, c.id) {
        LexTransitive(a.id, b.id, c.id);
      }
    }
  }

  lemma SurvivorsAre(d: Discovery, singleQc: map<string, QC>, c: Candidate)
    ensures c in Survivors(d, singleQc) <==> c in d.candidates && d.targetId != Some(c.id) && Gated(singleQc, c)
  {
    hide Gated;
    BeforeIsPreorder();
    SortBySorts(ById, Others(d));
    var s := SortBy(ById, Others(d));
    assert c in s <==> c in multiset(s);
    assert c in multiset(Others(d)) <==> c in Others(d);
  }

  /** The first of the ranking passes every gate and no other that does comes before it. */
  lemma PickIsFirst(d: Discovery, singleQc: map<string, QC>)
    requires Survivors(d, singleQc) != []
    ensures var pick := SortBy(Before, Survivors(d, singleQc));
            pick != [] && pick[0] in Survivors(d, singleQc) && forall c <- Survivors(d, singleQc) :: Before(pick[0], c)
  {
    BeforeIsPreorder();
    FirstIsLeast(Before, Survivors(d, singleQc));
  }

  /**
   * The pick depends only on which stations pass the gates: the order of the candidates, and any
   * number of candidates that fail a gate, change nothing.
   */
  lemma PickDependsOnSurvivors(d: Discovery, e: Discovery, singleQc: map<string, QC>, p: Policy)
    requires forall c :: c in Survivors(d, singleQc) <==> c in Survivors(e, singleQc)
    ensures var a := AssessedSingleBase(d, singleQc, p);
            var b := AssessedSingleBase(e, singleQc, p);
            a.available == b.available && a.reference == b.reference && a.distance == b.distance && a.band == b.band
  {
    hide Survivors, Before;
    var s, t := Survivors(d, singleQc), Survivors(e, singleQc);
    if s != [] {
      assert s[0] in t;
      PickIsFirst(d, singleQc);
      PickIsFirst(e, singleQc);
      SameKey(SortBy(Before, s)[0], SortBy(Before, t)[0]);
    } else {
      NoneLeft(s, t);
    }
  }

  lemma NothingRanked(s: seq<Candidate>)
    requires s == []
    ensures SortBy(Before, s) == []
  {}

  lemma NoneLeft(s: seq<Candidate>, t: seq<Candidate>)
    requires s == [] && forall c :: c in s <==> c in t
    ensures t == [] && SortBy(Before, s) == SortBy(Before, t)
  {
    if t != [] {
      HasElement(t);
      assert false;
    }
  }

  lemma HasElement(t: seq<Candidate>)
    requires t != []
    ensures exists c :: c in t
  {
    assert t[0] in t;
  }

  lemma SameKey(a: Candidate, b: Candidate)
    requires Before(a, b) && Before(b, a)
    ensures a.id == b.id && a.distance == b.distance
  {
    LexAntisymmetric(a.id, b.id);
  }

  /** Permuting the candidates, or adding ones that fail a single-base gate, keeps the pick. */
  lemma PickIgnoresOrderAndFailures(d: Discovery, singleQc: map<string, QC>, p: Policy,
                                    shuffled: seq<Candidate>, failing: seq<Candidate>)
    requires multiset(shuffled) == multiset(d.candidates)
    requires forall c <- failing :: !Gated(singleQc, c) || d.targetId == Some(c.id)
    ensures var a := AssessedSingleBase(d, singleQc, p);
            var b := AssessedSingleBase(d.(candidates := shuffled + failing), singleQc, p);
            a.available == b.available && a.reference == b.reference && a.distance == b.distance && a.band == b.band
  {
    hide Survivors, AssessedSingleBase, Gated;
    var e := d.(candidates := shuffled + failing);
    forall c ensures c in Survivors(d, singleQc) <==> c in Survivors(e, singleQc) {
      SurvivorsAre(d, singleQc, c);
      SurvivorsAre(e, singleQc, c);
      assert c in shuffled <==> c in multiset(shuffled);
      assert c in d.candidates <==> c in multiset(d.candidates);
    }
    PickDependsOnSurvivors(d, e, singleQc, p);
  }

  /** No gated station with a known distance is nearer than the one picked. */
  ghost predicate NearestPicked(d: Discovery, singleQc: map<string, QC>)
    requires Survivors(d, singleQc) != []
  {
    PickIsFirst(d, singleQc);
    var pick := SortBy(Before, Survivors(d, singleQc))[0];
    && pick.distance.Some?
    && forall c <- Survivors(d, singleQc) :: c.distance.Some? ==> pick.distance.value <= c.distance.value
  }

  /**
   * The pick is the nearest gated station exactly when no gated station is at distance zero, or all
   * that have a distance are: a zero distance is ranked as if it were infinite.
   */
  lemma NearestPickedIff(d: Discovery, singleQc: map<string, QC>)
    requires forall c <- Survivors(d, singleQc) :: c.distance.Some? ==> c.distance.value >= 0.0
    requires exists c <- Survivors(d, singleQc) :: c.distance.Some?
    ensures NearestPicked(d, singleQc)
            <==> (forall c <- Survivors(d, singleQc) :: c.distance != Some(0.0))
                 || (forall c <- Survivors(d, singleQc) :: c.distance.Some? ==> c.distance.value == 0.0)
  {
    hide Survivors;
    PickIsFirst(d, singleQc);
    var pick := SortBy(Before, Survivors(d, singleQc))[0];
    var known :| known in Survivors(d, singleQc) && known.distance.Some?;
    assert Before(pick, known);
  }

  function GatedAt(id: string, distance: real): Candidate {
    Candidate(id, ACCEPT, true, true, true, Some(distance))
  }

  /** A station at distance zero loses to one a metre away. */
  lemma ZeroDistanceLoses(warnings: nat)
    ensures var d := Discovery(true, None, [GatedAt("A", 0.0), GatedAt("B", 1.0)], warnings);
            && Survivors(d, map[]) != [] && !NearestPicked(d, map[])
            && SortBy(Before, Survivors(d, map[]))[0] == GatedAt("B", 1.0)
  {
    hide Survivors;
    var a, b := GatedAt("A", 0.0), GatedAt("B", 1.0);
    var d := Discovery(true, None, [a, b], warnings);
    var none: map<string, QC> := map[];
    assert d.candidates[0] == a && d.candidates[1] == b;
    forall c ensures c in Survivors(d, none) <==> c == a || c == b {
      SurvivorsAre(d, none, c);
    }
    assert a in Survivors(d, none) && b in Survivors(d, none);
    NearestPickedIff(d, none);
    PickIsFirst(d, none);
  }

  /** A single base is available when the first of the ranking is not known to be too far away; it is the one named. */
  lemma FirstIsNamed(d: Discovery, singleQc: map<string, QC>, p: Policy)
    requires ValidPolicy(p)
    ensures var a := AssessedSingleBase(d, singleQc, p);
            var ordered := SortBy(Before, Survivors(d, singleQc));
            && (a.available <==> ordered != [] && (ordered[0].distance.Some? ==> ordered[0].distance.value <= p.maximum))
            && (a.available ==> a.reference == Some(ordered[0].id) && a.distance == ordered[0].distance)
  {
    hide Survivors, SortBy, Rejections, Others;
  }

  /** The decision carries over what the single base assessment named. */
  lemma SingleBaseIsAvailable(r: Request, d: Discovery, singleQc: map<string, QC>, u: Upstream, p: Policy)
    requires Decide(r, d, singleQc, u, p).correction.SINGLE_BASE?
    ensures var decision := Decide(r, d, singleQc, u, p);
            var a := AssessedSingleBase(d, singleQc, p);
            && d.targetKnown && !r.mode.VRS_ONLY?
            && (decision.fallbackUsed <==> r.mode.AUTO?) && (r.mode.AUTO? ==> p.fallbackEnabled && r.allowFallback)
            && a.available && decision.reference == a.reference && decision.distance == a.distance
  {
    hide AssessedNetwork, AssessedVrs, AssessedSingleBase, DeriveIntegrity, AnyAccepted, AnyNavigation;
  }

  /** A single base decision names a gated station within the maximum distance band. */
  lemma SingleBaseIsGated(r: Request, d: Discovery, singleQc: map<string, QC>, u: Upstream, p: Policy)
    requires ValidPolicy(p) && Decide(r, d, singleQc, u, p).correction.SINGLE_BASE?
    ensures var decision := Decide(r, d, singleQc, u, p);
            && d.targetKnown && !r.mode.VRS_ONLY?
            && (decision.fallbackUsed <==> r.mode.AUTO?) && (r.mode.AUTO? ==> p.fallbackEnabled && r.allowFallback)
            && (decision.distance.Some? ==> decision.distance.value <= p.maximum)
            && exists c <- d.candidates ::
                 decision.reference == Some(c.id) && decision.distance == c.distance
                 && d.targetId != Some(c.id) && Gated(singleQc, c)
                 && forall other <- Survivors(d, singleQc) :: Before(c, other)
  {
    hide Decide, AssessedSingleBase, Survivors, Gated, Before, SortBy;
    SingleBaseIsAvailable(r, d, singleQc, u, p);
    FirstIsNamed(d, singleQc, p);
    var survivors := Survivors(d, singleQc);
    if survivors == [] {
      NothingRanked(survivors);
    } else {
      PickIsFirst(d, singleQc);
      SurvivorsAre(d, singleQc, SortBy(Before, survivors)[0]);
    }
  }

  /** Some station passes every gate and the one ranked first is not known to be too far away. */
  ghost predicate SingleBaseReachable(d: Discovery, singleQc: map<string, QC>, p: Policy) {
    exists c <- Survivors(d, singleQc) ::
      && (forall other <- Survivors(d, singleQc) :: Before(c, other))
      && (c.distance.Some? ==> c.distance.value <= p.maximum)
  }

  lemma AvailableIff(d: Discovery, singleQc: map<string, QC>, p: Policy)
    requires ValidPolicy(p)
    ensures AssessedSingleBase(d, singleQc, p).available <==> SingleBaseReachable(d, singleQc, p)
  {
    hide AssessedSingleBase, Survivors, Before, SortBy;
    FirstIsNamed(d, singleQc, p);
    var survivors := Survivors(d, singleQc);
    if survivors == [] {
      NothingRanked(survivors);
    } else {
      PickIsFirst(d, singleQc);
      var pick := SortBy(Before, survivors)[0];
      if SingleBaseReachable(d, singleQc, p) {
        var c :| c in survivors && (forall other <- survivors :: Before(c, other))
                 && (c.distance.Some? ==> c.distance.value <= p.maximum);
        SameKey(pick, c);
      }
    }
  }

  /** When a single base is chosen: only asked for outright, or as a permitted fallback from a closed gate. */
  lemma SingleBaseChosenIff(r: Request, d: Discovery, singleQc: map<string, QC>, u: Upstream, p: Policy)
    requires ValidPolicy(p)
    ensures Decide(r, d, singleQc, u, p).correction.SINGLE_BASE?
            <==> && d.targetKnown && SingleBaseReachable(d, singleQc, p)
                 && (r.mode.SINGLE_BASE_ONLY?
                     || (&& r.mode.AUTO? && p.fallbackEnabled && r.allowFallback && AnyAccepted(d) && AnyNavigation(d)
                         && !(NetworkPasses(d, p) && UpstreamPasses(u, p))))
  {
    hide AssessedNetwork, AssessedSingleBase, AssessedVrs, UpstreamPasses, NetworkPasses, SingleBaseReachable,
         AnyAccepted, AnyNavigation;
    if d.targetKnown {
      AvailableIff(d, singleQc, p);
      NetworkGateIff(d, p);
      VrsGateIff(AssessedNetwork(d, p), u, p);
    }
  }

  // ----- status and integrity of a decision

  /** Only the preferred band is without a warning. */
  lemma BandIs(d: Discovery, singleQc: map<string, QC>, p: Policy)
    requires ValidPolicy(p) && AssessedSingleBase(d, singleQc, p).available
    ensures var a := AssessedSingleBase(d, singleQc, p);
            && !a.band.BeyondMaximum? && (a.band.Unknown? <==> a.distance.None?)
            && (a.band.Preferred? <==> a.distance.Some? && a.distance.value <= p.preferredMax)
            && (a.band.Degraded? <==> a.distance.Some? && p.preferredMax < a.distance.value <= p.degradedMax)
            && (a.band.Maximum? <==> a.distance.Some? && p.degradedMax < a.distance.value <= p.maximum)
            && a.warnings == if a.band.Preferred? then 0 else 1
  {
    hide Survivors, SortBy, Rejections, Others;
  }

  /** Without an available base: nobody passed the gates, or the first in rank stands beyond the maximum. */
  lemma UnavailableIs(d: Discovery, singleQc: map<string, QC>, p: Policy)
    requires ValidPolicy(p) && !AssessedSingleBase(d, singleQc, p).available
    ensures var a := AssessedSingleBase(d, singleQc, p);
            && a.reference.None? && a.distance.None? && a.warnings == 0
            && if a.ranked == [] then a.blockers == [NoSingleBaseCandidate]
               else a.ranked[0].distance.Some? && a.ranked[0].distance.value > p.maximum && a.blockers == [TooDistant(a.ranked[0].id)]
                    && a.rejected != [] && a.rejected[|a.rejected| - 1] == Rejection(a.ranked[0].id, TooFarAway)
  {
    hide Survivors, SortBy, Rejections, Others;
  }

  lemma GateWarnings(d: Discovery, u: Upstream, p: Policy)
    requires ValidPolicy(p) && d.targetKnown
    ensures AssessedVrs(AssessedNetwork(d, p), u, p).warnings
            == (if u.spatial.fingerprinted then 0 else 1) + if u.vrs.fingerprinted then 0 else 1
  {
    hide GeometryQuality, GateBlockers, Filter, Others, SpreadOf, CommonSeconds, CoverageOf, Ids, SortBy, Note,
         ApprovalBlockers, EvidenceBlockers;
  }

  /** The status and integrity of a decision, and what it leaves empty. */
  predicate Rated(x: Decision, r: Request, d: Discovery, u: Upstream, p: Policy) {
    if x.correction.NO_CORRECTION? then
      x.status == (if r.diagnostic then DIAGNOSTIC_ONLY else BLOCKED) && x.integrity.UNUSABLE? && x.reference.None?
    else
      && x.status == (if r.diagnostic then DIAGNOSTIC_ONLY
                      else if x.correction.VRS? || (x.distance.Some? && x.distance.value <= p.preferredMax) then OK
                      else DEGRADED)
      && (x.correction.VRS? ==> x.reference.None? && !x.fallbackUsed)
      && (x.integrity.INTACT? <==> x.status.OK? && d.warnings == 0
                                   && (x.fallbackUsed ==> u.spatial.fingerprinted && u.vrs.fingerprinted))
      && (!x.integrity.INTACT? ==> x.integrity.LIMITED?)
  }

  lemma RefusalIsRated(r: Request, d: Discovery, u: Upstream, p: Policy)
    ensures Rated(NoCorrection(r), r, d, u, p)
    ensures r.diagnostic ==> Rated(Preview(AssessedNetwork(d, p)), r, d, u, p)
  {
    hide AssessedNetwork;
  }

  lemma VrsIsRated(r: Request, d: Discovery, u: Upstream, p: Policy, warnings: nat)
    requires warnings == d.warnings
    ensures Rated(ChooseVrs(r, AssessedNetwork(d, p), warnings), r, d, u, p)
  {
    hide AssessedNetwork, DeriveIntegrity;
    IntegrityIs();
  }

  lemma BaseIsRated(r: Request, d: Discovery, singleQc: map<string, QC>, u: Upstream, p: Policy, gate: nat, fallback: bool)
    requires ValidPolicy(p) && AssessedSingleBase(d, singleQc, p).available
    requires gate == if fallback then (if u.spatial.fingerprinted then 0 else 1) + (if u.vrs.fingerprinted then 0 else 1) else 0
    ensures var s := AssessedSingleBase(d, singleQc, p);
            Rated(ChooseSingleBase(r, AssessedNetwork(d, p), s, d.warnings + gate + s.warnings, fallback), r, d, u, p)
  {
    hide AssessedNetwork, AssessedSingleBase, DeriveIntegrity;
    IntegrityIs();
    BandIs(d, singleQc, p);
  }

  /**
   * What a decision is worth: OK for a virtual station or a base within the preferred distance, DEGRADED for
   * any other base; INTACT only when OK and nothing was warned of, on a fallback fingerprints included.
   */
  lemma DecisionIsRated(r: Request, d: Discovery, singleQc: map<string, QC>, u: Upstream, p: Policy)
    requires ValidPolicy(p)
    ensures Rated(Decide(r, d, singleQc, u, p), r, d, u, p)
  {
    hide AssessedNetwork, AssessedSingleBase, AssessedVrs, AnyAccepted, AnyNavigation, UpstreamPasses, NetworkPasses,
         DeriveIntegrity, ChooseVrs, ChooseSingleBase, NoCorrection, Preview, Rated;
    RefusalIsRated(r, d, u, p);
    VrsIsRated(r, d, u, p, d.warnings);
    if d.targetKnown {
      GateWarnings(d, u, p);
      NetworkGateIff(d, p);
      VrsGateIff(AssessedNetwork(d, p), u, p);
      FingerprintsPass(u, p);
      if AssessedSingleBase(d, singleQc, p).available {
        BaseIsRated(r, d, singleQc, u, p, AssessedVrs(AssessedNetwork(d, p), u, p).warnings, true);
        BaseIsRated(r, d, singleQc, u, p, 0, false);
      }
    }
  }

  lemma IntegrityIs()
    ensures forall correction: Correction, status: Status, warnings: nat | !correction.NO_CORRECTION? && !status.BLOCKED? ::
              DeriveIntegrity(correction, status, warnings, false) == if status.OK? && warnings == 0 then INTACT else LIMITED
  {}

  lemma FingerprintsPass(u: Upstream, p: Policy)
    ensures UpstreamPasses(u, p) ==> u.spatial.fingerprinted && u.vrs.fingerprinted
  {
    hide ResolvedLeakage;
  }
}
