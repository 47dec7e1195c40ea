/**
 * Predicting a value at a target position from reference stations. Distances, powers and the plane
 * fit are given functions over the reals; rounding is not modelled.
 */
module Interpolation {
  import opened Ordering
  import opened Wire

  datatype Point = Point(x: real, y: real, z: real)

  datatype Model = Zero | Nearest | Idw | Planar

  datatype Reference = Reference(station: string, at: Point, value: Option<real>)

  /** A reference that carries a value. */
  datatype Usable = Usable(station: string, at: Point, value: real)

  datatype Geometry = Geometry(distance: (Point, Point) -> real, pow: (real, real) -> real,
                               plane: (seq<Usable>, Point) -> Option<real>)

  /** Distances are positive except between a point and itself; a power of a positive number is positive. */
  ghost predicate ValidGeometry(g: Geometry) {
    && (forall a, b :: g.distance(a, b) >= 0.0 && (g.distance(a, b) == 0.0 <==> a == b))
    && forall ratio, power | ratio > 0.0 :: g.pow(ratio, power) > 0.0
  }

  function Minimum(model: Model): nat {
    match model
    case Zero => 0
    case Nearest => 1
    case Idw => 2
    case Planar => 3
  }

  // ----- the usable references, in the order of their tuples

  predicate PointLe(a: Point, b: Point) {
    if a.x != b.x then a.x < b.x else if a.y != b.y then a.y < b.y else a.z <= b.z
  }

  predicate UsableLe(a: Usable, b: Usable) {
    if a.station != b.station then LexLe(a.station, b.station)
    else if a.at != b.at then PointLe(a.at, b.at)
    else a.value <= b.value
  }

  function WithValues(references: seq<Reference>): seq<Usable> {
    if references == [] then []
    else
      var r := references[0];
      (if r.value.Some? then [Usable(r.station, r.at, r.value.value)] else []) + WithValues(references[1..])
  }

  function UsableOf(references: seq<Reference>): seq<Usable> {
    SortBy(UsableLe, WithValues(references))
  }

  // ----- the estimators

  /** The position of the first reference at the least distance. */
  function NearestIndex(g: Geometry, usable: seq<Usable>, target: Point): (k: nat)
    requires usable != []
    ensures k < |usable|
  {
    var last := |usable| - 1;
    if last == 0 then 0
    else
      var k := NearestIndex(g, usable[..last], target);
      if g.distance(usable[last].at, target) < g.distance(usable[k].at, target) then last else k
  }

  function NearestDistance(g: Geometry, usable: seq<Usable>, target: Point): real
    requires usable != []
  {
    g.distance(usable[NearestIndex(g, usable, target)].at, target)
  }

  /** The value of the first reference at distance zero. */
  function CoLocated(g: Geometry, usable: seq<Usable>, target: Point): Option<real> {
    if usable == [] then None
    else if g.distance(usable[0].at, target) == 0.0 then Some(usable[0].value)
    else CoLocated(g, usable[1..], target)
  }

  /** The weight of a reference relative to the nearest one. */
  function Weight(g: Geometry, power: real, nearest: real, u: Usable, target: Point): real {
    var distance := g.distance(u.at, target);
    if distance == 0.0 then 0.0 else g.pow(nearest / distance, power)
  }

  function Weights(g: Geometry, power: real, nearest: real, usable: seq<Usable>, target: Point): (r: seq<real>)
    ensures |r| == |usable|
  {
    if usable == [] then []
    else
      var last := |usable| - 1;
      Weights(g, power, nearest, usable[..last], target) + [Weight(g, power, nearest, usable[last], target)]
  }

  function Sum(s: seq<real>): real {
    if s == [] then 0.0 else Sum(s[..|s| - 1]) + s[|s| - 1]
  }

  function WeightedSum(weights: seq<real>, usable: seq<Usable>): real
    requires |weights| == |usable|
  {
    if usable == [] then 0.0
    else
      var last := |usable| - 1;
      WeightedSum(weights[..last], usable[..last]) + Times(weights[last], usable[last].value)
  }

  function Times(a: real, b: real): real { a * b }

  /** The weighted mean; references at distance zero are dealt with before. */
  function Mean(g: Geometry, power: real, usable: seq<Usable>, target: Point): real
    requires ValidGeometry(g) && usable != [] && CoLocated(g, usable, target).None?
  {
    var weights := Weights(g, power, NearestDistance(g, usable, target), usable, target);
    WeightsArePositive(g, power, usable, target);
    WeightedSum(weights, usable) / Sum(weights)
  }

  lemma {:induction false} NotCoLocated(g: Geometry, usable: seq<Usable>, target: Point)
    ensures CoLocated(g, usable, target).None? <==> forall u <- usable :: g.distance(u.at, target) != 0.0
  {
    if usable != [] {
      NotCoLocated(g, usable[1..], target);
      assert usable == [usable[0]] + usable[1..];
    }
  }

  lemma {:induction false} SumOfPositive(g: Geometry, power: real, nearest: real, usable: seq<Usable>, target: Point)
    requires ValidGeometry(g) && nearest > 0.0 && forall u <- usable :: g.distance(u.at, target) != 0.0
    ensures forall w <- Weights(g, power, nearest, usable, target) :: w > 0.0
    ensures Sum(Weights(g, power, nearest, usable, target)) >= 0.0
    ensures usable != [] ==> Sum(Weights(g, power, nearest, usable, target)) > 0.0
  {
    if usable != [] {
      var last := |usable| - 1;
      var front := Weights(g, power, nearest, usable[..last], target);
      SumOfPositive(g, power, nearest, usable[..last], target);
      assert usable[last] in usable;
      WeightIsPositive(g, power, nearest, usable[last], target);
      assert (front + [Weight(g, power, nearest, usable[last], target)])[..last] == front;
    }
  }

  lemma WeightIsPositive(g: Geometry, power: real, nearest: real, u: Usable, target: Point)
    requires ValidGeometry(g) && nearest > 0.0 && g.distance(u.at, target) != 0.0
    ensures Weight(g, power, nearest, u, target) > 0.0
  {
    PositiveQuotient(nearest, g.distance(u.at, target));
  }

  lemma PositiveQuotient(a: real, b: real)
    requires a > 0.0 && b > 0.0
    ensures a / b > 0.0
  {}

  lemma WeightsArePositive(g: Geometry, power: real, usable: seq<Usable>, target: Point)
    requires ValidGeometry(g) && usable != [] && CoLocated(g, usable, target).None?
    ensures var weights := Weights(g, power, NearestDistance(g, usable, target), usable, target);
            Sum(weights) > 0.0 && forall w <- weights :: w > 0.0
  {
    NotCoLocated(g, usable, target);
    assert usable[NearestIndex(g, usable, target)] in usable;
    SumOfPositive(g, power, NearestDistance(g, usable, target), usable, target);
  }

  // ----- the prediction

  function Estimate(g: Geometry, model: Model, power: real, usable: seq<Usable>, target: Point): Option<real>
    requires ValidGeometry(g)
  {
    if |usable| < Minimum(model) then None
    else
      match model
      case Zero => Some(0.0)
      case Nearest => Some(usable[NearestIndex(g, usable, target)].value)
      case Idw =>
        var same := CoLocated(g, usable, target);
        Some(if same.Some? then same.value else Mean(g, power, usable, target))
      case Planar => g.plane(usable, target)
  }

  function Predicted(g: Geometry, model: Model, power: real, references: seq<Reference>, target: Point): Option<real>
    requires ValidGeometry(g)
  {
    Estimate(g, model, power, UsableOf(references), target)
  }

  datatype Prediction = PowerNotPositive | Prediction(predicted: Option<real>, residual: Option<real>)

  method Interpolate(g: Geometry, model: Model, power: real, references: seq<Reference>, target: Point,
                     observed: Option<real>) returns (p: Prediction)
    requires ValidGeometry(g)
    ensures p.PowerNotPositive? <==> model.Idw? && power <= 0.0
    ensures p.Prediction? ==> p.predicted == Predicted(g, model, power, references, target)
    ensures p.Prediction? ==>
              if observed.Some? && p.predicted.Some? then p.residual == Some(observed.value - p.predicted.value)
              else p.residual.None?
  {
    if model.Idw? && power <= 0.0 {
      return PowerNotPositive;
    }
    var usable := UsableOf(references);
    var predicted: Option<real> := None;
    if |usable| < Minimum(model) {
    } else if model.Zero? {
      predicted := Some(0.0);
    } else if model.Nearest? {
      predicted := Some(usable[NearestIndex(g, usable, target)].value);
    } else if model.Idw? {
      var mean := EstimateByDistance(g, power, usable, target);
      predicted := Some(mean);
    } else {
      predicted := g.plane(usable, target);
    }
    return Prediction(predicted, Residual(observed, predicted));
  }

  function Residual(observed: Option<real>, predicted: Option<real>): Option<real> {
    if observed.Some? && predicted.Some? then Some(observed.value - predicted.value) else None
  }

  /** One pass collects the weights and stops at the first reference that stands at the target. */
  method EstimateByDistance(g: Geometry, power: real, usable: seq<Usable>, target: Point) returns (value: real)
    requires ValidGeometry(g) && |usable| >= Minimum(Idw)
    ensures Some(value) == Estimate(g, Idw, power, usable, target)
  {
    var weights: seq<real> := [];
    for i := 0 to |usable|
      invariant weights == Weights(g, power, NearestDistance(g, usable, target), usable[..i], target)
      invariant CoLocated(g, usable[i..], target) == CoLocated(g, usable, target)
    {
      assert usable[i..][0] == usable[i] && usable[i..][1..] == usable[i + 1..];
      assert usable[..i + 1][..i] == usable[..i];
      var distance := g.distance(usable[i].at, target);
      if distance == 0.0 {
        return usable[i].value;
      }
      weights := weights + [g.pow(NearestDistance(g, usable, target) / distance, power)];
    }
    assert usable[..|usable|] == usable;
    WeightsArePositive(g, power, usable, target);
    value := WeightedSum(weights, usable) / Sum(weights);
  }

  /** Stations by name, then positions by x, y and z, then values: no later reference belongs before an earlier one. */
  lemma UsableInOrder(references: seq<Reference>, i: nat, j: nat)
    requires i < j < |UsableOf(references)|
    ensures var u, v := UsableOf(references)[i], UsableOf(references)[j];
            && (u.station != v.station ==> LexLe(u.station, v.station))
            && (u.station == v.station ==> u.at.x <= v.at.x)
            && (u.station == v.station && u.at.x == v.at.x ==> u.at.y <= v.at.y)
            && (u.station == v.station && u.at.x == v.at.x && u.at.y == v.at.y ==> u.at.z <= v.at.z)
            && (u.station == v.station && u.at == v.at ==> u.value <= v.value)
  {
    UsableIsPreorder();
    SortBySorts(UsableLe, WithValues(references));
    assert UsableLe(UsableOf(references)[i], UsableOf(references)[j]);
  }

  /** The zero model always predicts, the others need one, two and three values; a plane may still not fit. */
  lemma PredictsWhen(g: Geometry, model: Model, power: real, references: seq<Reference>, target: Point)
    requires ValidGeometry(g)
    ensures var p, n := Predicted(g, model, power, references, target), |WithValues(references)|;
            && (model.Zero? ==> p == Some(0.0)) && (model.Nearest? ==> (p.Some? <==> n >= 1))
            && (model.Idw? ==> (p.Some? <==> n >= 2)) && (model.Planar? && n < 3 ==> p.None?)
            && (model.Planar? && n >= 3 ==> p == g.plane(UsableOf(references), target))
  {
    hide ValidGeometry, Mean, WithValues, NearestIndex, CoLocated;
  }

  // ----- the inverse-distance prediction is the mean weighted by powers of inverse distances

  lemma {:induction false} WeightsAre(g: Geometry, power: real, least: real, usable: seq<Usable>, target: Point, w: seq<real>)
    requires |w| == |usable| && forall u <- usable :: g.distance(u.at, target) != 0.0
    requires forall i :: 0 <= i < |usable| ==> w[i] == g.pow(least / g.distance(usable[i].at, target), power)
    ensures Weights(g, power, least, usable, target) == w
  {
    if usable != [] {
      var last := |usable| - 1;
      WeightsAre(g, power, least, usable[..last], target, w[..last]);
      assert usable[last] in usable;
      assert w == w[..last] + [w[last]];
    }
  }

  lemma NearestIsLeast(g: Geometry, usable: seq<Usable>, target: Point, least: real)
    requires usable != [] && (forall u <- usable :: least <= g.distance(u.at, target))
    requires exists u <- usable :: g.distance(u.at, target) == least
    ensures NearestDistance(g, usable, target) == least
  {
    hide NearestIndex;
    NearestIsNearest(g, usable, target);
    assert usable[NearestIndex(g, usable, target)] in usable;
  }

  lemma QuotientTimes(a: real, b: real)
    requires b != 0.0
    ensures (a / b) * b == a
  {}

  /**
   * With no reference at the target, inverse distance predicts the mean of the values weighted by
   * (least distance / distance) to the given power, whatever reference attains the least distance.
   */
  lemma InverseDistanceIs(g: Geometry, power: real, references: seq<Reference>, target: Point, usable: seq<Usable>,
                          least: real, w: seq<real>)
    requires ValidGeometry(g) && usable == UsableOf(references) && |usable| >= 2
    requires forall u <- usable :: u.at != target && least <= g.distance(u.at, target)
    requires exists u <- usable :: g.distance(u.at, target) == least
    requires |w| == |usable|
    requires forall i :: 0 <= i < |usable| ==> w[i] == g.pow(least / g.distance(usable[i].at, target), power)
    ensures Sum(w) > 0.0
    ensures var p := Predicted(g, Idw, power, references, target);
            p.Some? && p.value * Sum(w) == WeightedSum(w, usable)
  {
    hide ValidGeometry, Sum, Weights, WeightedSum, CoLocated, UsableOf, Predicted, Mean, NearestDistance;
    NothingAtTarget(g, usable, target);
    NearestIsLeast(g, usable, target, least);
    WeightsAre(g, power, least, usable, target, w);
    WeightsArePositive(g, power, usable, target);
    IdwIsMean(g, power, references, target, w);
    QuotientTimes(WeightedSum(w, usable), Sum(w));
  }

  lemma NothingAtTarget(g: Geometry, usable: seq<Usable>, target: Point)
    requires ValidGeometry(g) && forall u <- usable :: u.at != target
    ensures CoLocated(g, usable, target).None? && forall u <- usable :: g.distance(u.at, target) != 0.0
  {
    NotCoLocated(g, usable, target);
  }

  lemma IdwIsMean(g: Geometry, power: real, references: seq<Reference>, target: Point, w: seq<real>)
    requires ValidGeometry(g) && |UsableOf(references)| >= 2 && CoLocated(g, UsableOf(references), target).None?
    requires w == Weights(g, power, NearestDistance(g, UsableOf(references), target), UsableOf(references), target)
    requires Sum(w) > 0.0
    ensures Predicted(g, Idw, power, references, target) == Some(WeightedSum(w, UsableOf(references)) / Sum(w))
  {
    hide ValidGeometry, Sum, Weights, WeightedSum, CoLocated, UsableOf, NearestDistance;
  }

  /** Larger ratios have larger powers, as they have for any exponent above zero. */
  ghost predicate Increasing(g: Geometry, power: real) {
    forall x, y :: 0.0 < x < y ==> g.pow(x, power) < g.pow(y, power)
  }

  lemma QuotientFalls(a: real, b: real)
    requires 0.0 < a < b
    ensures 0.0 < a / b < 1.0 && a / a == 1.0
  {
    PositiveQuotient(a, b);
    QuotientTimes(a, b);
    LessFactor(a / b, 1.0, b);
  }

  lemma MeanOfTwo(p: real, u: real, v: real, a: real, b: real)
    requires u > v > 0.0 && a != b && p * (u + v) == u * a + v * b
    ensures (if p < a then a - p else p - a) < (if p < b then b - p else p - b)
  {
    assert (p - a) * (u + v) == v * (b - a) by {
      Distribute(p - a, u, v);
      Distribute(v, b, -a);
    }
    assert (b - p) * (u + v) == u * (b - a) by {
      Distribute(b - p, u, v);
      Distribute(u, b, -a);
    }
    if a < b {
      ProductLess(v, u, b - a);
      LessFactor(p - a, b - p, u + v);
      ProductSign(p - a, u + v, v, b - a);
    } else {
      ProductLess(v, u, a - b);
      LessFactor(a - p, p - b, u + v);
      ProductSign(a - p, u + v, v, a - b);
    }
  }

  lemma LessFactor(x: real, y: real, c: real)
    requires c > 0.0 && x * c < y * c
    ensures x < y
  {
    if y < x {
      ProductLess(y, x, c);
    }
  }

  lemma ProductSign(x: real, c: real, v: real, d: real)
    requires c > 0.0 && v > 0.0 && d > 0.0 && x * c == v * d
    ensures x > 0.0
  {}

  /** Of two references with different values, the prediction lies closer to the value of the nearer one. */
  lemma NearerCountsMore(g: Geometry, power: real, near: Reference, far: Reference, target: Point)
    requires ValidGeometry(g) && Increasing(g, power)
    requires near.value.Some? && far.value.Some? && near.value != far.value
    requires 0.0 < g.distance(near.at, target) < g.distance(far.at, target)
    ensures var p := Predicted(g, Idw, power, [near, far], target);
            var a, b := near.value.value, far.value.value;
            p.Some? && (if p.value < a then a - p.value else p.value - a) < (if p.value < b then b - p.value else p.value - b)
  {
    var u, v := Usable(near.station, near.at, near.value.value), Usable(far.station, far.at, far.value.value);
    var usable := UsableOf([near, far]);
    assert usable == [u, v] || usable == [v, u] by {
      TwoUsable(near, far, u, v);
    }
    var least := g.distance(near.at, target);
    var ratio := least / g.distance(far.at, target);
    QuotientFalls(least, g.distance(far.at, target));
    var wu, wv := g.pow(1.0, power), g.pow(ratio, power);
    assert wv < wu;
    var w := if usable == [u, v] then [wu, wv] else [wv, wu];
    NearerMean(g, power, near, far, target, usable, least, w, u, v, wu, wv);
  }

  lemma TwoUsable(near: Reference, far: Reference, u: Usable, v: Usable)
    requires near.value.Some? && far.value.Some?
    requires u == Usable(near.station, near.at, near.value.value) && v == Usable(far.station, far.at, far.value.value)
    ensures UsableOf([near, far]) == [u, v] || UsableOf([near, far]) == [v, u]
  {
    assert [near, far][1..] == [far] && [far][1..] == [];
    assert WithValues([far]) == [v];
    assert WithValues([near, far]) == [u, v];
    var none: seq<Usable> := [];
    assert [u, v][1..] == [v] && [v][1..] == none;
    assert SortBy(UsableLe, none) == none;
    assert SortBy(UsableLe, [v]) == Insert(UsableLe, v, none) == [v] + none == [v];
    assert SortBy(UsableLe, [u, v]) == Insert(UsableLe, u, [v]);
    assert Insert(UsableLe, u, none) == [u];
  }

  lemma SumsOfTwo(w: seq<real>, usable: seq<Usable>)
    requires |w| == |usable| == 2
    ensures Sum(w) == w[0] + w[1]
    ensures WeightedSum(w, usable) == w[0] * usable[0].value + w[1] * usable[1].value
  {
    assert w[..1] == [w[0]] && usable[..1] == [usable[0]];
    assert w[..1][..0] == [] && usable[..1][..0] == [];
    assert Sum(w[..1]) == w[0];
    assert WeightedSum(w[..1], usable[..1]) == Times(w[0], usable[0].value);
  }

  lemma NearerMean(g: Geometry, power: real, near: Reference, far: Reference, target: Point, usable: seq<Usable>,
                   least: real, w: seq<real>, u: Usable, v: Usable, wu: real, wv: real)
    requires ValidGeometry(g) && usable == UsableOf([near, far]) && 0.0 < wv < wu && u.value != v.value
    requires (usable == [u, v] && w == [wu, wv]) || (usable == [v, u] && w == [wv, wu])
    requires 0.0 < least == g.distance(u.at, target) < g.distance(v.at, target)
    requires wu == g.pow(least / least, power) && wv == g.pow(least / g.distance(v.at, target), power)
    ensures var p := Predicted(g, Idw, power, [near, far], target);
            p.Some? && (if p.value < u.value then u.value - p.value else p.value - u.value)
                       < (if p.value < v.value then v.value - p.value else p.value - v.value)
  {
    hide Sum, WeightedSum, UsableOf, Predicted;
    assert u in usable && v in usable;
    InverseDistanceIs(g, power, [near, far], target, usable, least, w);
    SumsOfTwo(w, usable);
    MeanOfTwo(Predicted(g, Idw, power, [near, far], target).value, wu, wv, u.value, v.value);
  }

  // ----- predictions stay between the references

  predicate Bounded(usable: seq<Usable>, low: real, high: real) {
    forall u <- usable :: low <= u.value <= high
  }

  lemma ScaledBetween(w: real, low: real, v: real, high: real)
    requires w >= 0.0 && low <= v <= high
    ensures low * w <= w * v <= high * w
  {}

  lemma BetweenGrows(low: real, high: real, sum: real, total: real, w: real, v: real)
    requires Times(low, total) <= sum <= Times(high, total) && w > 0.0 && low <= v <= high
    ensures Times(low, total + w) <= sum + Times(w, v) <= Times(high, total + w)
  {
    ScaledBetween(w, low, v, high);
    Distribute(low, total, w);
    Distribute(high, total, w);
  }

  lemma {:induction false} WeightedSumBetween(weights: seq<real>, usable: seq<Usable>, low: real, high: real)
    requires |weights| == |usable| && Bounded(usable, low, high)
    requires forall i :: 0 <= i < |weights| ==> weights[i] > 0.0
    ensures Times(low, Sum(weights)) <= WeightedSum(weights, usable) <= Times(high, Sum(weights))
  {
    hide Times;
    NothingWeighs(low);
    NothingWeighs(high);
    if usable != [] {
      var last := |usable| - 1;
      WeightedSumBetween(weights[..last], usable[..last], low, high);
      assert usable[last] in usable;
      BetweenGrows(low, high, WeightedSum(weights[..last], usable[..last]), Sum(weights[..last]), weights[last],
                   usable[last].value);
    }
  }

  lemma Distribute(a: real, b: real, c: real)
    ensures a * (b + c) == a * b + a * c
  {}

  lemma QuotientBetween(total: real, sum: real, low: real, high: real)
    requires total > 0.0 && Times(low, total) <= sum <= Times(high, total)
    ensures low <= sum / total <= high
  {
    assert sum == (sum / total) * total;
    FactorAtMost(low, sum / total, total);
    FactorAtMost(sum / total, high, total);
  }

  lemma FactorAtMost(a: real, b: real, c: real)
    requires c > 0.0 && a * c <= b * c
    ensures a <= b
  {
    if b < a {
      ProductLess(b, a, c);
    }
  }

  lemma ProductLess(a: real, b: real, c: real)
    requires a < b && c > 0.0
    ensures a * c < b * c
  {}

  lemma WeightedMeanBetween(weights: seq<real>, usable: seq<Usable>, low: real, high: real)
    requires |weights| == |usable| && Bounded(usable, low, high) && Sum(weights) > 0.0
    requires forall i :: 0 <= i < |weights| ==> weights[i] > 0.0
    ensures low <= WeightedSum(weights, usable) / Sum(weights) <= high
  {
    hide Sum, WeightedSum, Times;
    WeightedSumBetween(weights, usable, low, high);
    QuotientBetween(Sum(weights), WeightedSum(weights, usable), low, high);
  }

  lemma {:induction false} CoLocatedIsOne(g: Geometry, usable: seq<Usable>, target: Point)
    requires CoLocated(g, usable, target).Some?
    ensures exists u <- usable :: g.distance(u.at, target) == 0.0 && CoLocated(g, usable, target) == Some(u.value)
  {
    if g.distance(usable[0].at, target) == 0.0 {
      assert usable[0] in usable;
    } else {
      CoLocatedIsOne(g, usable[1..], target);
    }
  }

  lemma UsableAre(references: seq<Reference>, u: Usable)
    ensures u in UsableOf(references) <==> Reference(u.station, u.at, Some(u.value)) in references
  {
    UsableIsPreorder();
    SortBySorts(UsableLe, WithValues(references));
    SameMembers(UsableOf(references), WithValues(references));
    WithValuesCount(references, u);
    var r := Reference(u.station, u.at, Some(u.value));
    assert u in WithValues(references) <==> u in multiset(WithValues(references));
    assert r in references <==> r in multiset(references);
  }

  lemma CountCons<T>(x: T, s: seq<T>, y: T)
    ensures multiset([x] + s)[y] == (if x == y then 1 else 0) + multiset(s)[y]
  {}

  lemma WithValuesCons(r: Reference, references: seq<Reference>)
    ensures WithValues([r] + references)
            == if r.value.None? then WithValues(references)
               else [Usable(r.station, r.at, r.value.value)] + WithValues(references)
  {
    assert ([r] + references)[1..] == references;
  }

  lemma {:induction false} WithValuesCount(references: seq<Reference>, u: Usable)
    ensures multiset(WithValues(references))[u] == multiset(references)[Reference(u.station, u.at, Some(u.value))]
  {
    if references != [] {
      hide WithValues;
      var r, rest := references[0], references[1..];
      WithValuesCount(rest, u);
      assert references == [r] + rest;
      WithValuesCons(r, rest);
      CountCons(r, rest, Reference(u.station, u.at, Some(u.value)));
      if r.value.Some? {
        CountCons(Usable(r.station, r.at, r.value.value), WithValues(rest), u);
      }
    }
  }

  lemma UsableIsPreorder()
    ensures TotalPreorder(UsableLe) && Antisymmetric(UsableLe)
  {
    LexIsPreorder();
    forall a, b | LexLe(a, b) && LexLe(b, a) ensures a == b {
      LexAntisymmetric(a, b);
    }
  }

  /** Nearest and inverse-distance predictions lie within any bounds on the reference values. */
  lemma PredictionsStayInRange(g: Geometry, model: Model, power: real, references: seq<Reference>, target: Point,
                               low: real, high: real)
    requires ValidGeometry(g) && (model.Nearest? || model.Idw?)
    requires forall r <- references :: r.value.Some? ==> low <= r.value.value <= high
    ensures var p := Predicted(g, model, power, references, target);
            (p.Some? <==> |WithValues(references)| >= Minimum(model)) && (p.Some? ==> low <= p.value <= high)
  {
    hide Mean, ValidGeometry;
    var usable := UsableOf(references);
    forall u <- usable ensures low <= u.value <= high {
      UsableAre(references, u);
    }
    if |usable| >= Minimum(model) {
      if model.Idw? {
        InverseDistanceInRange(g, power, usable, target, low, high);
      } else {
        assert usable[NearestIndex(g, usable, target)] in usable;
      }
    }
  }

  lemma InverseDistanceInRange(g: Geometry, power: real, usable: seq<Usable>, target: Point, low: real, high: real)
    requires ValidGeometry(g) && usable != [] && Bounded(usable, low, high)
    ensures CoLocated(g, usable, target).Some? ==> low <= CoLocated(g, usable, target).value <= high
    ensures CoLocated(g, usable, target).None? ==> low <= Mean(g, power, usable, target) <= high
  {
    hide ValidGeometry, Sum, Weights, WeightedSum;
    if CoLocated(g, usable, target).Some? {
      CoLocatedIsOne(g, usable, target);
    } else {
      var weights := Weights(g, power, NearestDistance(g, usable, target), usable, target);
      WeightsArePositive(g, power, usable, target);
      forall i | 0 <= i < |weights| ensures weights[i] > 0.0 {
        assert weights[i] in weights;
      }
      WeightedMeanBetween(weights, usable, low, high);
    }
  }

  // ----- a reference that stands at the target

  lemma NearestSnoc(g: Geometry, front: seq<Usable>, u: Usable, target: Point)
    ensures NearestIndex(g, front + [u], target)
            == if front != [] && NearestDistance(g, front, target) <= g.distance(u.at, target)
               then NearestIndex(g, front, target) else |front|
  {
    assert (front + [u])[..|front|] == front;
  }

  lemma {:induction false} NearestIsNearest(g: Geometry, usable: seq<Usable>, target: Point)
    requires usable != []
    ensures forall i :: 0 <= i < |usable| ==> NearestDistance(g, usable, target) <= g.distance(usable[i].at, target)
    ensures forall i :: 0 <= i < NearestIndex(g, usable, target) ==>
              NearestDistance(g, usable, target) < g.distance(usable[i].at, target)
  {
    hide NearestIndex;
    var last := |usable| - 1;
    assert usable == usable[..last] + [usable[last]];
    NearestSnoc(g, usable[..last], usable[last], target);
    if last > 0 {
      NearestIsNearest(g, usable[..last], target);
    }
  }

  /** The nearest model predicts the value of a reference than which none is nearer; of several, the first by station. */
  lemma NearestPredicts(g: Geometry, power: real, references: seq<Reference>, target: Point)
    requires ValidGeometry(g) && Predicted(g, Nearest, power, references, target).Some?
    ensures exists r <- references ::
              && r.value == Predicted(g, Nearest, power, references, target)
              && forall other <- references | other.value.Some? ::
                   && g.distance(r.at, target) <= g.distance(other.at, target)
                   && (g.distance(r.at, target) == g.distance(other.at, target) ==> LexLe(r.station, other.station))
  {
    hide ValidGeometry, UsableOf, NearestIndex, LexLe;
    var usable := UsableOf(references);
    NearestIsNearest(g, usable, target);
    var k := NearestIndex(g, usable, target);
    var u := usable[k];
    assert u in usable;
    UsableAre(references, u);
    var r := Reference(u.station, u.at, Some(u.value));
    forall other <- references | other.value.Some?
      ensures g.distance(r.at, target) <= g.distance(other.at, target)
      ensures g.distance(r.at, target) == g.distance(other.at, target) ==> LexLe(r.station, other.station)
    {
      var v := Usable(other.station, other.at, other.value.value);
      UsableAre(references, v);
      var j :| 0 <= j < |usable| && usable[j] == v;
      if k < j {
        UsableInOrder(references, k, j);
      }
      LexReflexive(r.station);
    }
    assert r in references;
  }

  lemma LexReflexive(s: string)
    ensures LexLe(s, s)
  {
    LexTotal(s, s);
  }

  lemma {:induction false} CoLocatedIsFirst(g: Geometry, usable: seq<Usable>, target: Point, k: nat)
    requires k < |usable| && g.distance(usable[k].at, target) == 0.0
    requires forall i :: 0 <= i < k ==> g.distance(usable[i].at, target) != 0.0
    ensures CoLocated(g, usable, target) == Some(usable[k].value)
  {
    if k > 0 {
      CoLocatedIsFirst(g, usable[1..], target, k - 1);
    }
  }

  /**
   * When references stand at the target, nearest and inverse-distance both return the value of one of
   * them; if station positions are distinct there is only one.
   */
  lemma CoLocatedValueIsReturned(g: Geometry, model: Model, power: real, references: seq<Reference>, target: Point)
    requires ValidGeometry(g) && (model.Nearest? || model.Idw?)
    requires |WithValues(references)| >= Minimum(model)
    requires exists r <- references :: r.at == target && r.value.Some?
    ensures exists r <- references :: r.at == target && r.value == Predicted(g, model, power, references, target)
    ensures Predicted(g, model, power, references, target) == Predicted(g, Nearest, power, references, target)
  {
    hide Mean, WithValues, SortBy, NearestIndex, CoLocated;
    var usable := UsableOf(references);
    var r :| r in references && r.at == target && r.value.Some?;
    UsableAre(references, Usable(r.station, r.at, r.value.value));
    NearestIsNearest(g, usable, target);
    var k := NearestIndex(g, usable, target);
    CoLocatedIsFirst(g, usable, target, k);
    assert usable[k] in usable;
    UsableAre(references, usable[k]);
  }

  // ----- shifting every value, and reordering the references

  function Raise(c: real): Usable -> Usable { (u: Usable) => u.(value := u.value + c) }

  function RaiseReference(c: real): Reference -> Reference {
    (r: Reference) => if r.value.None? then r else r.(value := Some(r.value.value + c))
  }

  lemma {:induction false} WithValuesRaised(references: seq<Reference>, c: real)
    ensures WithValues(Map(RaiseReference(c), references)) == Map(Raise(c), WithValues(references))
  {
    if references != [] {
      WithValuesRaised(references[1..], c);
      var r := references[0];
      if r.value.Some? {
        MapCons(Raise(c), Usable(r.station, r.at, r.value.value), WithValues(references[1..]));
      }
    }
  }

  lemma UsableRaised(references: seq<Reference>, c: real)
    ensures UsableOf(Map(RaiseReference(c), references)) == Map(Raise(c), UsableOf(references))
  {
    WithValuesRaised(references, c);
    SortByMap(UsableLe, Raise(c), WithValues(references));
  }

  predicate SamePlaces(s: seq<Usable>, t: seq<Usable>) {
    |s| == |t| && forall i :: 0 <= i < |s| ==> s[i].at == t[i].at
  }

  lemma {:induction false} NearestByPlace(g: Geometry, s: seq<Usable>, t: seq<Usable>, target: Point)
    requires s != [] && SamePlaces(s, t)
    ensures NearestIndex(g, s, target) == NearestIndex(g, t, target)
  {
    if |s| > 1 {
      NearestByPlace(g, s[..|s| - 1], t[..|t| - 1], target);
    }
  }

  lemma {:induction false} WeightsByPlace(g: Geometry, power: real, nearest: real, s: seq<Usable>, t: seq<Usable>, target: Point)
    requires SamePlaces(s, t)
    ensures Weights(g, power, nearest, s, target) == Weights(g, power, nearest, t, target)
  {
    if s != [] {
      WeightsByPlace(g, power, nearest, s[..|s| - 1], t[..|t| - 1], target);
    }
  }

  lemma RaisedInPlace(usable: seq<Usable>, c: real)
    ensures SamePlaces(Map(Raise(c), usable), usable)
  {}

  lemma {:induction false} CoLocatedRaised(g: Geometry, usable: seq<Usable>, target: Point, c: real)
    ensures var same := CoLocated(g, usable, target);
            CoLocated(g, Map(Raise(c), usable), target) == if same.None? then None else Some(same.value + c)
  {
    if usable != [] {
      CoLocatedRaised(g, usable[1..], target, c);
    }
  }

  lemma RaisedGrows(total: real, w: real, v: real, c: real)
    ensures Times(c, total) + Times(w, v + c) == Times(w, v) + Times(c, total + w)
  {
    Distribute(w, v, c);
    Distribute(c, total, w);
  }

  lemma NothingWeighs(c: real)
    ensures Times(c, 0.0) == 0.0
  {}

  lemma WeightedSumSnoc(weights: seq<real>, w: real, usable: seq<Usable>, u: Usable)
    requires |weights| == |usable|
    ensures WeightedSum(weights + [w], usable + [u]) == WeightedSum(weights, usable) + Times(w, u.value)
    ensures Sum(weights + [w]) == Sum(weights) + w
  {
    hide Times;
    assert (weights + [w])[..|weights|] == weights && (usable + [u])[..|usable|] == usable;
  }

  lemma WeightedSumRaisedSnoc(weights: seq<real>, w: real, usable: seq<Usable>, u: Usable,
                              raised: seq<Usable>, v: Usable, c: real)
    requires |weights| == |usable| == |raised| && v.value == u.value + c
    requires WeightedSum(weights, raised) == WeightedSum(weights, usable) + Times(c, Sum(weights))
    ensures WeightedSum(weights + [w], raised + [v])
            == WeightedSum(weights + [w], usable + [u]) + Times(c, Sum(weights + [w]))
  {
    hide WeightedSum, Sum, Times;
    WeightedSumSnoc(weights, w, usable, u);
    WeightedSumSnoc(weights, w, raised, v);
    RaisedGrows(Sum(weights), w, u.value, c);
  }

  lemma RaisedSnoc(usable: seq<Usable>, u: Usable, c: real)
    ensures Map(Raise(c), usable + [u]) == Map(Raise(c), usable) + [Raise(c)(u)]
  {}

  lemma {:induction false} WeightedSumRaised(weights: seq<real>, usable: seq<Usable>, c: real)
    requires |weights| == |usable|
    ensures WeightedSum(weights, Map(Raise(c), usable)) == WeightedSum(weights, usable) + Times(c, Sum(weights))
  {
    hide Times, Map;
    if usable == [] {
      NothingWeighs(c);
    } else {
      var last := |usable| - 1;
      var front, u := usable[..last], usable[last];
      WeightedSumRaised(weights[..last], front, c);
      WeightedSumRaisedSnoc(weights[..last], weights[last], front, u, Map(Raise(c), front), Raise(c)(u), c);
      RaisedSnoc(front, u, c);
      assert weights == weights[..last] + [weights[last]] && usable == front + [u];
    }
  }

  lemma QuotientRaised(sum: real, total: real, c: real)
    requires total > 0.0
    ensures (sum + Times(c, total)) / total == sum / total + c
  {}

  lemma MeanRaised(g: Geometry, power: real, usable: seq<Usable>, target: Point, c: real)
    requires ValidGeometry(g) && usable != [] && CoLocated(g, usable, target).None?
    requires CoLocated(g, Map(Raise(c), usable), target).None?
    ensures Mean(g, power, Map(Raise(c), usable), target) == Mean(g, power, usable, target) + c
  {
    hide ValidGeometry, Sum, Weights, WeightedSum, Times, Map, CoLocated, NearestIndex;
    var nearest := NearestDistance(g, usable, target);
    var weights := Weights(g, power, nearest, usable, target);
    RaisedInPlace(usable, c);
    NearestByPlace(g, Map(Raise(c), usable), usable, target);
    WeightsByPlace(g, power, nearest, Map(Raise(c), usable), usable, target);
    WeightsArePositive(g, power, usable, target);
    WeightedSumRaised(weights, usable, c);
    QuotientRaised(WeightedSum(weights, usable), Sum(weights), c);
  }

  lemma NearestOfRaised(g: Geometry, usable: seq<Usable>, target: Point, c: real)
    ensures usable != [] ==> NearestIndex(g, Map(Raise(c), usable), target) == NearestIndex(g, usable, target)
  {
    RaisedInPlace(usable, c);
    if usable != [] {
      NearestByPlace(g, Map(Raise(c), usable), usable, target);
    }
  }

  lemma RaisedAt(usable: seq<Usable>, c: real, k: nat)
    requires k < |usable|
    ensures Map(Raise(c), usable)[k].value == usable[k].value + c
  {}

  lemma NearestValueRaised(g: Geometry, usable: seq<Usable>, target: Point, c: real)
    requires usable != []
    ensures Map(Raise(c), usable)[NearestIndex(g, Map(Raise(c), usable), target)].value
            == usable[NearestIndex(g, usable, target)].value + c
  {
    hide Map, Raise, NearestIndex;
    NearestOfRaised(g, usable, target, c);
    RaisedAt(usable, c, NearestIndex(g, usable, target));
  }

  lemma EstimateRaised(g: Geometry, model: Model, power: real, usable: seq<Usable>, target: Point, c: real)
    requires ValidGeometry(g) && (model.Nearest? || model.Idw?)
    ensures var p := Estimate(g, model, power, usable, target);
            Estimate(g, model, power, Map(Raise(c), usable), target) == if p.None? then None else Some(p.value + c)
  {
    hide Mean, ValidGeometry, NearestIndex, CoLocated, Map, Raise;
    if |usable| >= Minimum(model) {
      if model.Nearest? {
        NearestValueRaised(g, usable, target, c);
      } else {
        CoLocatedRaised(g, usable, target, c);
        if CoLocated(g, usable, target).None? {
          MeanRaised(g, power, usable, target, c);
        }
      }
    }
  }

  /** Raising every value by the same amount raises nearest and inverse-distance predictions by it. */
  lemma RaisingRaises(g: Geometry, model: Model, power: real, references: seq<Reference>, target: Point, c: real)
    requires ValidGeometry(g) && (model.Nearest? || model.Idw?)
    ensures var p := Predicted(g, model, power, references, target);
            Predicted(g, model, power, Map(RaiseReference(c), references), target)
            == if p.None? then None else Some(p.value + c)
  {
    hide UsableOf, Estimate, ValidGeometry;
    UsableRaised(references, c);
    EstimateRaised(g, model, power, UsableOf(references), target, c);
  }

  /** No model depends on the order in which the references are given. */
  lemma OrderDoesNotMatter(g: Geometry, model: Model, power: real, s: seq<Reference>, t: seq<Reference>, target: Point)
    requires ValidGeometry(g) && multiset(s) == multiset(t)
    ensures Predicted(g, model, power, s, target) == Predicted(g, model, power, t, target)
  {
    forall u ensures multiset(WithValues(s))[u] == multiset(WithValues(t))[u] {
      WithValuesCount(s, u);
      WithValuesCount(t, u);
    }
    UsableIsPreorder();
    SortByForgets(UsableLe, WithValues(s), WithValues(t));
  }

  // ----- barycentric weights in the local plane

  datatype Planar2 = Planar2(east: real, north: real)

  datatype Barycentric = Barycentric(w1: real, w2: real, w3: real, inside: bool)

  const ULP: real := 1.0 / 4503599627370496.0
  const TOLERANCE: real := 0.000000001

  function Cross(ux: real, uy: real, vx: real, vy: real): real { vy * ux - vx * uy }

  /** Twice the signed area of the triangle. */
  function Denominator(a: Planar2, b: Planar2, c: Planar2): real {
    Cross(a.east - c.east, a.north - c.north, b.east - c.east, b.north - c.north)
  }

  function Squared(a: Planar2, b: Planar2): real {
    (a.east - b.east) * (a.east - b.east) + (a.north - b.north) * (a.north - b.north)
  }

  function Larger(a: real, b: real): real { if a >= b then a else b }

  /** Too flat for its size: the bound is on the square of the longest side. */
  predicate Degenerate(a: Planar2, b: Planar2, c: Planar2) {
    var d := Denominator(a, b, c);
    (if d < 0.0 then -d else d) <= 32.0 * ULP * Larger(Squared(a, b), Larger(Squared(b, c), Squared(c, a)))
  }

  lemma SquareNotNegative(x: real)
    ensures x * x >= 0.0
  {}

  lemma DegenerateAtZero(a: Planar2, b: Planar2, c: Planar2)
    ensures !Degenerate(a, b, c) ==> Denominator(a, b, c) != 0.0
  {
    hide Denominator;
    SquareNotNegative(a.east - b.east);
    SquareNotNegative(a.north - b.north);
  }

  function BarycentricCoordinates(a: Planar2, b: Planar2, c: Planar2, p: Planar2): Barycentric {
    if Degenerate(a, b, c) then Barycentric(0.0, 0.0, 0.0, false)
    else
      DegenerateAtZero(a, b, c);
      var qx, qy := p.east - c.east, p.north - c.north;
      var d := Denominator(a, b, c);
      var w1 := Cross(qx, qy, b.east - c.east, b.north - c.north) / d;
      var w2 := Cross(a.east - c.east, a.north - c.north, qx, qy) / d;
      var w3 := 1.0 - w1 - w2;
      Barycentric(w1, w2, w3, w1 >= -TOLERANCE && w2 >= -TOLERANCE && w3 >= -TOLERANCE)
  }

  /** p is the weighted mean of the corners. */
  predicate Combines(w1: real, w2: real, w3: real, a: Planar2, b: Planar2, c: Planar2, p: Planar2) {
    && w1 + w2 + w3 == 1.0
    && w1 * a.east + w2 * b.east + w3 * c.east == p.east
    && w1 * a.north + w2 * b.north + w3 * c.north == p.north
  }

  lemma CombinesRelative(w1: real, w2: real, w3: real, x: real, y: real, z: real, p: real)
    requires w1 + w2 + w3 == 1.0
    ensures w1 * x + w2 * y + w3 * z == p <==> w1 * (x - z) + w2 * (y - z) == p - z
  {
    assert w3 == 1.0 - w1 - w2;
    Distribute(w1, x, -z);
    Distribute(w2, y, -z);
  }

  lemma CramerEast(ux: real, uy: real, vx: real, vy: real, qx: real, qy: real)
    ensures Cross(qx, qy, vx, vy) * ux + Cross(ux, uy, qx, qy) * vx == Cross(ux, uy, vx, vy) * qx
  {}

  lemma CramerNorth(ux: real, uy: real, vx: real, vy: real, qx: real, qy: real)
    ensures Cross(qx, qy, vx, vy) * uy + Cross(ux, uy, qx, qy) * vy == Cross(ux, uy, vx, vy) * qy
  {}

  lemma SameFactor(a: real, b: real, d: real)
    requires d != 0.0 && a * d == b * d
    ensures a == b
  {
    var low, high := (if a <= b then a else b), if a <= b then b else a;
    if low < high {
      if d > 0.0 {
        ProductLess(low, high, d);
      } else {
        ProductLess(low, high, -d);
      }
    }
  }

  lemma Cancel(w: real, d: real)
    requires d != 0.0
    ensures (w * d) / d == w
  {
    var q := (w * d) / d;
    assert q * d == w * d;
    SameFactor(q, w, d);
  }

  lemma Divided(n1: real, n2: real, d: real, u: real, v: real, q: real)
    requires d != 0.0 && n1 * u + n2 * v == d * q
    ensures (n1 / d) * u + (n2 / d) * v == q
  {
    var w1, w2 := n1 / d, n2 / d;
    assert w1 * d == n1 && w2 * d == n2;
    SameFactor(w1 * u + w2 * v, q, d);
  }

  /** Outside the degenerate case the weights sum to 1 and reproduce the point. */
  lemma WeightsReproducePoint(a: Planar2, b: Planar2, c: Planar2, p: Planar2)
    requires !Degenerate(a, b, c)
    ensures var w := BarycentricCoordinates(a, b, c, p);
            Combines(w.w1, w.w2, w.w3, a, b, c, p)
  {
    hide Cross, Degenerate;
    DegenerateAtZero(a, b, c);
    var w := BarycentricCoordinates(a, b, c, p);
    var ux, uy, vx, vy := a.east - c.east, a.north - c.north, b.east - c.east, b.north - c.north;
    var qx, qy := p.east - c.east, p.north - c.north;
    CramerEast(ux, uy, vx, vy, qx, qy);
    CramerNorth(ux, uy, vx, vy, qx, qy);
    var n1, n2, d := Cross(qx, qy, vx, vy), Cross(ux, uy, qx, qy), Denominator(a, b, c);
    Divided(n1, n2, d, ux, vx, qx);
    Divided(n1, n2, d, uy, vy, qy);
    CombinesRelative(w.w1, w.w2, w.w3, a.east, b.east, c.east, p.east);
    CombinesRelative(w.w1, w.w2, w.w3, a.north, b.north, c.north, p.north);
  }

  lemma CrossOfCombination(ux: real, uy: real, vx: real, vy: real, w1: real, w2: real)
    ensures Cross(w1 * ux + w2 * vx, w1 * uy + w2 * vy, vx, vy) == w1 * Cross(ux, uy, vx, vy)
    ensures Cross(ux, uy, w1 * ux + w2 * vx, w1 * uy + w2 * vy) == w2 * Cross(ux, uy, vx, vy)
  {}

  /**
   * They are the only weights that do, so a point counts as inside exactly when it is a weighted
   * mean of the corners with no weight below minus the tolerance.
   */
  lemma WeightsAreUnique(a: Planar2, b: Planar2, c: Planar2, p: Planar2, w1: real, w2: real, w3: real)
    requires !Degenerate(a, b, c) && Combines(w1, w2, w3, a, b, c, p)
    ensures BarycentricCoordinates(a, b, c, p)
            == Barycentric(w1, w2, w3, w1 >= -TOLERANCE && w2 >= -TOLERANCE && w3 >= -TOLERANCE)
  {
    hide Cross, Degenerate;
    DegenerateAtZero(a, b, c);
    var ux, uy, vx, vy := a.east - c.east, a.north - c.north, b.east - c.east, b.north - c.north;
    CombinesRelative(w1, w2, w3, a.east, b.east, c.east, p.east);
    CombinesRelative(w1, w2, w3, a.north, b.north, c.north, p.north);
    CrossOfCombination(ux, uy, vx, vy, w1, w2);
    var qx, qy := p.east - c.east, p.north - c.north;
    assert qx == w1 * ux + w2 * vx && qy == w1 * uy + w2 * vy;
    var d := Denominator(a, b, c);
    assert Cross(qx, qy, vx, vy) == w1 * d && Cross(ux, uy, qx, qy) == w2 * d;
    Cancel(w1, d);
    Cancel(w2, d);
    assert w3 == 1.0 - w1 - w2;
  }
}
