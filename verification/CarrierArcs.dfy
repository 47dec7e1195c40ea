/**
 * Geometry-free carrier phase of one satellite at one station: cut into continuous arcs, each arc
 * freed of its unknown constant by subtracting its median. Values are reals, rounding aside.
 */
module CarrierArcs {
  import opened Ordering
  import opened Wire

  const LAMBDA1: real := 299792458.0 / 1575420000.0
  const LAMBDA2: real := 299792458.0 / 1227600000.0
  const GAMMA: real := (1575420000.0 / 1227600000.0) * (1575420000.0 / 1227600000.0)

  /** Missing loss-of-lock flags count as 0. */
  datatype Obs = Obs(l1: Option<real>, l2: Option<real>, lli1: nat, lli2: nat, epochFlag: nat)

  /** One epoch of the station file; the time is missing when the epoch text cannot be read. */
  datatype Sample = Sample(epoch: string, time: Option<real>, obs: Option<Obs>)

  datatype Point = Point(epoch: string, gf: real, arc: nat)

  predicate HalfCycle(lli: nat) { (lli / 2) % 2 == 1 }

  predicate Usable(s: Sample) {
    && s.obs.Some? && s.obs.value.l1.Some? && s.obs.value.l2.Some?
    && !HalfCycle(s.obs.value.lli1) && !HalfCycle(s.obs.value.lli2)
  }

  function Phase(s: Sample): real
    requires Usable(s)
  {
    s.obs.value.l1.value * LAMBDA1 - s.obs.value.l2.value * LAMBDA2
  }

  /** The sample just before, when it was usable. */
  datatype Previous = Previous(gf: real, time: Option<real>, lli1: nat, lli2: nat)

  function Remember(s: Sample): Previous
    requires Usable(s)
  {
    Previous(Phase(s), s.time, s.obs.value.lli1, s.obs.value.lli2)
  }

  /** A break that the phase value has no part in: a time gap, a flag change, a loss of lock, an event. */
  predicate Forced(p: Previous, s: Sample, step: real)
    requires Usable(s)
  {
    var o := s.obs.value;
    || (s.time.Some? && p.time.Some? && s.time.value - p.time.value > 1.5 * step + 0.000001)
    || o.lli1 != p.lli1 || o.lli2 != p.lli2 || o.lli1 % 2 == 1 || o.lli2 % 2 == 1
    || o.epochFlag != 0
  }

  function Abs(x: real): real { if x < 0.0 then -x else x }

  predicate NewArc(previous: Option<Previous>, started: bool, s: Sample, step: real, threshold: real)
    requires Usable(s)
  {
    match previous
    case None => started
    case Some(p) => Forced(p, s, step) || Abs(Phase(s) - p.gf) > threshold
  }

  function Series(samples: seq<Sample>, step: real, threshold: real,
                  arc: nat, started: bool, previous: Option<Previous>): seq<Point>
    decreases |samples|
  {
    if samples == [] then []
    else
      var s := samples[0];
      if !Usable(s) then Series(samples[1..], step, threshold, arc, started, None)
      else
        var next := if NewArc(previous, started, s, step, threshold) then arc + 1 else arc;
        [Point(s.epoch, Phase(s), next)] + Series(samples[1..], step, threshold, next, true, Some(Remember(s)))
  }

  /** The step asked for, else the header's; a missing or zero step is taken to be 30 seconds. */
  function NominalStep(stepSeconds: Option<real>, headerInterval: Option<real>): real {
    var base := if stepSeconds.Some? then stepSeconds else headerInterval;
    if base.None? || base.value == 0.0 then 30.0 else base.value
  }

  /** Only GPS satellites have known wavelengths; any other has an empty series. */
  function GfSeries(satellite: string, samples: seq<Sample>, step: real, threshold: real): seq<Point> {
    if satellite == [] || satellite[0] != 'G' then [] else Series(samples, step, threshold, 0, false, None)
  }

  /** The points so far and those still to come. */
  ghost function Together(series: seq<Point>, samples: seq<Sample>, step: real, threshold: real,
                          arc: nat, previous: Option<Previous>): seq<Point>
  {
    series + Series(samples, step, threshold, arc, series != [], previous)
  }

  lemma SeriesUnfold(series: seq<Point>, samples: seq<Sample>, step: real, threshold: real,
                     arc: nat, previous: Option<Previous>)
    requires samples != []
    ensures var s := samples[0];
            Together(series, samples, step, threshold, arc, previous)
            == if !Usable(s) then Together(series, samples[1..], step, threshold, arc, None)
               else
                 var next := if NewArc(previous, series != [], s, step, threshold) then arc + 1 else arc;
                 Together(series + [Point(s.epoch, Phase(s), next)], samples[1..], step, threshold, next, Some(Remember(s)))
  {
    hide NewArc, Phase, Remember, Usable;
  }

  lemma NoSeries(series: seq<Point>, step: real, threshold: real, arc: nat, previous: Option<Previous>)
    ensures Together(series, [], step, threshold, arc, previous) == series
  {}

  lemma FromNothing(samples: seq<Sample>, step: real, threshold: real)
    ensures Together([], samples, step, threshold, 0, None) == Series(samples, step, threshold, 0, false, None)
  {
    hide Series;
  }

  method ComputeGfSeries(satellite: string, samples: seq<Sample>, stepSeconds: Option<real>,
                         headerInterval: Option<real>, threshold: real) returns (series: seq<Point>)
    ensures series == GfSeries(satellite, samples, NominalStep(stepSeconds, headerInterval), threshold)
  {
    hide Series, Together, Forced, Phase, Usable;
    series := [];
    var step := NominalStep(stepSeconds, headerInterval);
    if satellite == [] || satellite[0] != 'G' {
      return;
    }
    var arc := 0;
    var previous: Option<Previous> := None;
    FromNothing(samples, step, threshold);
    for i := 0 to |samples|
      invariant Together(series, samples[i..], step, threshold, arc, previous)
                == Series(samples, step, threshold, 0, false, None)
    {
      var s := samples[i];
      assert samples[i..][0] == s && samples[i..][1..] == samples[i + 1..];
      SeriesUnfold(series, samples[i..], step, threshold, arc, previous);
      if !Usable(s) {
        previous := None;
      } else {
        var gf := Phase(s);
        if previous.None? {
          if series != [] {
            arc := arc + 1;
          }
        } else if Forced(previous.value, s, step) || Abs(gf - previous.value.gf) > threshold {
          arc := arc + 1;
        }
        series := series + [Point(s.epoch, gf, arc)];
        previous := Some(Remember(s));
      }
    }
    NoSeries(series, step, threshold, arc, previous);
  }

  // ----- the points and arcs of a series, from the samples alone

  /** Both phases are there and neither flag has the half-cycle bit. */
  lemma UsableIff(s: Sample)
    ensures Usable(s) <==> && s.obs.Some? && s.obs.value.l1.Some? && s.obs.value.l2.Some?
                           && s.obs.value.lli1 % 4 < 2 && s.obs.value.lli2 % 4 < 2
  {}

  /** Cycles of L1 and L2 in metres, 154 cycles of one being as long as 120 of the other. */
  lemma PhaseIs(s: Sample)
    requires Usable(s)
    ensures Phase(s) * 60.0 * 1575420000.0 == 299792458.0 * (60.0 * s.obs.value.l1.value - 77.0 * s.obs.value.l2.value)
  {}

  function UsableBefore(samples: seq<Sample>, i: nat): nat
    requires i <= |samples|
  {
    if i == 0 then 0 else (if Usable(samples[0]) then 1 else 0) + UsableBefore(samples[1..], i - 1)
  }

  /** What starts a new arc at sample i, when one has begun before. */
  predicate StartsArc(samples: seq<Sample>, i: nat, step: real, threshold: real)
    requires 0 < i < |samples| && Usable(samples[i])
  {
    var p, s := samples[i - 1], samples[i];
    || !Usable(p)
    || (p.time.Some? && s.time.Some? && s.time.value - p.time.value > 1.5 * step + 0.000001)
    || s.obs.value.lli1 != p.obs.value.lli1 || s.obs.value.lli2 != p.obs.value.lli2
    || s.obs.value.lli1 % 2 == 1 || s.obs.value.lli2 % 2 == 1 || s.obs.value.epochFlag != 0
    || Phase(s) - Phase(p) > threshold || Phase(p) - Phase(s) > threshold
  }

  function Remembered(samples: seq<Sample>, i: nat, previous: Option<Previous>): Option<Previous>
    requires i <= |samples|
  {
    if i == 0 then previous else if Usable(samples[i - 1]) then Some(Remember(samples[i - 1])) else None
  }

  lemma NewArcIsStart(samples: seq<Sample>, i: nat, step: real, threshold: real)
    requires 0 < i < |samples| && Usable(samples[i])
    ensures NewArc(Remembered(samples, i, None), true, samples[i], step, threshold) <==> StartsArc(samples, i, step, threshold)
  {
    hide Phase, Usable;
  }

  lemma {:induction false} NothingUsable(samples: seq<Sample>, i: nat)
    requires 0 < i <= |samples| && UsableBefore(samples, i) == 0
    ensures !Usable(samples[i - 1])
  {
    hide Usable;
    if i > 1 {
      NothingUsable(samples[1..], i - 1);
    }
  }

  lemma {:induction false} SeriesAt(samples: seq<Sample>, step: real, threshold: real, arc: nat, started: bool,
                                    previous: Option<Previous>, i: nat)
    requires i < |samples| && Usable(samples[i])
    ensures var series := Series(samples, step, threshold, arc, started, previous);
            var k := UsableBefore(samples, i);
            && k < |series| && series[k].epoch == samples[i].epoch && series[k].gf == Phase(samples[i])
            && (k == 0 ==> series[0].arc
                           == arc + if NewArc(Remembered(samples, i, previous), started, samples[i], step, threshold) then 1 else 0)
            && (k > 0 ==> series[k].arc
                          == series[k - 1].arc + if StartsArc(samples, i, step, threshold) then 1 else 0)
    decreases |samples|
  {
    hide Usable, NewArc, Phase, Remember, StartsArc, Series;
    SeriesStep(samples, step, threshold, arc, started, previous);
    if i > 0 {
      var rest := samples[1..];
      var s := samples[0];
      if !Usable(s) {
        SeriesAt(rest, step, threshold, arc, started, None, i - 1);
        if UsableBefore(rest, i - 1) > 0 {
          LaterStarts(samples, i, step, threshold);
        } else if i > 1 {
          NothingUsable(rest, i - 1);
        }
      } else {
        var next := if NewArc(previous, started, s, step, threshold) then arc + 1 else arc;
        SeriesAt(rest, step, threshold, next, true, Some(Remember(s)), i - 1);
        NewArcIsStart(samples, i, step, threshold);
        if UsableBefore(rest, i - 1) > 0 {
          LaterStarts(samples, i, step, threshold);
        } else if i > 1 {
          NothingUsable(rest, i - 1);
        }
      }
    }
  }

  lemma LaterStarts(samples: seq<Sample>, i: nat, step: real, threshold: real)
    requires 1 <= i < |samples| && Usable(samples[i])
    ensures i > 1 ==> StartsArc(samples[1..], i - 1, step, threshold) == StartsArc(samples, i, step, threshold)
  {
    hide Usable, Phase;
  }

  lemma SeriesStep(samples: seq<Sample>, step: real, threshold: real, arc: nat, started: bool, previous: Option<Previous>)
    requires samples != []
    ensures var s := samples[0];
            Series(samples, step, threshold, arc, started, previous)
            == if !Usable(s) then Series(samples[1..], step, threshold, arc, started, None)
               else
                 var next := if NewArc(previous, started, s, step, threshold) then arc + 1 else arc;
                 [Point(s.epoch, Phase(s), next)] + Series(samples[1..], step, threshold, next, true, Some(Remember(s)))
  {
    hide Usable, NewArc, Phase, Remember;
  }

  lemma {:induction false} SeriesLength(samples: seq<Sample>, step: real, threshold: real, arc: nat, started: bool,
                                        previous: Option<Previous>)
    ensures |Series(samples, step, threshold, arc, started, previous)| == UsableBefore(samples, |samples|)
    decreases |samples|
  {
    hide Usable, NewArc, Phase, Remember, Series;
    if samples == [] {
      EmptySeries(step, threshold, arc, started, previous);
    } else {
      SeriesStep(samples, step, threshold, arc, started, previous);
      var s := samples[0];
      if !Usable(s) {
        SeriesLength(samples[1..], step, threshold, arc, started, None);
      } else {
        var next := if NewArc(previous, started, s, step, threshold) then arc + 1 else arc;
        SeriesLength(samples[1..], step, threshold, next, true, Some(Remember(s)));
      }
    }
  }

  lemma EmptySeries(step: real, threshold: real, arc: nat, started: bool, previous: Option<Previous>)
    ensures Series([], step, threshold, arc, started, previous) == []
  {}

  /**
   * One point for each usable sample, in order: its epoch, its phase, and an arc number that begins at 0 and
   * goes up by one exactly where the sample before is not usable, the time steps too far, a flag changes or
   * marks a loss of lock, an event is flagged or the phase jumps.
   */
  lemma ArcsStartWhere(satellite: string, samples: seq<Sample>, step: real, threshold: real, i: nat)
    requires satellite != [] && satellite[0] == 'G' && i < |samples| && Usable(samples[i])
    ensures var series := GfSeries(satellite, samples, step, threshold);
            var k := UsableBefore(samples, i);
            && k < |series| == UsableBefore(samples, |samples|)
            && series[k].epoch == samples[i].epoch && series[k].gf == Phase(samples[i])
            && (k == 0 ==> series[0].arc == 0)
            && (k > 0 ==> series[k].arc == series[k - 1].arc + if StartsArc(samples, i, step, threshold) then 1 else 0)
  {
    hide Usable, Phase, Remember, StartsArc, Series, UsableBefore;
    SeriesAt(samples, step, threshold, 0, false, None, i);
    SeriesLength(samples, step, threshold, 0, false, None);
    if UsableBefore(samples, i) == 0 && i > 0 {
      NothingUsable(samples, i);
    }
  }

  /** The step asked for goes before the header's, and 30 seconds stand in for none or for zero. */
  lemma NominalStepIs(asked: Option<real>, stated: Option<real>)
    ensures asked.Some? && asked.value != 0.0 ==> NominalStep(asked, stated) == asked.value
    ensures asked.None? && stated.Some? && stated.value != 0.0 ==> NominalStep(asked, stated) == stated.value
    ensures asked == Some(0.0) || (asked.None? && (stated.None? || stated == Some(0.0))) ==> NominalStep(asked, stated) == 30.0
  {}

  /** Without a step of its own and without one in the header, a series breaks at gaps of over 45 seconds. */
  lemma DefaultStepGap(satellite: string, a: Sample, b: Sample, threshold: real)
    requires satellite != [] && satellite[0] == 'G' && Usable(a) && Usable(b) && threshold >= 0.0
    requires b == a.(epoch := b.epoch, time := b.time) && a.obs.value.lli1 == a.obs.value.lli2 == a.obs.value.epochFlag == 0
    requires a.time.Some? && b.time.Some?
    ensures var series := GfSeries(satellite, [a, b], NominalStep(None, None), threshold);
            |series| == 2 && (series[1].arc == series[0].arc <==> b.time.value - a.time.value <= 45.000001)
  {
    hide Series, Usable;
    var samples := [a, b];
    ArcsStartWhere(satellite, samples, NominalStep(None, None), threshold, 0);
    ArcsStartWhere(satellite, samples, NominalStep(None, None), threshold, 1);
    assert samples[1..] == [b] && [b][1..] == [];
    assert UsableBefore([b], 0) == 0 && UsableBefore([b], 1) == 1;
    assert UsableBefore(samples, 1) == 1 && UsableBefore(samples, 2) == 2;
  }

  // ----- medians

  predicate AtMost(x: real, y: real) { x <= y }

  function Sorted(s: seq<real>): (r: seq<real>)
    ensures |r| == |s|
  {
    SortBy(AtMost, s)
  }

  function Median(values: seq<real>): real
    requires values != []
  {
    var ordered := Sorted(values);
    var mid := |ordered| / 2;
    if |ordered| % 2 == 1 then ordered[mid] else (ordered[mid - 1] + ordered[mid]) / 2.0
  }

  function Plus(values: seq<real>, c: real): (r: seq<real>)
    ensures |r| == |values|
  {
    seq(|values|, i requires 0 <= i < |values| => values[i] + c)
  }

  /** Sorted is the ordered rearrangement. */
  lemma SortedIsSorted(s: seq<real>)
    ensures multiset(Sorted(s)) == multiset(s)
    ensures forall i, j :: 0 <= i < j < |s| ==> Sorted(s)[i] <= Sorted(s)[j]
  {
    SortBySorts(AtMost, s);
  }

  // ----- the median by counting

  function Count(values: seq<real>, keep: real -> bool): (n: nat)
    ensures n <= |values|
  {
    if values == [] then 0 else (if keep(values[0]) then 1 else 0) + Count(values[1..], keep)
  }

  function Below(m: real): real -> bool { (x: real) => x < m }

  function UpTo(m: real): real -> bool { (x: real) => x <= m }

  function Above(m: real): real -> bool { (x: real) => x > m }

  lemma {:induction false} CountInsert(x: real, s: seq<real>, keep: real -> bool)
    ensures Count(Insert(AtMost, x, s), keep) == Count(s, keep) + if keep(x) then 1 else 0
  {
    if s != [] && !AtMost(x, s[0]) {
      CountInsert(x, s[1..], keep);
    }
  }

  lemma {:induction false} CountSorted(s: seq<real>, keep: real -> bool)
    ensures Count(Sorted(s), keep) == Count(s, keep)
  {
    if s != [] {
      CountSorted(s[1..], keep);
      CountInsert(s[0], Sorted(s[1..]), keep);
    }
  }

  lemma {:induction false} CountParts(a: seq<real>, b: seq<real>, keep: real -> bool)
    ensures Count(a + b, keep) == Count(a, keep) + Count(b, keep)
  {
    if a == [] {
      assert a + b == b;
    } else {
      CountParts(a[1..], b, keep);
      assert (a + b)[1..] == a[1..] + b;
    }
  }

  lemma {:induction false} CountNone(s: seq<real>, keep: real -> bool)
    requires forall i :: 0 <= i < |s| ==> !keep(s[i])
    ensures Count(s, keep) == 0
  {
    if s != [] {
      CountNone(s[1..], keep);
    }
  }

  lemma {:induction false} CountEvery(s: seq<real>, keep: real -> bool)
    requires forall i :: 0 <= i < |s| ==> keep(s[i])
    ensures Count(s, keep) == |s|
  {
    if s != [] {
      CountEvery(s[1..], keep);
    }
  }

  ghost predicate Ascending(s: seq<real>) { forall i, j :: 0 <= i < j < |s| ==> s[i] <= s[j] }

  lemma BelowAt(s: seq<real>, k: nat)
    requires k < |s| && Ascending(s)
    ensures Count(s, Below(s[k])) <= k
  {
    hide Count;
    assert s == s[..k] + s[k..];
    CountParts(s[..k], s[k..], Below(s[k]));
    CountNone(s[k..], Below(s[k]));
  }

  lemma UpToAt(s: seq<real>, k: nat)
    requires k < |s| && Ascending(s)
    ensures Count(s, UpTo(s[k])) >= k + 1
  {
    hide Count;
    assert s == s[..k + 1] + s[k + 1..];
    CountParts(s[..k + 1], s[k + 1..], UpTo(s[k]));
    CountEvery(s[..k + 1], UpTo(s[k]));
  }

  lemma AboveAt(s: seq<real>, k: nat)
    requires k < |s| && Ascending(s)
    ensures Count(s, Above(s[k])) <= |s| - 1 - k
  {
    hide Count;
    assert s == s[..k + 1] + s[k + 1..];
    CountParts(s[..k + 1], s[k + 1..], Above(s[k]));
    CountNone(s[..k + 1], Above(s[k]));
  }

  /** Half of the values, the middle one aside, are on either side; an even count has two middle values. */
  ghost predicate Middle(values: seq<real>, m: real) {
    var n := |values|;
    if n % 2 == 1 then m in values && 2 * Count(values, Below(m)) < n && 2 * Count(values, Above(m)) < n
    else
      exists a <- values, b <- values ::
        && a <= b && m == (a + b) / 2.0
        && Count(values, Below(a)) <= n / 2 - 1 && Count(values, UpTo(a)) >= n / 2
        && Count(values, Below(b)) <= n / 2 && Count(values, UpTo(b)) >= n / 2 + 1
  }

  lemma MedianIsMiddle(values: seq<real>)
    requires values != []
    ensures Middle(values, Median(values))
  {
    hide Sorted, Count;
    var ordered := Sorted(values);
    var mid := |ordered| / 2;
    SortedIsSorted(values);
    SortedCounts(values, mid);
    SortedMember(values, mid);
    if |values| % 2 == 0 {
      SortedCounts(values, mid - 1);
      SortedMember(values, mid - 1);
    }
  }

  lemma SortedMember(values: seq<real>, k: nat)
    requires k < |values|
    ensures Sorted(values)[k] in values
  {
    SortedIsSorted(values);
    assert Sorted(values)[k] in multiset(Sorted(values));
  }

  lemma SortedCounts(values: seq<real>, k: nat)
    requires k < |values|
    ensures var x := Sorted(values)[k];
            && Count(values, Below(x)) <= k && Count(values, UpTo(x)) >= k + 1
            && Count(values, Above(x)) <= |values| - 1 - k
  {
    hide Sorted, Count;
    var x := Sorted(values)[k];
    SortedIsSorted(values);
    BelowAt(Sorted(values), k);
    UpToAt(Sorted(values), k);
    AboveAt(Sorted(values), k);
    CountSorted(values, Below(x));
    CountSorted(values, UpTo(x));
    CountSorted(values, Above(x));
  }

  function Add(c: real): real -> real { (x: real) => x + c }

  lemma PlusIsMap(s: seq<real>, c: real)
    ensures Plus(s, c) == Map(Add(c), s)
  {
    forall i | 0 <= i < |s| ensures Plus(s, c)[i] == Map(Add(c), s)[i] {}
  }

  lemma AddKeepsOrder(c: real)
    ensures KeepsOrder(AtMost, Add(c))
  {}

  lemma SortedPlus(s: seq<real>, c: real)
    ensures Sorted(Plus(s, c)) == Plus(Sorted(s), c)
  {
    hide Map, Plus, SortBy, KeepsOrder, Add, AtMost;
    PlusIsMap(s, c);
    PlusIsMap(Sorted(s), c);
    AddKeepsOrder(c);
    SortByMap(AtMost, Add(c), s);
  }

  lemma MedianPlus(s: seq<real>, c: real)
    requires s != []
    ensures Median(Plus(s, c)) == Median(s) + c
  {
    SortedPlus(s, c);
  }

  // ----- detrending

  datatype Row = Row(epoch: string, gf: real, arc: nat, residual: real)

  function ArcValues(points: seq<Point>, arc: nat): seq<real> {
    if points == [] then []
    else
      var last := points[|points| - 1];
      ArcValues(points[..|points| - 1], arc) + if last.arc == arc then [last.gf] else []
  }

  lemma {:induction false} ArcHasValues(points: seq<Point>, i: nat)
    requires i < |points|
    ensures ArcValues(points, points[i].arc) != []
    decreases |points|
  {
    if i < |points| - 1 {
      ArcHasValues(points[..|points| - 1], i);
    }
  }

  function RowOf(points: seq<Point>, p: Point): Row {
    var values := ArcValues(points, p.arc);
    Row(p.epoch, p.gf, p.arc, if values == [] then 0.0 else p.gf - Median(values))
  }

  function Detrend(points: seq<Point>): (rows: seq<Row>)
    ensures |rows| == |points|
  {
    seq(|points|, i requires 0 <= i < |points| => RowOf(points, points[i]))
  }

  /** The phases of each arc, in order. */
  method GroupByArc(points: seq<Point>) returns (byArc: map<nat, seq<real>>)
    ensures forall arc: nat :: arc in byArc <==> ArcValues(points, arc) != []
    ensures forall arc: nat :: arc in byArc ==> byArc[arc] == ArcValues(points, arc)
  {
    byArc := map[];
    for i := 0 to |points|
      invariant forall arc: nat :: arc in byArc <==> ArcValues(points[..i], arc) != []
      invariant forall arc: nat :: arc in byArc ==> byArc[arc] == ArcValues(points[..i], arc)
    {
      var p := points[i];
      assert points[..i + 1][..i] == points[..i];
      byArc := byArc[p.arc := (if p.arc in byArc then byArc[p.arc] else []) + [p.gf]];
    }
    assert points[..|points|] == points;
  }

  method ArcDetrend(points: seq<Point>) returns (rows: seq<Row>)
    ensures rows == Detrend(points)
  {
    hide Median, ArcValues;
    var byArc := GroupByArc(points);
    var medians := map arc | arc in byArc :: Median(byArc[arc]);
    rows := [];
    for i := 0 to |points|
      invariant rows == Detrend(points)[..i]
    {
      var p := points[i];
      ArcHasValues(points, i);
      rows := rows + [Row(p.epoch, p.gf, p.arc, p.gf - medians[p.arc])];
    }
  }

  // ----- an unknown constant leaves no trace

  /** Sample for sample the same but for a shift of the phase. */
  ghost predicate Shifted(a: seq<Sample>, b: seq<Sample>, shift: seq<real>) {
    && |a| == |b| == |shift|
    && forall i :: 0 <= i < |a| ==> ShiftedSample(a[i], b[i], shift[i])
  }

  ghost predicate ShiftedSample(a: Sample, b: Sample, c: real) {
    && a.epoch == b.epoch && a.time == b.time && (Usable(a) <==> Usable(b))
    && (Usable(a) ==>
          && a.obs.value.lli1 == b.obs.value.lli1 && a.obs.value.lli2 == b.obs.value.lli2
          && a.obs.value.epochFlag == b.obs.value.epochFlag && Phase(b) == Phase(a) + c)
  }

  /** The shift changes only across a sample without phase or a forced break. */
  ghost predicate ChangesAtBreaks(a: seq<Sample>, shift: seq<real>, step: real)
    requires |a| == |shift|
  {
    forall i :: 0 < i < |a| && Usable(a[i - 1]) && Usable(a[i]) && shift[i] != shift[i - 1]
                ==> Forced(Remember(a[i - 1]), a[i], step)
  }

  /** The same sample with whole or broken cycles added to each frequency. */
  function AddCycles(s: Sample, n1: real, n2: real): Sample
    requires Usable(s)
  {
    s.(obs := Some(s.obs.value.(l1 := Some(s.obs.value.l1.value + n1), l2 := Some(s.obs.value.l2.value + n2))))
  }

  /** Cycle ambiguities are shifts: n1 and n2 cycles move the phase by n1 * LAMBDA1 - n2 * LAMBDA2. */
  lemma CyclesAreAShift(s: Sample, n1: real, n2: real)
    requires Usable(s)
    ensures ShiftedSample(s, AddCycles(s, n1, n2), n1 * LAMBDA1 - n2 * LAMBDA2)
  {}

  function UsableShifts(a: seq<Sample>, shift: seq<real>): seq<real>
    requires |a| == |shift|
  {
    if a == [] then []
    else (if Usable(a[0]) then [shift[0]] else []) + UsableShifts(a[1..], shift[1..])
  }

  ghost predicate ShiftedPoints(a: seq<Point>, b: seq<Point>, shift: seq<real>) {
    && |a| == |b| == |shift|
    && forall i :: 0 <= i < |a| ==> b[i] == a[i].(gf := a[i].gf + shift[i])
  }

  /** Within an arc the shift stays the same. */
  ghost predicate ConstantOnArcs(points: seq<Point>, shift: seq<real>)
    requires |points| == |shift|
  {
    forall i, j :: 0 <= i < j < |points| && points[i].arc == points[j].arc ==> shift[i] == shift[j]
  }

  lemma SameBreak(previous: Option<Previous>, other: Option<Previous>, last: real, started: bool,
                  s: Sample, t: Sample, c: real, step: real, threshold: real)
    requires ShiftedSample(s, t, c) && Usable(s)
    requires previous.None? <==> other.None?
    requires previous.Some? ==> other.value == previous.value.(gf := previous.value.gf + last)
    requires previous.Some? && c != last ==> Forced(previous.value, s, step)
    ensures NewArc(previous, started, s, step, threshold) <==> NewArc(other, started, t, step, threshold)
    ensures previous.Some? && !NewArc(previous, started, s, step, threshold) ==> c == last
  {}

  /** Same arcs, shifted phases, arcs from `low` up, and the shift of arc `arc` known when it goes on. */
  ghost predicate Tracks(p: seq<Point>, q: seq<Point>, d: seq<real>, low: nat, arc: nat, last: Option<real>) {
    && ShiftedPoints(p, q, d) && ConstantOnArcs(p, d)
    && (forall i :: 0 <= i < |p| ==> low <= p[i].arc)
    && (last.Some? ==> forall i :: 0 <= i < |p| && p[i].arc == arc ==> d[i] == last.value)
  }

  lemma TracksCons(p: seq<Point>, q: seq<Point>, d: seq<real>, first: Point, c: real, low: nat, arc: nat, last: Option<real>)
    requires Tracks(p, q, d, first.arc, first.arc, Some(c))
    requires low <= first.arc && arc <= first.arc && (last.Some? && first.arc == arc ==> c == last.value)
    ensures Tracks([first] + p, [first.(gf := first.gf + c)] + q, [c] + d, low, arc, last)
  {}

  lemma RestShifted(a: seq<Sample>, b: seq<Sample>, shift: seq<real>, step: real)
    requires a != [] && Shifted(a, b, shift) && ChangesAtBreaks(a, shift, step)
    ensures ShiftedSample(a[0], b[0], shift[0])
    ensures Shifted(a[1..], b[1..], shift[1..]) && ChangesAtBreaks(a[1..], shift[1..], step)
    ensures Usable(a[0]) && |a| > 1 && Usable(a[1]) && shift[1] != shift[0] ==> Forced(Remember(a[0]), a[1], step)
  {
    hide Usable, Forced, Remember, ShiftedSample;
    var rest, later := a[1..], shift[1..];
    forall i | 0 < i < |rest| && Usable(rest[i - 1]) && Usable(rest[i]) && later[i] != later[i - 1]
      ensures Forced(Remember(rest[i - 1]), rest[i], step)
    {
      assert a[i] == rest[i - 1] && a[i + 1] == rest[i];
    }
  }

  lemma {:induction false} SeriesShift(a: seq<Sample>, b: seq<Sample>, shift: seq<real>, step: real, threshold: real,
                                       arc: nat, started: bool, previous: Option<Previous>, other: Option<Previous>, last: real)
    requires Shifted(a, b, shift) && ChangesAtBreaks(a, shift, step)
    requires previous.None? <==> other.None?
    requires previous.Some? ==> started && other.value == previous.value.(gf := previous.value.gf + last)
    requires previous.Some? && a != [] && Usable(a[0]) && shift[0] != last ==> Forced(previous.value, a[0], step)
    ensures Tracks(Series(a, step, threshold, arc, started, previous), Series(b, step, threshold, arc, started, other),
                   UsableShifts(a, shift), if started && previous.None? then arc + 1 else arc,
                   arc, if previous.Some? then Some(last) else None)
    decreases |a|
  {
    hide Shifted, ChangesAtBreaks, Tracks, Usable, Forced, NewArc, Phase;
    if a == [] {
      TracksNil(if started && previous.None? then arc + 1 else arc, arc, if previous.Some? then Some(last) else None);
      SameLength(a, b, shift);
    } else {
      RestShifted(a, b, shift, step);
      SameLength(a, b, shift);
      UsableTogether(a[0], b[0], shift[0]);
      if !Usable(a[0]) {
        SeriesShift(a[1..], b[1..], shift[1..], step, threshold, arc, started, None, None, last);
        TracksWeaken(Series(a[1..], step, threshold, arc, started, None), Series(b[1..], step, threshold, arc, started, None),
                     UsableShifts(a[1..], shift[1..]), arc, started, previous, last);
        assert UsableShifts(a, shift) == UsableShifts(a[1..], shift[1..]);
      } else {
        SameBreak(previous, other, last, started, a[0], b[0], shift[0], step, threshold);
        NoneStarts(previous, started, a[0], step, threshold);
        var next := if NewArc(previous, started, a[0], step, threshold) then arc + 1 else arc;
        SeriesShift(a[1..], b[1..], shift[1..], step, threshold, next, true, Some(Remember(a[0])), Some(Remember(b[0])), shift[0]);
        TracksCons(Series(a[1..], step, threshold, next, true, Some(Remember(a[0]))),
                   Series(b[1..], step, threshold, next, true, Some(Remember(b[0]))),
                   UsableShifts(a[1..], shift[1..]), Point(a[0].epoch, Phase(a[0]), next), shift[0],
                   if started && previous.None? then arc + 1 else arc, arc, if previous.Some? then Some(last) else None);
      }
    }
  }

  lemma TracksNil(low: nat, arc: nat, last: Option<real>)
    ensures Tracks([], [], [], low, arc, last)
  {}

  lemma SameLength(a: seq<Sample>, b: seq<Sample>, shift: seq<real>)
    requires Shifted(a, b, shift)
    ensures |a| == |b| == |shift|
  {}

  lemma UsableTogether(a: Sample, b: Sample, c: real)
    requires ShiftedSample(a, b, c)
    ensures (Usable(a) <==> Usable(b)) && a.epoch == b.epoch
    ensures Usable(a) ==> Phase(b) == Phase(a) + c && Remember(b) == Remember(a).(gf := Remember(a).gf + c)
  {}

  lemma NoneStarts(previous: Option<Previous>, started: bool, s: Sample, step: real, threshold: real)
    requires Usable(s)
    ensures previous.None? ==> (NewArc(previous, started, s, step, threshold) <==> started)
  {}

  lemma TracksWeaken(p: seq<Point>, q: seq<Point>, d: seq<real>, arc: nat, started: bool, previous: Option<Previous>, last: real)
    requires Tracks(p, q, d, if started then arc + 1 else arc, arc, None)
    requires previous.Some? ==> started
    ensures Tracks(p, q, d, if started && previous.None? then arc + 1 else arc, arc, if previous.Some? then Some(last) else None)
  {}

  lemma {:induction false} ArcValuesShift(a: seq<Point>, b: seq<Point>, shift: seq<real>, arc: nat, c: real)
    requires ShiftedPoints(a, b, shift)
    requires forall i :: 0 <= i < |a| && a[i].arc == arc ==> shift[i] == c
    ensures ArcValues(b, arc) == Plus(ArcValues(a, arc), c)
    decreases |a|
  {
    if a != [] {
      var n := |a| - 1;
      ArcValuesShift(a[..n], b[..n], shift[..n], arc, c);
    }
  }

  /** Detrended rows lose the shift: only the raw phase still shows it. */
  lemma DetrendShift(a: seq<Point>, b: seq<Point>, shift: seq<real>)
    requires ShiftedPoints(a, b, shift) && ConstantOnArcs(a, shift)
    ensures forall i :: 0 <= i < |a| ==> Detrend(b)[i] == Detrend(a)[i].(gf := b[i].gf)
  {
    forall i | 0 <= i < |a| ensures Detrend(b)[i] == Detrend(a)[i].(gf := b[i].gf) {
      var arc := a[i].arc;
      ArcValuesShift(a, b, shift, arc, shift[i]);
      ArcHasValues(a, i);
      MedianPlus(ArcValues(a, arc), shift[i]);
    }
  }

  function Residuals(rows: seq<Row>): map<string, real> {
    if rows == [] then map[]
    else
      var last := rows[|rows| - 1];
      Residuals(rows[..|rows| - 1])[last.epoch := last.residual]
  }

  function StationDetrended(satellite: string, samples: seq<Sample>, step: real, threshold: real): map<string, real> {
    Residuals(Detrend(GfSeries(satellite, samples, step, threshold)))
  }

  /** Between-station differences on common epochs, scaled to slant delay on L1. */
  function PairProxies(a: map<string, real>, b: map<string, real>): map<string, real> {
    map epoch | epoch in a && epoch in b :: (a[epoch] - b[epoch]) * (1.0 / (GAMMA - 1.0))
  }

  /** A difference of geometry-free phases is 2329/3600 times the delay on L1, frequencies being as 77 to 60. */
  lemma PairProxyIs(a: map<string, real>, b: map<string, real>, epoch: string)
    ensures epoch in PairProxies(a, b) <==> epoch in a && epoch in b
    ensures epoch in a && epoch in b ==> PairProxies(a, b)[epoch] * 2329.0 == (a[epoch] - b[epoch]) * 3600.0
  {
    assert GAMMA == 5929.0 / 3600.0;
  }

  lemma {:induction false} SameResiduals(a: seq<Row>, b: seq<Row>)
    requires |a| == |b| && forall i :: 0 <= i < |a| ==> a[i].epoch == b[i].epoch && a[i].residual == b[i].residual
    ensures Residuals(a) == Residuals(b)
    decreases |a|
  {
    if a != [] {
      SameResiduals(a[..|a| - 1], b[..|b| - 1]);
    }
  }

  /**
   * An ambiguity that changes only where the data force a break leaves the epochs, the arcs, the
   * detrended series and every between-station difference as they were.
   */
  lemma AmbiguityInvariance(satellite: string, a: seq<Sample>, b: seq<Sample>, shift: seq<real>,
                            step: real, threshold: real, other: map<string, real>)
    requires Shifted(a, b, shift) && ChangesAtBreaks(a, shift, step)
    ensures var p := GfSeries(satellite, a, step, threshold);
            var q := GfSeries(satellite, b, step, threshold);
            && |p| == |q| && (forall i :: 0 <= i < |p| ==> p[i].epoch == q[i].epoch && p[i].arc == q[i].arc)
            && (forall i :: 0 <= i < |p| ==> Detrend(p)[i].residual == Detrend(q)[i].residual)
            && StationDetrended(satellite, a, step, threshold) == StationDetrended(satellite, b, step, threshold)
            && PairProxies(StationDetrended(satellite, a, step, threshold), other)
               == PairProxies(StationDetrended(satellite, b, step, threshold), other)
  {
    hide Series, Detrend, Residuals, PairProxies, Shifted, ChangesAtBreaks;
    var p := GfSeries(satellite, a, step, threshold);
    var q := GfSeries(satellite, b, step, threshold);
    if satellite != [] && satellite[0] == 'G' {
      SeriesShift(a, b, shift, step, threshold, 0, false, None, None, 0.0);
      SameLength(a, b, shift);
      DetrendShift(p, q, UsableShifts(a, shift));
      DetrendKeepsEpochs(p);
      DetrendKeepsEpochs(q);
      SameResiduals(Detrend(p), Detrend(q));
    }
  }

  lemma DetrendKeepsEpochs(points: seq<Point>)
    ensures forall i :: 0 <= i < |points| ==> Detrend(points)[i].epoch == points[i].epoch && Detrend(points)[i].arc == points[i].arc
  {}

  function ArcResiduals(rows: seq<Row>, arc: nat): seq<real> {
    if rows == [] then []
    else
      var last := rows[|rows| - 1];
      ArcResiduals(rows[..|rows| - 1], arc) + if last.arc == arc then [last.residual] else []
  }

  lemma {:induction false} ResidualsOfArc(points: seq<Point>, rows: seq<Row>, arc: nat, m: real)
    requires |rows| == |points|
    requires forall i :: 0 <= i < |rows| ==>
               rows[i].arc == points[i].arc && (rows[i].arc == arc ==> rows[i].residual == points[i].gf - m)
    ensures ArcResiduals(rows, arc) == Plus(ArcValues(points, arc), -m)
    decreases |rows|
  {
    if rows != [] {
      var n := |rows| - 1;
      ResidualsOfArc(points[..n], rows[..n], arc, m);
    }
  }

  /** Every arc's detrended values have their middle at zero: as many at most below it as above. */
  lemma DetrendedMedianIsZero(points: seq<Point>, arc: nat)
    requires ArcValues(points, arc) != []
    ensures ArcResiduals(Detrend(points), arc) != [] && Middle(ArcResiduals(Detrend(points), arc), 0.0)
  {
    hide Median, ArcResiduals, ArcValues, Plus, Middle;
    var m := Median(ArcValues(points, arc));
    var rows := Detrend(points);
    forall i | 0 <= i < |rows|
      ensures rows[i].arc == points[i].arc && (rows[i].arc == arc ==> rows[i].residual == points[i].gf - m)
    {
      ArcHasValues(points, i);
    }
    ResidualsOfArc(points, rows, arc, m);
    MedianPlus(ArcValues(points, arc), -m);
    MedianIsMiddle(ArcResiduals(rows, arc));
  }
}
