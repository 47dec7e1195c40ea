/**
 * Which epochs of a day were observed. Times are seconds since the midnight that opens the file's
 * day; a day has DAY seconds.
 */
module EpochAccounting {
  import opened Numbers
  import opened Wire

  const DAY: real := 86400.0

  function AtLeastZero(n: int): nat { if n < 0 then 0 else n }

  // ----- arithmetic of a regular grid

  /** k intervals after midnight. */
  function At(k: int, step: real): real { k as real * step }

  lemma SignOfProduct(x: real, y: real)
    requires y > 0.0
    ensures (x > 0.0 ==> x * y > 0.0) && (x < 0.0 ==> x * y < 0.0) && (x == 0.0 ==> x * y == 0.0)
  {}

  lemma AtDifference(a: int, b: int, step: real)
    ensures At(b, step) - At(a, step) == At(b - a, step) && At(b, step) - step == At(b - 1, step)
  {}

  lemma AtSign(k: int, step: real)
    requires step > 0.0
    ensures (At(k, step) > 0.0 <==> k > 0) && (At(k, step) == 0.0 <==> k == 0)
  {
    SignOfProduct(k as real, step);
  }

  lemma AtPastStep(k: int, step: real)
    requires step > 0.0
    ensures At(k, step) > step <==> k > 1
  {
    AtDifference(0, k, step);
    AtSign(k - 1, step);
  }

  lemma RoundAt(k: int, step: real)
    requires step > 0.0
    ensures Round(At(k, step) / step) == k
  {
    assert At(k, step) / step == k as real;
  }

  // ----- gaps and missing epochs

  datatype Gap = Gap(start: real, end: real, missing: nat)

  function GapBetween(previous: real, current: real, interval: real): seq<Gap>
    requires interval > 0.0
  {
    var elapsed := current - previous;
    if elapsed > interval then [Gap(previous, current, AtLeastZero(Round(elapsed / interval) - 1))] else []
  }

  function GapsOf(epochs: seq<real>, interval: real): seq<Gap>
    requires interval > 0.0
  {
    if |epochs| < 2 then []
    else
      var n := |epochs| - 1;
      GapsOf(epochs[..n], interval) + GapBetween(epochs[n - 1], epochs[n], interval)
  }

  function Missing(gaps: seq<Gap>): nat {
    if gaps == [] then 0 else Missing(gaps[..|gaps| - 1]) + gaps[|gaps| - 1].missing
  }

  datatype Accounting = Accounting(expected: int, unique: nat, missing: nat, gaps: seq<Gap>)

  /** What the quality report says of a session with at least one epoch and a known interval. */
  function Account(epochs: seq<real>, interval: real): Accounting
    requires epochs != [] && interval > 0.0
  {
    var gaps := GapsOf(epochs, interval);
    var before := AtLeastZero(Round(epochs[0] / interval));
    var after := AtLeastZero(Round((DAY - interval - epochs[|epochs| - 1]) / interval));
    Accounting(Round(DAY / interval), |set e | e in epochs|, before + Missing(gaps) + after, gaps)
  }

  method Analyse(epochs: seq<real>, interval: real) returns (a: Accounting)
    requires epochs != [] && interval > 0.0
    ensures a == Account(epochs, interval)
  {
    hide Round, Missing;
    var gaps: seq<Gap> := [];
    var internal := 0;
    NoGaps(epochs[..1], interval);
    for i := 1 to |epochs|
      invariant gaps == GapsOf(epochs[..i], interval) && internal == Missing(gaps)
    {
      assert epochs[..i + 1][..i] == epochs[..i];
      MissingSnoc(gaps, GapBetween(epochs[i - 1], epochs[i], interval));
      var elapsed := epochs[i] - epochs[i - 1];
      if elapsed > interval {
        var missing := AtLeastZero(Round(elapsed / interval) - 1);
        internal := internal + missing;
        gaps := gaps + [Gap(epochs[i - 1], epochs[i], missing)];
      }
    }
    assert epochs[..|epochs|] == epochs;
    var shortfall := DAY - interval - epochs[|epochs| - 1];
    var unique := set e | e in epochs;
    a := Accounting(Round(DAY / interval), |unique|,
                    AtLeastZero(Round(epochs[0] / interval)) + internal + AtLeastZero(Round(shortfall / interval)), gaps);
  }

  /** What is missing before the first and after the last epoch, to the nearest interval and never below zero. */
  lemma EndsAreCounted(epochs: seq<real>, interval: real)
    requires epochs != [] && interval > 0.0
    ensures var a := Account(epochs, interval);
            var before := epochs[0] / interval;
            var after := (86400.0 - interval - epochs[|epochs| - 1]) / interval;
            && a.expected == Round(86400.0 / interval) && a.unique == |set e | e in epochs|
            && a.missing == Missing(a.gaps) + (if before <= 0.5 then 0 else Round(before)) + (if after <= 0.5 then 0 else Round(after))
  {
    hide GapsOf, Missing;
  }

  // ----- accounting on the grid

  /** The i-th epoch is grid point number grid[i] of a day that holds exactly n intervals. */
  ghost predicate OnGrid(epochs: seq<real>, grid: seq<int>, interval: real, n: int) {
    && interval > 0.0 && At(n, interval) == DAY
    && |epochs| == |grid|
    && forall i :: 0 <= i < |grid| ==> 0 <= grid[i] < n && epochs[i] == At(grid[i], interval)
  }

  /** Steps forward, and how far the backward steps go back in all. */
  function Forward(grid: seq<int>): nat {
    if |grid| < 2 then 0
    else
      var n := |grid| - 1;
      Forward(grid[..n]) + if grid[n] > grid[n - 1] then 1 else 0
  }

  function Backward(grid: seq<int>): nat {
    if |grid| < 2 then 0
    else
      var n := |grid| - 1;
      Backward(grid[..n]) + AtLeastZero(grid[n - 1] - grid[n])
  }

  lemma GapOnGrid(a: int, b: int, interval: real)
    requires interval > 0.0
    ensures GapBetween(At(a, interval), At(b, interval), interval)
            == if b > a + 1 then [Gap(At(a, interval), At(b, interval), b - a - 1)] else []
  {
    hide At, Round;
    AtDifference(a, b, interval);
    AtPastStep(b - a, interval);
    RoundAt(b - a, interval);
  }

  lemma MissingSnoc(gaps: seq<Gap>, more: seq<Gap>)
    requires |more| <= 1
    ensures Missing(gaps + more) == Missing(gaps) + if more == [] then 0 else more[0].missing
  {
    if more == [] {
      assert gaps + more == gaps;
    } else {
      assert (gaps + more)[..|gaps|] == gaps;
    }
  }

  lemma OnGridFront(epochs: seq<real>, grid: seq<int>, interval: real, n: int)
    requires OnGrid(epochs, grid, interval, n) && grid != []
    ensures |epochs| == |grid| && OnGrid(epochs[..|grid| - 1], grid[..|grid| - 1], interval, n)
  {
    hide At;
  }

  /** The grid points counted inside the session, whatever order the epochs come in. */
  lemma {:induction false} InternalMissing(epochs: seq<real>, grid: seq<int>, interval: real, n: int)
    requires OnGrid(epochs, grid, interval, n) && grid != []
    ensures Missing(GapsOf(epochs, interval)) + Forward(grid) + grid[0] == grid[|grid| - 1] + Backward(grid)
    decreases |grid|
  {
    hide At, Missing, GapBetween;
    if |grid| < 2 {
      NoGaps(epochs, interval);
    } else {
      var k := |grid| - 1;
      OnGridFront(epochs, grid, interval, n);
      InternalMissing(epochs[..k], grid[..k], interval, n);
      GapOnGrid(grid[k - 1], grid[k], interval);
      MissingSnoc(GapsOf(epochs[..k], interval), GapBetween(epochs[k - 1], epochs[k], interval));
    }
  }

  lemma NoGaps(epochs: seq<real>, interval: real)
    requires |epochs| < 2 && interval > 0.0
    ensures Missing(GapsOf(epochs, interval)) == 0
  {}

  /** Exact accounting for every epoch list on the grid, in any order and with repeats. */
  lemma MissingOnGrid(epochs: seq<real>, grid: seq<int>, interval: real, n: int)
    requires OnGrid(epochs, grid, interval, n) && grid != []
    ensures Account(epochs, interval).expected == n
    ensures Account(epochs, interval).missing + 1 + Forward(grid) == n + Backward(grid)
  {
    hide At, Missing, GapsOf, Round;
    var first, last := grid[0], grid[|grid| - 1];
    InternalMissing(epochs, grid, interval, n);
    RoundAt(n, interval);
    RoundAt(first, interval);
    RoundAt(n - 1 - last, interval);
    AtDifference(last, n - 1, interval);
    AtDifference(0, n, interval);
  }

  ghost predicate NonDecreasing(grid: seq<int>) {
    forall i, j :: 0 <= i < j < |grid| ==> grid[i] <= grid[j]
  }

  lemma {:induction false} UniqueOnGrid(epochs: seq<real>, grid: seq<int>, interval: real, n: int)
    requires OnGrid(epochs, grid, interval, n) && grid != [] && NonDecreasing(grid)
    ensures |set e | e in epochs| == 1 + Forward(grid) && Backward(grid) == 0
    decreases |grid|
  {
    hide At, OnGrid;
    var k := |grid| - 1;
    if k == 0 {
      OnlyOne(epochs, grid, interval, n);
    } else {
      OnGridFront(epochs, grid, interval, n);
      UniqueOnGrid(epochs[..k], grid[..k], interval, n);
      NewEpochIff(epochs, grid, interval, n);
    }
  }

  lemma OnlyOne(epochs: seq<real>, grid: seq<int>, interval: real, n: int)
    requires OnGrid(epochs, grid, interval, n) && |grid| == 1
    ensures |set e | e in epochs| == 1
  {
    assert (set e | e in epochs) == {epochs[0]};
  }

  lemma OneEpochMore(front: seq<real>, last: real)
    ensures |set e | e in front + [last]| == |set e | e in front| + if last in front then 0 else 1
  {
    var before := set e | e in front;
    assert (set e | e in front + [last]) == before + {last};
    assert last in before <==> last in front;
  }

  /** The last epoch is new exactly when the grid index went up. */
  lemma NewEpochIff(epochs: seq<real>, grid: seq<int>, interval: real, n: int)
    requires OnGrid(epochs, grid, interval, n) && |grid| >= 2 && NonDecreasing(grid)
    ensures var k := |grid| - 1;
            |epochs| == k + 1
            && |set e | e in epochs| == |set e | e in epochs[..k]| + if grid[k] > grid[k - 1] then 1 else 0
  {
    hide At;
    var k := |grid| - 1;
    OneEpochMore(epochs[..k], epochs[k]);
    assert epochs == epochs[..k] + [epochs[k]];
    if grid[k] > grid[k - 1] {
      forall i | 0 <= i < k ensures epochs[i] != epochs[k] {
        AtDifference(grid[i], grid[k], interval);
        AtSign(grid[k] - grid[i], interval);
      }
      assert epochs[k] !in epochs[..k];
    } else {
      assert epochs[k] == epochs[..k][k - 1];
    }
  }

  /** In time order, repeats allowed: observed and missing epochs add up to the expected ones. */
  lemma EpochsAreConserved(epochs: seq<real>, grid: seq<int>, interval: real, n: int)
    requires OnGrid(epochs, grid, interval, n) && grid != [] && NonDecreasing(grid)
    ensures var a := Account(epochs, interval);
            a.unique + a.missing == a.expected == n
  {
    MissingOnGrid(epochs, grid, interval, n);
    UniqueOnGrid(epochs, grid, interval, n);
  }

  /** A gap between grid points a and b reports the points between them, and none was observed. */
  ghost predicate Hole(g: Gap, a: int, b: int, grid: seq<int>, interval: real) {
    && g == Gap(At(a, interval), At(b, interval), if b - a - 1 < 0 then 0 else b - a - 1)
    && a in grid && b in grid && b > a + 1
    && forall k :: a < k < b ==> k !in grid
  }

  lemma {:induction false} GapsAreHoles(epochs: seq<real>, grid: seq<int>, interval: real, n: int)
    requires OnGrid(epochs, grid, interval, n) && NonDecreasing(grid)
    ensures forall g <- GapsOf(epochs, interval) :: exists a: int, b: int :: Hole(g, a, b, grid, interval)
    decreases |grid|
  {
    hide At, GapBetween, Hole;
    if |grid| >= 2 {
      var k := |grid| - 1;
      OnGridFront(epochs, grid, interval, n);
      GapsAreHoles(epochs[..k], grid[..k], interval, n);
      GapOnGrid(grid[k - 1], grid[k], interval);
      forall g <- GapsOf(epochs, interval) ensures exists a: int, b: int :: Hole(g, a, b, grid, interval) {
        if g in GapsOf(epochs[..k], interval) {
          var a: int, b: int :| Hole(g, a, b, grid[..k], interval);
          HoleStays(g, a, b, grid, interval);
        } else {
          LastHole(g, grid, interval);
        }
      }
    }
  }

  lemma HoleStays(g: Gap, a: int, b: int, grid: seq<int>, interval: real)
    requires grid != [] && NonDecreasing(grid) && Hole(g, a, b, grid[..|grid| - 1], interval)
    ensures Hole(g, a, b, grid, interval)
  {
    hide At;
    var front := grid[..|grid| - 1];
    var i :| 0 <= i < |front| && front[i] == b;
    assert grid[i] <= grid[|grid| - 1];
    assert grid == front + [grid[|grid| - 1]];
  }

  lemma Between(grid: seq<int>, k: int)
    requires |grid| >= 2 && NonDecreasing(grid) && grid[|grid| - 2] < k < grid[|grid| - 1]
    ensures k !in grid
  {
    forall i | 0 <= i < |grid| ensures grid[i] != k {
      if i < |grid| - 2 {
        assert grid[i] <= grid[|grid| - 2];
      }
    }
  }

  lemma LastHole(g: Gap, grid: seq<int>, interval: real)
    requires |grid| >= 2 && NonDecreasing(grid)
    requires var a, b := grid[|grid| - 2], grid[|grid| - 1];
             b > a + 1 && g == Gap(At(a, interval), At(b, interval), b - a - 1)
    ensures Hole(g, grid[|grid| - 2], grid[|grid| - 1], grid, interval)
  {
    hide At, NonDecreasing;
    forall k | grid[|grid| - 2] < k < grid[|grid| - 1] ensures k !in grid {
      Between(grid, k);
    }
  }

  // ----- complete sessions

  datatype Completeness = NotComputable | Complete | Incomplete

  function CountDuplicates(epochs: seq<real>): nat {
    if |epochs| < 2 then 0
    else CountDuplicates(epochs[..|epochs| - 1]) + if epochs[|epochs| - 1] == epochs[|epochs| - 2] then 1 else 0
  }

  function CountBackward(epochs: seq<real>): nat {
    if |epochs| < 2 then 0
    else CountBackward(epochs[..|epochs| - 1]) + if epochs[|epochs| - 1] < epochs[|epochs| - 2] then 1 else 0
  }

  function PositiveSteps(epochs: seq<real>): seq<real> {
    if |epochs| < 2 then []
    else
      var n := |epochs| - 1;
      PositiveSteps(epochs[..n]) + if epochs[n] > epochs[n - 1] then [epochs[n] - epochs[n - 1]] else []
  }

  function Occurrences(steps: seq<real>, x: real): nat {
    if steps == [] then 0 else Occurrences(steps[..|steps| - 1], x) + if steps[|steps| - 1] == x then 1 else 0
  }

  /** The most frequent step, the earliest of several. */
  function ModeFrom(steps: seq<real>, i: nat, best: real): real
    requires i <= |steps|
    decreases |steps| - i
  {
    if i == |steps| then best
    else ModeFrom(steps, i + 1, if Occurrences(steps, steps[i]) > Occurrences(steps, best) then steps[i] else best)
  }

  /** The interval stated in the header, else the most frequent step; only a positive one is used. */
  function IntervalOf(header: Option<real>, epochs: seq<real>): Option<real> {
    var steps := PositiveSteps(epochs);
    var chosen := if header.Some? then header else if steps == [] then None else Some(ModeFrom(steps, 0, steps[0]));
    if chosen.Some? && chosen.value <= 0.0 then None else chosen
  }

  /** The step that leads to epoch i. */
  function StepTo(epochs: seq<real>, i: int): real
    requires 0 < i < |epochs|
  {
    epochs[i] - epochs[i - 1]
  }

  /** The epochs that a step of x leads to. */
  function StepsBy(epochs: seq<real>, x: real): set<int> {
    set i | 0 < i < |epochs| && StepTo(epochs, i) == x
  }

  lemma {:induction false} PositiveStepsSnoc(epochs: seq<real>, e: real)
    requires epochs != []
    ensures var last := epochs[|epochs| - 1];
            PositiveSteps(epochs + [e]) == PositiveSteps(epochs) + if e > last then [e - last] else []
  {
    var all, n := epochs + [e], |epochs|;
    assert all[..n] == epochs && all[n] == e && all[n - 1] == epochs[n - 1];
    PositiveStepsUnfold(all);
  }

  lemma {:induction false} PositiveStepsUnfold(epochs: seq<real>)
    requires |epochs| >= 2
    ensures var n := |epochs| - 1;
            PositiveSteps(epochs)
            == PositiveSteps(epochs[..n]) + if epochs[n] > epochs[n - 1] then [epochs[n] - epochs[n - 1]] else []
  {}

  lemma OccurrencesSnoc(steps: seq<real>, y: real, x: real)
    ensures Occurrences(steps + [y], x) == Occurrences(steps, x) + if y == x then 1 else 0
  {
    assert (steps + [y])[..|steps|] == steps;
  }

  lemma {:induction false} OccurrencesAre(epochs: seq<real>, x: real)
    requires x > 0.0
    ensures Occurrences(PositiveSteps(epochs), x) == |StepsBy(epochs, x)|
  {
    hide PositiveSteps, Occurrences, StepsBy;
    if |epochs| < 2 {
      NoSteps(epochs, x);
    } else {
      var n := |epochs| - 1;
      var front, e := epochs[..n], epochs[n];
      assert epochs == front + [e];
      OccurrencesAre(front, x);
      PositiveStepsSnoc(front, e);
      if e > front[n - 1] {
        OccurrencesSnoc(PositiveSteps(front), e - front[n - 1], x);
      } else {
        assert PositiveSteps(front) + [] == PositiveSteps(front);
      }
      StepsBySnoc(front, e, x);
    }
  }

  lemma NoSteps(epochs: seq<real>, x: real)
    requires |epochs| < 2
    ensures PositiveSteps(epochs) == [] && Occurrences([], x) == 0 && StepsBy(epochs, x) == {}
  {}

  lemma StepsBySnoc(front: seq<real>, e: real, x: real)
    requires front != []
    ensures |StepsBy(front + [e], x)| == |StepsBy(front, x)| + if e - front[|front| - 1] == x then 1 else 0
  {
    var epochs, n := front + [e], |front|;
    assert forall i :: 0 < i < n ==> StepTo(epochs, i) == StepTo(front, i);
    assert StepsBy(epochs, x) == StepsBy(front, x) + if StepTo(epochs, n) == x then {n} else {};
  }

  lemma {:induction false} StepPlace(epochs: seq<real>, i: nat)
    requires 0 < i < |epochs| && epochs[i] > epochs[i - 1]
    ensures var p := |PositiveSteps(epochs[..i])|;
            p < |PositiveSteps(epochs)| && PositiveSteps(epochs)[p] == epochs[i] - epochs[i - 1]
    decreases |epochs|
  {
    hide PositiveSteps;
    var n := |epochs| - 1;
    var front, e := epochs[..n], epochs[n];
    assert epochs == front + [e];
    PositiveStepsSnoc(front, e);
    if i < n {
      StepPlace(front, i);
      assert front[..i] == epochs[..i];
    }
  }

  lemma {:induction false} PlaceOfStep(epochs: seq<real>, p: nat) returns (i: nat)
    requires p < |PositiveSteps(epochs)|
    ensures 0 < i < |epochs| && epochs[i] > epochs[i - 1] && PositiveSteps(epochs)[p] == epochs[i] - epochs[i - 1]
    ensures |PositiveSteps(epochs[..i])| == p
    decreases |epochs|
  {
    hide PositiveSteps;
    if |epochs| < 2 {
      NoSteps(epochs, 0.0);
      assert false;
    }
    var n := |epochs| - 1;
    var front, e := epochs[..n], epochs[n];
    assert epochs == front + [e];
    PositiveStepsSnoc(front, e);
    if p < |PositiveSteps(front)| {
      i := PlaceOfStep(front, p);
      assert front[..i] == epochs[..i];
    } else {
      i := n;
    }
  }

  lemma {:induction false} StepsInOrder(epochs: seq<real>, j: nat, i: nat)
    requires 0 < j <= i <= |epochs|
    ensures |PositiveSteps(epochs[..j])| <= |PositiveSteps(epochs[..i])|
    ensures j < i && epochs[j] > epochs[j - 1] ==> |PositiveSteps(epochs[..j])| < |PositiveSteps(epochs[..i])|
    decreases i - j
  {
    hide PositiveSteps;
    if j < i {
      assert epochs[..j + 1] == epochs[..j] + [epochs[j]];
      PositiveStepsSnoc(epochs[..j], epochs[j]);
      StepsInOrder(epochs, j + 1, i);
    }
  }

  /** The best of those looked at, and the first of its kind. */
  ghost predicate FirstMost(steps: seq<real>, n: nat, p: nat)
    requires n <= |steps|
  {
    && p < n && (forall q :: 0 <= q < n ==> Occurrences(steps, steps[q]) <= Occurrences(steps, steps[p]))
    && forall q :: 0 <= q < p ==> Occurrences(steps, steps[q]) < Occurrences(steps, steps[p])
  }

  lemma {:induction false} ModeIsFirstMost(steps: seq<real>, i: nat, p: nat) returns (r: nat)
    requires 0 < i <= |steps| && FirstMost(steps, i, p)
    ensures FirstMost(steps, |steps|, r) && ModeFrom(steps, i, steps[p]) == steps[r]
    decreases |steps| - i
  {
    hide Occurrences;
    r := p;
    if i < |steps| {
      r := ModeIsFirstMost(steps, i + 1, if Occurrences(steps, steps[i]) > Occurrences(steps, steps[p]) then i else p);
    }
  }

  lemma ModeStarts(steps: seq<real>)
    requires steps != []
    ensures ModeFrom(steps, 0, steps[0]) == ModeFrom(steps, 1, steps[0]) && FirstMost(steps, 1, 0)
  {
    hide Occurrences;
  }

  /** A positive step that occurs at least as often as any other, and more often than any that occurs before it. */
  ghost predicate FirstMostFrequent(epochs: seq<real>, i: int) {
    && 0 < i < |epochs| && StepTo(epochs, i) > 0.0
    && forall j | 0 < j < |epochs| && StepTo(epochs, j) > 0.0 ::
         var here, there := |StepsBy(epochs, StepTo(epochs, i))|, |StepsBy(epochs, StepTo(epochs, j))|;
         there <= here && (j < i ==> there < here)
  }

  /** A header's interval must be positive; without one it is the earliest of the most frequent positive steps. */
  lemma IntervalIs(header: Option<real>, epochs: seq<real>)
    ensures var interval := IntervalOf(header, epochs);
            if header.Some? then interval == if header.value > 0.0 then header else None
            else if interval.None? then forall i | 0 < i < |epochs| :: StepTo(epochs, i) <= 0.0
            else exists i :: FirstMostFrequent(epochs, i) && interval == Some(StepTo(epochs, i))
  {
    hide PositiveSteps, ModeFrom, FirstMostFrequent;
    if header.None? {
      if PositiveSteps(epochs) == [] {
        forall i | 0 < i < |epochs| ensures StepTo(epochs, i) <= 0.0 {
          if StepTo(epochs, i) > 0.0 {
            StepPlace(epochs, i);
          }
        }
      } else {
        var i := ModeOfEpochs(epochs);
      }
    }
  }

  lemma ModeOfEpochs(epochs: seq<real>) returns (i: nat)
    requires PositiveSteps(epochs) != []
    ensures FirstMostFrequent(epochs, i) && StepTo(epochs, i) > 0.0
    ensures ModeFrom(PositiveSteps(epochs), 0, PositiveSteps(epochs)[0]) == StepTo(epochs, i)
  {
    hide PositiveSteps, ModeFrom, StepsBy, Occurrences;
    var steps := PositiveSteps(epochs);
    ModeStarts(steps);
    var p := ModeIsFirstMost(steps, 1, 0);
    i := PlaceOfStep(epochs, p);
    OccurrencesAre(epochs, steps[p]);
    forall j | 0 < j < |epochs| && StepTo(epochs, j) > 0.0
      ensures var here, there := |StepsBy(epochs, StepTo(epochs, i))|, |StepsBy(epochs, StepTo(epochs, j))|;
              there <= here && (j < i ==> there < here)
    {
      StepPlace(epochs, j);
      OccurrencesAre(epochs, StepTo(epochs, j));
      if j < i {
        StepsInOrder(epochs, j, i);
      }
    }
  }

  function Completed(readable: bool, header: Option<real>, epochs: seq<real>): Completeness {
    var interval := IntervalOf(header, epochs);
    if !readable || epochs == [] || interval.None? then NotComputable
    else
      var step := interval.value;
      if && epochs[0] == 0.0 && DAY - step - epochs[|epochs| - 1] == 0.0
         && GapsOf(epochs, step) == [] && CountDuplicates(epochs) == 0 && CountBackward(epochs) == 0
         && |epochs| == Round(DAY / step)
      then Complete else Incomplete
  }

  lemma CountsStep(epochs: seq<real>, step: real, i: nat)
    requires 0 < i < |epochs| && step > 0.0
    ensures var elapsed := epochs[i] - epochs[i - 1];
            && CountDuplicates(epochs[..i + 1]) == CountDuplicates(epochs[..i]) + (if elapsed == 0.0 then 1 else 0)
            && CountBackward(epochs[..i + 1]) == CountBackward(epochs[..i]) + (if elapsed < 0.0 then 1 else 0)
            && |GapsOf(epochs[..i + 1], step)| == |GapsOf(epochs[..i], step)| + if elapsed > step then 1 else 0
  {
    hide Round;
    assert epochs[..i + 1][..i] == epochs[..i];
  }

  lemma NothingCounted(epochs: seq<real>, step: real)
    requires |epochs| == 1 && step > 0.0
    ensures CountDuplicates(epochs) == CountBackward(epochs) == |GapsOf(epochs, step)| == 0
  {}

  /** The loop that counts repeats, backward steps and gaps, and the verdict. */
  method JudgeSession(readable: bool, header: Option<real>, epochs: seq<real>) returns (verdict: Completeness)
    ensures verdict == Completed(readable, header, epochs)
  {
    hide Round, CountDuplicates, CountBackward, GapsOf, IntervalOf;
    var interval := IntervalOf(header, epochs);
    if interval.None? || epochs == [] || !readable {
      return NotComputable;
    }
    var step := interval.value;
    IntervalIsPositive(header, epochs, step);
    NothingCounted(epochs[..1], step);
    var duplicates, backward, gaps := 0, 0, 0;
    for i := 1 to |epochs|
      invariant duplicates == CountDuplicates(epochs[..i]) && backward == CountBackward(epochs[..i])
      invariant gaps == |GapsOf(epochs[..i], step)|
    {
      CountsStep(epochs, step, i);
      var elapsed := epochs[i] - epochs[i - 1];
      if elapsed == 0.0 {
        duplicates := duplicates + 1;
      } else if elapsed < 0.0 {
        backward := backward + 1;
      } else if elapsed > step {
        gaps := gaps + 1;
      }
    }
    assert epochs[..|epochs|] == epochs;
    var shortfall := DAY - step - epochs[|epochs| - 1];
    return if epochs[0] == 0.0 && shortfall == 0.0 && gaps == 0 && duplicates == 0 && backward == 0
              && |epochs| == Round(DAY / step) then Complete else Incomplete;
  }

  /** The k-th epoch is midnight plus k intervals, for the expected number of epochs. */
  ghost predicate FullGrid(epochs: seq<real>, step: real)
    requires step > 0.0
  {
    |epochs| == Round(DAY / step) && forall k :: 0 <= k < |epochs| ==> epochs[k] == At(k, step)
  }

  ghost predicate SmallSteps(epochs: seq<real>, step: real) {
    forall i :: 0 < i < |epochs| ==> 0.0 < epochs[i] - epochs[i - 1] <= step
  }

  predicate SmallStep(epochs: seq<real>, step: real)
    requires |epochs| >= 2
  {
    0.0 < epochs[|epochs| - 1] - epochs[|epochs| - 2] <= step
  }

  lemma SmallStepsSnoc(epochs: seq<real>, step: real)
    requires |epochs| >= 2
    ensures SmallSteps(epochs, step) <==> SmallSteps(epochs[..|epochs| - 1], step) && SmallStep(epochs, step)
  {
    var front := epochs[..|epochs| - 1];
    if SmallSteps(front, step) && SmallStep(epochs, step) {
      forall i | 0 < i < |epochs| ensures 0.0 < epochs[i] - epochs[i - 1] <= step {
        assert i < |front| ==> front[i] == epochs[i] && front[i - 1] == epochs[i - 1];
      }
    }
    if SmallSteps(epochs, step) {
      forall i | 0 < i < |front| ensures 0.0 < front[i] - front[i - 1] <= step {
        assert front[i] == epochs[i] && front[i - 1] == epochs[i - 1];
      }
    }
  }

  lemma {:induction false} CleanIffSmallSteps(epochs: seq<real>, step: real)
    requires step > 0.0
    ensures GapsOf(epochs, step) == [] && CountDuplicates(epochs) == 0 && CountBackward(epochs) == 0
            <==> SmallSteps(epochs, step)
    decreases |epochs|
  {
    hide Round;
    if |epochs| >= 2 {
      CleanIffSmallSteps(epochs[..|epochs| - 1], step);
      SmallStepsSnoc(epochs, step);
    }
  }

  /** k small steps reach at most k intervals. */
  lemma {:induction false} StepsReach(epochs: seq<real>, step: real, i: nat, j: nat)
    requires SmallSteps(epochs, step) && i <= j < |epochs|
    ensures epochs[j] - epochs[i] <= At(j - i, step)
    decreases j - i
  {
    if i < j {
      StepsReach(epochs, step, i, j - 1);
      AtDifference(0, j - i, step);
    }
  }

  /** Bounded steps that cover the whole bound between two ends are all equal to it. */
  lemma FullReachIsGrid(epochs: seq<real>, step: real, k: nat)
    requires SmallSteps(epochs, step) && k < |epochs|
    requires epochs[0] == 0.0 && epochs[|epochs| - 1] == At(|epochs| - 1, step)
    ensures epochs[k] == At(k, step)
  {
    hide At;
    StepsReach(epochs, step, 0, k);
    StepsReach(epochs, step, k, |epochs| - 1);
    AtDifference(k, |epochs| - 1, step);
  }

  lemma IntervalIsPositive(header: Option<real>, epochs: seq<real>, step: real)
    requires IntervalOf(header, epochs) == Some(step)
    ensures step > 0.0
  {}

  lemma CompleteGivesGrid(header: Option<real>, epochs: seq<real>, step: real)
    requires IntervalOf(header, epochs) == Some(step) && At(Round(DAY / step), step) == DAY
    requires Completed(true, header, epochs) == Complete
    ensures FullGrid(epochs, step)
  {
    hide At, Round, IntervalOf;
    IntervalIsPositive(header, epochs, step);
    CleanIffSmallSteps(epochs, step);
    AtDifference(0, |epochs|, step);
    forall k | 0 <= k < |epochs| ensures epochs[k] == At(k, step) {
      FullReachIsGrid(epochs, step, k);
    }
  }

  lemma GridGivesComplete(header: Option<real>, epochs: seq<real>, step: real)
    requires IntervalOf(header, epochs) == Some(step) && At(Round(DAY / step), step) == DAY
    requires FullGrid(epochs, step) && epochs != []
    ensures Completed(true, header, epochs) == Complete
  {
    hide At, Round, IntervalOf;
    IntervalIsPositive(header, epochs, step);
    AtSign(0, step);
    AtDifference(0, |epochs|, step);
    forall i | 0 < i < |epochs| ensures 0.0 < epochs[i] - epochs[i - 1] <= step {
      AtDifference(i - 1, i, step);
      AtSign(1, step);
      AtPastStep(1, step);
    }
    CleanIffSmallSteps(epochs, step);
  }

  /**
   * When the interval divides the day, "complete" means exactly that every grid epoch of the day is
   * there, once and in order.
   */
  lemma CompleteIffFullGrid(header: Option<real>, epochs: seq<real>, step: real)
    requires IntervalOf(header, epochs) == Some(step) && At(Round(DAY / step), step) == DAY
    requires epochs != []
    ensures Completed(true, header, epochs) == Complete <==> FullGrid(epochs, step)
  {
    if FullGrid(epochs, step) {
      GridGivesComplete(header, epochs, step);
    }
    if Completed(true, header, epochs) == Complete {
      CompleteGivesGrid(header, epochs, step);
    }
  }

  /**
   * For any interval, a session called complete is the full grid exactly when the rounded number of
   * epochs times the interval is the day.
   */
  lemma CompleteIsGridIff(header: Option<real>, epochs: seq<real>, step: real)
    requires IntervalOf(header, epochs) == Some(step)
    requires Completed(true, header, epochs) == Complete
    ensures FullGrid(epochs, step) <==> At(Round(DAY / step), step) == DAY
  {
    hide At, Round, IntervalOf;
    if At(Round(DAY / step), step) == DAY {
      CompleteGivesGrid(header, epochs, step);
    }
    AtDifference(0, |epochs|, step);
  }

  /** Two epochs 36400 seconds apart pass for a complete day of 50000-second sampling. */
  lemma CompleteWithoutGrid()
    ensures var epochs := [0.0, 36400.0];
            Completed(true, Some(50000.0), epochs) == Complete && !FullGrid(epochs, 50000.0)
  {
    var epochs := [0.0, 36400.0];
    assert Round(DAY / 50000.0) == 2;
    assert epochs[..1] == [0.0];
    assert At(1, 50000.0) == 50000.0;
  }
}
