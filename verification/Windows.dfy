/** Stretches of days on which enough stations were accepted, for each station count from 1 to 8. */
module Windows {
  import opened Ordering

  const DAYS := 366

  /** An inclusive range of days of the year. */
  datatype Window = Window(minimum: int, start: int, end: int) {
    function Duration(): int { end - start + 1 }

    predicate Has(day: int) { start <= day <= end }
  }

  /** counts[d - 1] stations were accepted on day d; no other day of the year exists. */
  predicate Qualifies(counts: seq<nat>, minimum: int, day: int) {
    1 <= day <= |counts| && counts[day - 1] >= minimum
  }

  predicate AllQualify(counts: seq<nat>, minimum: int, start: int, end: int) {
    forall day | start <= day <= end :: Qualifies(counts, minimum, day)
  }

  /** Every day qualifies and neither neighbour does. */
  predicate MaximalRun(counts: seq<nat>, w: Window) {
    && w.start <= w.end && AllQualify(counts, w.minimum, w.start, w.end)
    && !Qualifies(counts, w.minimum, w.start - 1) && !Qualifies(counts, w.minimum, w.end + 1)
  }

  predicate Reported(counts: seq<nat>, w: Window) {
    1 <= w.minimum < 9 && MaximalRun(counts, w)
  }

  /** Fewest stations first, then the longest, then the earliest. */
  predicate Before(v: Window, w: Window) {
    if v.minimum != w.minimum then v.minimum < w.minimum
    else if v.Duration() != w.Duration() then v.Duration() > w.Duration()
    else v.start <= w.start
  }

  /** The windows are those found and no others, each once. */
  ghost predicate Lists(windows: seq<Window>, found: Window -> bool) {
    forall w :: multiset(windows)[w] == if found(w) then 1 else 0
  }

  /** Closed before a day of the pass for a minimum, or in an earlier pass. */
  predicate Closed(w: Window, minimum: int, day: int) {
    w.minimum < minimum || (w.minimum == minimum && w.end + 1 < day)
  }

  ghost function FoundSoFar(counts: seq<nat>, minimum: int, day: int): Window -> bool {
    (w: Window) => Reported(counts, w) && Closed(w, minimum, day)
  }

  /** A run still open when a day is reached. */
  predicate Open(counts: seq<nat>, minimum: int, start: int, day: int) {
    start < day && AllQualify(counts, minimum, start, day - 1) && !Qualifies(counts, minimum, start - 1)
  }

  lemma OneRunEndsAt(counts: seq<nat>, v: Window, w: Window)
    requires MaximalRun(counts, v) && MaximalRun(counts, w) && v.minimum == w.minimum && v.end == w.end
    ensures v == w
  {}

  lemma RunsStayInTheYear(counts: seq<nat>, w: Window)
    requires MaximalRun(counts, w)
    ensures 1 <= w.start <= w.end <= |counts|
  {
    assert Qualifies(counts, w.minimum, w.start) && Qualifies(counts, w.minimum, w.end);
  }

  lemma SamePass(counts: seq<nat>, windows: seq<Window>, minimum: int, day: int, next: int, nextDay: int)
    requires Lists(windows, FoundSoFar(counts, minimum, day))
    requires forall w :: Reported(counts, w) ==> (Closed(w, minimum, day) <==> Closed(w, next, nextDay))
    ensures Lists(windows, FoundSoFar(counts, next, nextDay))
  {
    hide Reported, Closed;
    forall w ensures FoundSoFar(counts, minimum, day)(w) == FoundSoFar(counts, next, nextDay)(w) {}
  }

  lemma PassBegins(counts: seq<nat>, windows: seq<Window>, minimum: int)
    requires Lists(windows, FoundSoFar(counts, minimum, 0))
    ensures Lists(windows, FoundSoFar(counts, minimum, 1))
  {
    forall w | Reported(counts, w) ensures Closed(w, minimum, 0) <==> Closed(w, minimum, 1) {
      RunsStayInTheYear(counts, w);
    }
    SamePass(counts, windows, minimum, 0, minimum, 1);
  }

  lemma PassEnds(counts: seq<nat>, windows: seq<Window>, minimum: int)
    requires |counts| == DAYS && Lists(windows, FoundSoFar(counts, minimum, DAYS + 2))
    ensures Lists(windows, FoundSoFar(counts, minimum + 1, 0))
  {
    forall w | Reported(counts, w) ensures Closed(w, minimum, DAYS + 2) <==> Closed(w, minimum + 1, 0) {
      RunsStayInTheYear(counts, w);
    }
    SamePass(counts, windows, minimum, DAYS + 2, minimum + 1, 0);
  }

  /** No run ends on the day before one that qualifies, or after one that does not. */
  lemma NothingCloses(counts: seq<nat>, windows: seq<Window>, minimum: int, day: int)
    requires Lists(windows, FoundSoFar(counts, minimum, day))
    requires Qualifies(counts, minimum, day) || !Qualifies(counts, minimum, day - 1)
    ensures Lists(windows, FoundSoFar(counts, minimum, day + 1))
  {
    forall w | Reported(counts, w) ensures Closed(w, minimum, day) <==> Closed(w, minimum, day + 1) {
      assert Qualifies(counts, w.minimum, w.end);
    }
    SamePass(counts, windows, minimum, day, minimum, day + 1);
  }

  lemma OneCloses(counts: seq<nat>, windows: seq<Window>, minimum: int, start: int, day: int)
    requires 1 <= minimum < 9 && Lists(windows, FoundSoFar(counts, minimum, day))
    requires Open(counts, minimum, start, day) && !Qualifies(counts, minimum, day)
    ensures Lists(windows + [Window(minimum, start, day - 1)], FoundSoFar(counts, minimum, day + 1))
  {
    var run := Window(minimum, start, day - 1);
    assert MaximalRun(counts, run);
    hide Lists, MaximalRun, Qualifies, Open;
    forall w ensures multiset(windows + [run])[w] == if FoundSoFar(counts, minimum, day + 1)(w) then 1 else 0 {
      ListsAt(windows, FoundSoFar(counts, minimum, day), w);
      if Reported(counts, w) && w.minimum == minimum && w.end + 1 == day {
        OneRunEndsAt(counts, w, run);
      }
    }
    ListsAll(windows + [run], FoundSoFar(counts, minimum, day + 1));
  }

  lemma ListsAt(windows: seq<Window>, found: Window -> bool, w: Window)
    requires Lists(windows, found)
    ensures multiset(windows)[w] == if found(w) then 1 else 0
  {}

  lemma ListsAll(windows: seq<Window>, found: Window -> bool)
    requires forall w :: multiset(windows)[w] == if found(w) then 1 else 0
    ensures Lists(windows, found)
  {}

  method ExtractWindows(counts: seq<nat>) returns (windows: seq<Window>)
    requires |counts| == DAYS
    ensures Lists(windows, w => Reported(counts, w))
    ensures SortedBy(Before, windows)
  {
    windows := [];
    forall w | Reported(counts, w) ensures !Closed(w, 1, 0) {
      RunsStayInTheYear(counts, w);
    }
    for minimum := 1 to 9
      invariant Lists(windows, FoundSoFar(counts, minimum, 0))
    {
      windows := ExtractFor(counts, minimum, windows);
    }
    BeforeIsPreorder();
    SortBySorts(Before, windows);
    windows := SortBy(Before, windows);
  }

  lemma BeforeIsPreorder()
    ensures TotalPreorder(Before)
  {}

  /** One pass over the days and one beyond, which closes a run that reaches the last day. */
  method ExtractFor(counts: seq<nat>, minimum: int, earlier: seq<Window>) returns (windows: seq<Window>)
    requires |counts| == DAYS && 1 <= minimum < 9
    requires Lists(earlier, FoundSoFar(counts, minimum, 0))
    ensures Lists(windows, FoundSoFar(counts, minimum + 1, 0))
  {
    hide Lists, FoundSoFar;
    windows := earlier;
    var active, start := false, 0;
    PassBegins(counts, windows, minimum);
    for day := 1 to 368
      invariant Lists(windows, FoundSoFar(counts, minimum, day))
      invariant if active then Open(counts, minimum, start, day) else !Qualifies(counts, minimum, day - 1)
    {
      var qualifies := day <= 366 && counts[day - 1] >= minimum;
      if qualifies && !active {
        active, start := true, day;
      }
      if !qualifies && active {
        OneCloses(counts, windows, minimum, start, day);
        windows := windows + [Window(minimum, start, day - 1)];
        active := false;
      } else {
        NothingCloses(counts, windows, minimum, day);
      }
    }
    PassEnds(counts, windows, minimum);
  }

  /** What is reported of a year, in numbers alone. */
  lemma ReportedIff(counts: seq<nat>, w: Window)
    requires |counts| == 366
    ensures Reported(counts, w)
            <==> && 1 <= w.minimum <= 8 && 1 <= w.start <= w.end <= 366
                 && (forall i :: w.start - 1 <= i <= w.end - 1 ==> counts[i] >= w.minimum)
                 && (w.start > 1 ==> counts[w.start - 2] < w.minimum) && (w.end < 366 ==> counts[w.end] < w.minimum)
  {
    if MaximalRun(counts, w) {
      RunsStayInTheYear(counts, w);
      forall i | w.start - 1 <= i <= w.end - 1 ensures counts[i] >= w.minimum {
        assert Qualifies(counts, w.minimum, i + 1);
      }
    }
  }

  // ----- the row of each day

  datatype Verdict = ACCEPT | WARN | REJECT | BLOCKED
  datatype Session = Session(station: string, day: int, verdict: Verdict, navigation: bool)

  datatype DayRow = DayRow(day: int, files: nat, warned: nat, qualified: seq<string>, navigation: nat)

  function OnDay(sessions: seq<Session>, day: int): seq<Session> {
    if sessions == [] then []
    else
      var s := sessions[|sessions| - 1];
      OnDay(sessions[..|sessions| - 1], day) + if s.day == day then [s] else []
  }

  function StationsWith(sessions: seq<Session>, verdict: Verdict): seq<string> {
    if sessions == [] then []
    else
      var s := sessions[|sessions| - 1];
      StationsWith(sessions[..|sessions| - 1], verdict) + if s.verdict == verdict then [s.station] else []
  }

  function Navigated(sessions: seq<Session>): nat {
    if sessions == [] then 0
    else Navigated(sessions[..|sessions| - 1]) + if sessions[|sessions| - 1].navigation then 1 else 0
  }

  /** The row of a day with the given sessions. */
  function RowOf(day: int, here: seq<Session>): DayRow {
    DayRow(day, |here|, |StationsWith(here, WARN)|, SortBy(LexLe, StationsWith(here, ACCEPT)), Navigated(here))
  }

  function AcceptedOn(sessions: seq<Session>, day: int): nat {
    if sessions == [] then 0
    else
      var s := sessions[|sessions| - 1];
      AcceptedOn(sessions[..|sessions| - 1], day) + if s.day == day && s.verdict.ACCEPT? then 1 else 0
  }

  function Counts(rows: seq<DayRow>): (counts: seq<nat>)
    ensures |counts| == |rows| && forall i :: 0 <= i < |rows| ==> counts[i] == |rows[i].qualified|
  {
    seq(|rows|, i requires 0 <= i < |rows| => |rows[i].qualified|)
  }

  lemma RowSnoc(here: seq<Session>, s: Session)
    ensures StationsWith(here + [s], WARN) == StationsWith(here, WARN) + if s.verdict.WARN? then [s.station] else []
    ensures StationsWith(here + [s], ACCEPT) == StationsWith(here, ACCEPT) + if s.verdict.ACCEPT? then [s.station] else []
    ensures Navigated(here + [s]) == Navigated(here) + if s.navigation then 1 else 0
  {
    assert (here + [s])[..|here|] == here;
  }

  lemma OnDaySnoc(sessions: seq<Session>, s: Session, day: int)
    ensures OnDay(sessions + [s], day) == OnDay(sessions, day) + if s.day == day then [s] else []
  {
    assert (sessions + [s])[..|sessions|] == sessions;
  }

  lemma NoSessions(day: int)
    ensures OnDay([], day) == [] && StationsWith([], WARN) == StationsWith([], ACCEPT) == [] && Navigated([]) == 0
  {}

  method GroupByDay(sessions: seq<Session>) returns (byDay: map<int, seq<Session>>)
    ensures forall day :: (if day in byDay then byDay[day] else []) == OnDay(sessions, day)
  {
    hide OnDay;
    byDay := map[];
    forall day ensures OnDay(sessions[..0], day) == [] {
      NoSessions(day);
    }
    for i := 0 to |sessions|
      invariant forall day :: (if day in byDay then byDay[day] else []) == OnDay(sessions[..i], day)
    {
      var s := sessions[i];
      assert sessions[..i + 1] == sessions[..i] + [s];
      forall day ensures OnDay(sessions[..i + 1], day) == OnDay(sessions[..i], day) + if s.day == day then [s] else [] {
        OnDaySnoc(sessions[..i], s, day);
      }
      byDay := byDay[s.day := (if s.day in byDay then byDay[s.day] else []) + [s]];
    }
    assert sessions[..|sessions|] == sessions;
  }

  method SumUpDay(day: int, here: seq<Session>) returns (row: DayRow)
    ensures row == RowOf(day, here)
  {
    hide StationsWith, Navigated, SortBy;
    var accepted: seq<string>, warned: seq<string>, navigation := [], [], 0;
    NoSessions(day);
    for i := 0 to |here|
      invariant accepted == StationsWith(here[..i], ACCEPT) && warned == StationsWith(here[..i], WARN)
      invariant navigation == Navigated(here[..i])
    {
      assert here[..i + 1] == here[..i] + [here[i]];
      RowSnoc(here[..i], here[i]);
      if here[i].verdict.ACCEPT? {
        accepted := accepted + [here[i].station];
      }
      if here[i].verdict.WARN? {
        warned := warned + [here[i].station];
      }
      if here[i].navigation {
        navigation := navigation + 1;
      }
    }
    assert here[..|here|] == here;
    row := DayRow(day, |here|, |warned|, SortBy(LexLe, accepted), navigation);
  }

  method NetworkOverlap(sessions: seq<Session>) returns (rows: seq<DayRow>, windows: seq<Window>)
    ensures |rows| == DAYS && forall day | 1 <= day <= DAYS :: rows[day - 1] == RowOf(day, OnDay(sessions, day))
    ensures Lists(windows, w => Reported(Counts(rows), w))
    ensures SortedBy(Before, windows)
  {
    hide OnDay, RowOf, SortedBy, Lists;
    var byDay := GroupByDay(sessions);
    rows := [];
    for day := 1 to 367
      invariant |rows| == day - 1 && forall d | 1 <= d < day :: rows[d - 1] == RowOf(d, OnDay(sessions, d))
    {
      var row := SumUpDay(day, if day in byDay then byDay[day] else []);
      rows := rows + [row];
    }
    windows := ExtractWindows(Counts(rows));
  }

  // ----- what a row says of the sessions

  lemma {:induction false} OnDayCounts(sessions: seq<Session>, day: int, s: Session)
    ensures multiset(OnDay(sessions, day))[s] == if s.day == day then multiset(sessions)[s] else 0
  {
    hide OnDay;
    if sessions == [] {
      NoSessions(day);
    } else {
      var front, last := sessions[..|sessions| - 1], sessions[|sessions| - 1];
      assert sessions == front + [last];
      OnDayCounts(front, day, s);
      OnDaySnoc(front, last, day);
    }
  }

  lemma {:induction false} StationsAre(here: seq<Session>, verdict: Verdict, station: string)
    ensures station in StationsWith(here, verdict) <==> exists s <- here :: s.verdict == verdict && s.station == station
  {
    if here != [] {
      var front, last := here[..|here| - 1], here[|here| - 1];
      StationsAre(front, verdict, station);
      assert here == front + [last];
    }
  }

  lemma {:induction false} AcceptedCount(sessions: seq<Session>, day: int)
    ensures |StationsWith(OnDay(sessions, day), ACCEPT)| == AcceptedOn(sessions, day)
  {
    hide OnDay, StationsWith;
    if sessions == [] {
      NoSessions(day);
    } else {
      var front, last := sessions[..|sessions| - 1], sessions[|sessions| - 1];
      assert sessions == front + [last];
      AcceptedCount(front, day);
      OnDaySnoc(front, last, day);
      if last.day == day {
        RowSnoc(OnDay(front, day), last);
      } else {
        assert OnDay(front, day) + [] == OnDay(front, day);
      }
    }
  }

  function Having(sessions: seq<Session>, day: int, has: Session -> bool): set<int> {
    set i | 0 <= i < |sessions| && sessions[i].day == day && has(sessions[i])
  }

  function Any(): Session -> bool { (s: Session) => true }

  function Warned(): Session -> bool { (s: Session) => s.verdict.WARN? }

  function WithNavigation(): Session -> bool { (s: Session) => s.navigation }

  lemma HavingSnoc(front: seq<Session>, s: Session, day: int, has: Session -> bool)
    ensures |Having(front + [s], day, has)| == |Having(front, day, has)| + if s.day == day && has(s) then 1 else 0
  {
    var all := front + [s];
    assert Having(all, day, has) == Having(front, day, has) + if s.day == day && has(s) then {|front|} else {};
  }

  lemma HavingNone(day: int, has: Session -> bool)
    ensures Having([], day, has) == {}
  {}

  /** A row counts the sessions of its day: all, those with a warning, and those with navigation. */
  lemma {:induction false} RowCounts(sessions: seq<Session>, day: int)
    ensures var row := RowOf(day, OnDay(sessions, day));
            && row.files == |Having(sessions, day, Any())| && row.warned == |Having(sessions, day, Warned())|
            && row.navigation == |Having(sessions, day, WithNavigation())|
  {
    hide OnDay, StationsWith, Navigated, Having, SortBy;
    NoSessions(day);
    HavingNone(day, Any());
    HavingNone(day, Warned());
    HavingNone(day, WithNavigation());
    if sessions != [] {
      var front, last := sessions[..|sessions| - 1], sessions[|sessions| - 1];
      assert sessions == front + [last];
      RowCounts(front, day);
      OnDaySnoc(front, last, day);
      RowSnoc(OnDay(front, day), last);
      assert OnDay(front, day) + [] == OnDay(front, day);
      HavingSnoc(front, last, day, Any());
      HavingSnoc(front, last, day, Warned());
      HavingSnoc(front, last, day, WithNavigation());
    }
  }

  /** A row lists, in order and once for each session, the stations accepted on its day. */
  lemma RowListsAccepted(sessions: seq<Session>, day: int, station: string)
    ensures var row := RowOf(day, OnDay(sessions, day));
            && |row.qualified| == AcceptedOn(sessions, day) && SortedBy(LexLe, row.qualified)
            && (station in row.qualified
                <==> exists s <- sessions :: s.day == day && s.verdict.ACCEPT? && s.station == station)
  {
    hide OnDay, StationsWith, SortedBy, SortBy;
    var here := OnDay(sessions, day);
    LexIsPreorder();
    SortBySorts(LexLe, StationsWith(here, ACCEPT));
    SameMembers(SortBy(LexLe, StationsWith(here, ACCEPT)), StationsWith(here, ACCEPT));
    AcceptedCount(sessions, day);
    StationsAre(here, ACCEPT, station);
    forall s ensures s in here <==> s in sessions && s.day == day {
      OnDayCounts(sessions, day, s);
      assert s in here <==> s in multiset(here);
      assert s in sessions <==> s in multiset(sessions);
    }
  }

  // ----- what the windows of one minimum say together

  lemma OutsideRun(counts: seq<nat>, w: Window, day: int)
    requires MaximalRun(counts, w) && !Qualifies(counts, w.minimum, day)
    ensures day < w.start || w.end < day
  {}

  lemma RunsAreApart(counts: seq<nat>, v: Window, w: Window)
    requires MaximalRun(counts, v) && MaximalRun(counts, w) && v.minimum == w.minimum && v != w
    ensures v.end + 1 < w.start || w.end + 1 < v.start
  {
    OutsideRun(counts, v, w.start - 1);
    OutsideRun(counts, v, w.end + 1);
    OutsideRun(counts, w, v.start - 1);
    OutsideRun(counts, w, v.end + 1);
  }

  function RunStart(counts: seq<nat>, minimum: int, day: int): (start: int)
    requires Qualifies(counts, minimum, day)
    ensures start <= day && AllQualify(counts, minimum, start, day) && !Qualifies(counts, minimum, start - 1)
    decreases day
  {
    if Qualifies(counts, minimum, day - 1) then RunStart(counts, minimum, day - 1) else day
  }

  function RunEnd(counts: seq<nat>, minimum: int, day: int): (end: int)
    requires Qualifies(counts, minimum, day)
    ensures day <= end && AllQualify(counts, minimum, day, end) && !Qualifies(counts, minimum, end + 1)
    decreases |counts| - day
  {
    if Qualifies(counts, minimum, day + 1) then RunEnd(counts, minimum, day + 1) else day
  }

  function RunAround(counts: seq<nat>, minimum: int, day: int): (w: Window)
    requires Qualifies(counts, minimum, day)
    ensures w.minimum == minimum && MaximalRun(counts, w) && w.Has(day)
  {
    Window(minimum, RunStart(counts, minimum, day), RunEnd(counts, minimum, day))
  }

  /** A run for more stations lies inside one for fewer. */
  lemma RunsNest(counts: seq<nat>, w: Window, fewer: int)
    requires MaximalRun(counts, w) && fewer <= w.minimum
    ensures exists v :: MaximalRun(counts, v) && v.minimum == fewer && v.start <= w.start && w.end <= v.end
  {
    assert Qualifies(counts, w.minimum, w.start);
    var v := RunAround(counts, fewer, w.start);
    OutsideRun(counts, w, v.end + 1);
  }

  function Days(w: Window): set<int> {
    set day | w.start <= day <= w.end && w.Has(day)
  }

  function Covered(windows: seq<Window>, minimum: int): set<int> {
    if windows == [] then {}
    else Covered(windows[1..], minimum) + if windows[0].minimum == minimum then Days(windows[0]) else {}
  }

  function TotalDays(windows: seq<Window>, minimum: int): int {
    if windows == [] then 0
    else TotalDays(windows[1..], minimum) + if windows[0].minimum == minimum then windows[0].Duration() else 0
  }

  function QualifyingDays(counts: seq<nat>, minimum: int): set<int> {
    set day | 1 <= day <= |counts| && Qualifies(counts, minimum, day)
  }

  lemma {:induction false} DaysCount(w: Window)
    requires w.start <= w.end + 1
    ensures |Days(w)| == w.Duration()
    decreases w.end - w.start + 1
  {
    if w.start <= w.end {
      var shorter := Window(w.minimum, w.start, w.end - 1);
      DaysCount(shorter);
      assert Days(w) == Days(shorter) + {w.end};
    } else {
      assert Days(w) == {};
    }
  }

  lemma {:induction false} CoveredIff(windows: seq<Window>, minimum: int, day: int)
    ensures day in Covered(windows, minimum)
            <==> exists w <- windows :: w.minimum == minimum && w.Has(day)
  {
    if windows != [] {
      CoveredIff(windows[1..], minimum, day);
      assert windows == [windows[0]] + windows[1..];
    }
  }

  lemma {:induction false} DisjointDaysAddUp(counts: seq<nat>, windows: seq<Window>, minimum: int)
    requires forall w <- windows :: MaximalRun(counts, w)
    requires forall w :: multiset(windows)[w] <= 1
    ensures |Covered(windows, minimum)| == TotalDays(windows, minimum)
  {
    hide MaximalRun;
    if windows != [] {
      var first, rest := windows[0], windows[1..];
      assert windows == [first] + rest;
      assert multiset(windows) == multiset{first} + multiset(rest);
      forall w ensures multiset(rest)[w] <= 1 {
        assert multiset(windows)[w] <= 1;
      }
      DisjointDaysAddUp(counts, rest, minimum);
      if first.minimum == minimum {
        assert first !in rest by {
          assert multiset(windows)[first] <= 1;
        }
        ApartFromAll(counts, first, rest);
        assert first.start <= first.end + 1 by {
          assert MaximalRun(counts, first);
          RunsStayInTheYear(counts, first);
        }
        DaysCount(first);
        assert |Covered(rest, minimum) + Days(first)| == |Covered(rest, minimum)| + |Days(first)|;
      }
    }
  }

  lemma ApartFromAll(counts: seq<nat>, first: Window, rest: seq<Window>)
    requires MaximalRun(counts, first) && first !in rest && forall w <- rest :: MaximalRun(counts, w)
    ensures Covered(rest, first.minimum) !! Days(first)
  {
    hide MaximalRun, Covered;
    forall w <- rest | w.minimum == first.minimum ensures w.end < first.start || first.end < w.start {
      RunsAreApart(counts, first, w);
    }
    forall day | day in Days(first) ensures day !in Covered(rest, first.minimum) {
      CoveredIff(rest, first.minimum, day);
    }
  }

  /** The reported windows of a minimum cover exactly its qualifying days, each once. */
  lemma WindowsPartitionTheDays(counts: seq<nat>, windows: seq<Window>, minimum: int)
    requires Lists(windows, w => Reported(counts, w)) && 1 <= minimum < 9
    ensures Covered(windows, minimum) == QualifyingDays(counts, minimum)
    ensures TotalDays(windows, minimum) == |QualifyingDays(counts, minimum)|
  {
    hide MaximalRun, Covered, TotalDays;
    forall w ensures w in windows <==> Reported(counts, w) {
      ListsAt(windows, w => Reported(counts, w), w);
    }
    forall day ensures day in Covered(windows, minimum) <==> day in QualifyingDays(counts, minimum) {
      CoveredIff(windows, minimum, day);
      if Qualifies(counts, minimum, day) {
        assert RunAround(counts, minimum, day) in windows;
      }
      forall w <- windows | w.minimum == minimum && w.Has(day) ensures Qualifies(counts, minimum, day) {
        DayOfRun(counts, w, day);
      }
    }
    DisjointDaysAddUp(counts, windows, minimum);
  }

  lemma DayOfRun(counts: seq<nat>, w: Window, day: int)
    requires MaximalRun(counts, w) && w.Has(day)
    ensures Qualifies(counts, w.minimum, day)
  {}
}
