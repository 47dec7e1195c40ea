/**
 * Reading the body of a RINEX 2 observation file (Table A2 of the RINEX 2.11 specification) by
 * line counts: an epoch line announces how many satellites or event records follow it.
 */
module RinexBody {
  import opened Numbers
  import opened Text
  import opened Wire

  // ----- text

  /** A slice clipped to the text. */
  function Cut(s: string, from: nat, to: nat): string
    requires from <= to
  {
    if |s| <= from then "" else if |s| <= to then s[from..] else s[from..to]
  }

  function PadTo(s: string, width: nat): (r: string)
    ensures |r| >= width && s <= r
  {
    if |s| >= width then s else s + seq(width - |s|, _ => ' ')
  }

  predicate AllDigits(s: string) { s != "" && forall c <- s :: IsDigit(c) }

  function StripNewlines(s: string): string {
    if s != "" && s[|s| - 1] == '\n' then StripNewlines(s[..|s| - 1]) else s
  }

  function Digits(s: string): nat
    requires forall c <- s :: IsDigit(c)
  {
    if s == "" then 0
    else
      var c := s[|s| - 1];
      assert c in s && IsDigit(c);
      10 * Digits(s[..|s| - 1]) + (c - '0') as nat
  }

  /** An optionally signed decimal number with white space around it. */
  function ParseInt(s: string): Option<int> {
    var t := Strip(s);
    if AllDigits(t) then Some(Digits(t))
    else if t != "" && t[0] == '-' && AllDigits(t[1..]) then Some(-(Digits(t[1..]) as int))
    else if t != "" && t[0] == '+' && AllDigits(t[1..]) then Some(Digits(t[1..]))
    else None
  }

  // ----- the epoch line

  datatype Epoch = Epoch(year: int, month: int, day: int, hour: int, minute: int, second: int, micro: int)

  predicate Leap(year: int) { year % 4 == 0 && (year % 100 != 0 || year % 400 == 0) }

  function DaysIn(year: int, month: int): int {
    if month == 2 then (if Leap(year) then 29 else 28)
    else if month in {4, 6, 9, 11} then 30 else 31
  }

  predicate ValidEpoch(e: Epoch) {
    && 1 <= e.month <= 12 && 1 <= e.day <= DaysIn(e.year, e.month)
    && 0 <= e.hour < 24 && 0 <= e.minute < 60 && 0 <= e.second < 60 && 0 <= e.micro < 1000000
  }

  function Truncate(x: real): int { if x >= 0.0 then x.Floor else -(-x).Floor }

  predicate EpochColumns(line: string) {
    && |line| >= 32
    && (forall i <- [0, 3, 6, 9, 12, 26, 27, 29] :: line[i] == ' ')
    && AllDigits(line[1..3]) && IsDigit(line[28]) && AllDigits(Strip(line[30..32]))
  }

  /** How the seconds field becomes a number is left to the caller: any decimal reader will do. */
  datatype Reader = Reader(seconds: string -> Option<real>, types: seq<string>)

  function FullYear(line: string): int
    requires EpochColumns(line)
  {
    var short := Digits(line[1..3]);
    if short < 80 then short + 2000 else short + 1900
  }

  function EpochOf(line: string, month: int, day: int, hour: int, minute: int, seconds: real): Epoch
    requires EpochColumns(line)
  {
    var whole := Truncate(seconds);
    Epoch(FullYear(line), month, day, hour, minute, whole, Round((seconds - whole as real) * 1000000.0))
  }

  /** The epoch and flag of an epoch line; anything that is not one is None. */
  function ParseEpoch(rd: Reader, line: string): (r: Option<(Epoch, nat)>)
    ensures r.Some? ==> EpochColumns(line)
  {
    if !EpochColumns(line) then None
    else
      match (ParseInt(line[4..6]), ParseInt(line[7..9]), ParseInt(line[10..12]), ParseInt(line[13..15]), rd.seconds(line[15..26]))
      case (Some(month), Some(day), Some(hour), Some(minute), Some(seconds)) =>
        var e := EpochOf(line, month, day, hour, minute, seconds);
        if ValidEpoch(e) then Some((e, Digits(line[28..29]))) else None
      case _ => None
  }

  function RecordCount(line: string): Option<int> { ParseInt(Cut(line, 29, 32)) }

  function SatelliteAt(content: string, i: nat): string {
    Upper(Strip(Cut(content, 3 * i, 3 * i + 3)))
  }

  /** The non-blank three-column fields from column 32 on, at most twelve. */
  function SatellitesFrom(content: string, i: nat): seq<string>
    decreases 12 - i
  {
    if i >= 12 then []
    else (if Strip(Cut(content, 3 * i, 3 * i + 3)) == "" then [] else [SatelliteAt(content, i)]) + SatellitesFrom(content, i + 1)
  }

  function Satellites(line: string): seq<string> { SatellitesFrom(PadTo(Cut(line, 32, 68), 36), 0) }

  /** Lines beyond the first that the list of n satellites takes, twelve to a line. */
  function ContinuationCount(n: nat): nat { if n <= 12 then 0 else (n + 11) / 12 - 1 }

  function ObservationLines(rd: Reader): nat { (|rd.types| + 4) / 5 }

  // ----- loss-of-lock indicators of one satellite

  function Joined(rows: seq<string>): string {
    if rows == [] then "" else Joined(rows[..|rows| - 1]) + PadTo(StripNewlines(rows[|rows| - 1]), 80)
  }

  function CountLliFrom(joined: string, types: seq<string>, i: nat): nat
    requires i <= |types|
    decreases |types| - i
  {
    if i == |types| then 0
    else
      var field := Cut(joined, 16 * i, 16 * i + 16);
      var counts := types[i] != "" && types[i][0] == 'L' && |field| >= 15
                    && Strip(field[..14]) != "" && IsDigit(field[14]) && field[14] != '0';
      (if counts then 1 else 0) + CountLliFrom(joined, types, i + 1)
  }

  function CountLli(rd: Reader, rows: seq<string>): nat { CountLliFrom(Joined(rows), rd.types, 0) }

  // ----- the body

  datatype Body = Body(epochs: seq<Epoch>, satellites: seq<seq<string>>, slips: nat, warnings: nat)

  datatype Result = Ok(body: Body) | ParseError

  function SatellitesOf(lines: seq<string>): seq<string> {
    if lines == [] then [] else SatellitesOf(lines[..|lines| - 1]) + Satellites(lines[|lines| - 1])
  }

  function RowCount(rd: Reader, n: nat): nat { n * ObservationLines(rd) }

  /** The indicators of n satellites whose observation lines start at `at`. */
  function SlipsOf(rd: Reader, lines: seq<string>, at: nat, n: nat): nat
    decreases n
  {
    if n == 0 then 0
    else SlipsOf(rd, lines, at, n - 1) + CountLli(rd, Rows(lines, at + RowCount(rd, n - 1), ObservationLines(rd)))
  }

  /** The k lines from `at` on. */
  function Rows(lines: seq<string>, at: nat, k: nat): seq<string> {
    if at + k <= |lines| then lines[at..at + k] else []
  }

  datatype Step = Failed | Advance(next: nat, body: Body)

  /** One normal epoch: its satellite list, then the same number of observation lines for each satellite. */
  function NormalEpoch(rd: Reader, lines: seq<string>, at: nat, body: Body, epoch: Epoch, n: nat): (step: Step)
    ensures step.Advance? ==> at < step.next <= |lines|
  {
    var first := at + 1 + ContinuationCount(n);
    var next := first + RowCount(rd, n);
    var listed := SatellitesOf(Rows(lines, at, 1 + ContinuationCount(n)));
    if first > |lines| || |listed| < n || next > |lines| then Failed
    else
      Advance(next, Body(body.epochs + [epoch], body.satellites + [listed[..n]],
                         body.slips + SlipsOf(rd, lines, first, n), body.warnings))
  }

  function StepAt(rd: Reader, lines: seq<string>, at: nat, body: Body): (step: Step)
    requires at < |lines|
    ensures step.Advance? ==> at < step.next <= |lines|
  {
    var line := lines[at];
    match ParseEpoch(rd, line)
    case None => Advance(at + 1, if Strip(line) == "" then body else body.(warnings := body.warnings + 1))
    case Some((epoch, flag)) =>
      var count := RecordCount(line);
      if count.None? || count.value < 0 then Failed
      else if flag == 0 || flag == 1 then NormalEpoch(rd, lines, at, body, epoch, count.value)
      else if at + 1 + count.value > |lines| then Failed
      else Advance(at + 1 + count.value, body)
  }

  function ReadFrom(rd: Reader, lines: seq<string>, at: nat, body: Body): Result
    requires at <= |lines|
    decreases |lines| - at
  {
    if at == |lines| then Ok(body)
    else
      match StepAt(rd, lines, at, body)
      case Failed => ParseError
      case Advance(next, after) => ReadFrom(rd, lines, next, after)
  }

  const EMPTY := Body([], [], 0, 0)

  /** The whole body; a file without a normal epoch is refused. */
  function ReadBody(rd: Reader, lines: seq<string>): Result {
    match ReadFrom(rd, lines, 0, EMPTY)
    case Ok(body) => if body.epochs == [] then ParseError else Ok(body)
    case ParseError => ParseError
  }

  // ----- the reader as it consumes its lines

  class LineReader {
    const rd: Reader
    const lines: seq<string>
    var at: nat

    constructor (rd: Reader, lines: seq<string>)
      ensures this.rd == rd && this.lines == lines && at == 0
    {
      this.rd, this.lines, at := rd, lines, 0;
    }

    method Next() returns (line: Option<string>)
      requires at <= |lines|
      modifies this
      ensures at <= |lines|
      ensures if old(at) < |lines| then line == Some(lines[old(at)]) && at == old(at) + 1 else line == None && at == old(at)
    {
      if at == |lines| {
        return None;
      }
      line := Some(lines[at]);
      at := at + 1;
    }

    method Consume(count: nat) returns (ok: bool)
      requires at <= |lines|
      modifies this
      ensures old(at) <= at <= |lines| && (ok <==> old(at) + count <= |lines|) && (ok ==> at == old(at) + count)
    {
      for i := 0 to count
        invariant at <= |lines| && at == old(at) + i
      {
        var line := Next();
        if line.None? {
          return false;
        }
      }
      return true;
    }

    /** The satellites of an epoch line and its continuation lines. */
    method ListSatellites(line: string, n: nat) returns (ids: Option<seq<string>>)
      requires 0 < at <= |lines| && line == lines[at - 1]
      modifies this
      ensures old(at) <= at <= |lines|
      ensures ids.Some? <==> old(at) + ContinuationCount(n) <= |lines|
      ensures ids.Some? ==> at == old(at) + ContinuationCount(n)
                            && ids.value == SatellitesOf(Rows(lines, old(at) - 1, 1 + ContinuationCount(n)))
    {
      hide Satellites, SatellitesOf, ContinuationCount, Rows;
      ghost var first := at - 1;
      var listed := Satellites(line);
      SatellitesSnoc(lines, first, 0);
      for i := 0 to ContinuationCount(n)
        invariant at <= |lines| && at == old(at) + i
        invariant listed == SatellitesOf(Rows(lines, first, 1 + i))
      {
        var more := Next();
        if more.None? {
          return None;
        }
        listed := listed + Satellites(more.value);
        SatellitesSnoc(lines, first, 1 + i);
      }
      return Some(listed);
    }

    method ReadRows(k: nat) returns (rows: Option<seq<string>>)
      requires at <= |lines|
      modifies this
      ensures old(at) <= at <= |lines|
      ensures rows.Some? <==> old(at) + k <= |lines|
      ensures rows.Some? ==> at == old(at) + k && rows.value == Rows(lines, old(at), k)
    {
      var read: seq<string> := [];
      for i := 0 to k
        invariant at <= |lines| && at == old(at) + i && read == lines[old(at)..at]
      {
        var row := Next();
        if row.None? {
          return None;
        }
        read := read + [row.value];
      }
      return Some(read);
    }

    method CountSlips(n: nat) returns (slips: Option<nat>)
      requires at <= |lines|
      modifies this
      ensures old(at) <= at <= |lines|
      ensures slips.Some? <==> old(at) + RowCount(rd, n) <= |lines|
      ensures slips.Some? ==> at == old(at) + RowCount(rd, n) && slips.value == SlipsOf(rd, lines, old(at), n)
    {
      hide Rows, CountLli, ObservationLines, RowCount;
      var total := 0;
      NoRows(rd);
      for i := 0 to n
        invariant at <= |lines| && at == old(at) + RowCount(rd, i)
        invariant total == SlipsOf(rd, lines, old(at), i)
      {
        RowCountSnoc(rd, i, n);
        var rows := ReadRows(ObservationLines(rd));
        if rows.None? {
          return None;
        }
        total := total + CountLli(rd, rows.value);
      }
      return Some(total);
    }

    method NormalRecord(line: string, epoch: Epoch, n: nat, body: Body) returns (after: Option<Body>)
      requires 0 < at <= |lines| && line == lines[at - 1]
      modifies this
      ensures at <= |lines| && old(at) <= at
      ensures (match after case None => Failed case Some(b) => Advance(at, b))
              == NormalEpoch(rd, lines, old(at) - 1, body, epoch, n)
    {
      hide SlipsOf, RowCount, ContinuationCount, SatellitesOf, Rows;
      var ids := ListSatellites(line, n);
      if ids.None? || |ids.value| < n {
        return None;
      }
      var slips := CountSlips(n);
      if slips.None? {
        return None;
      }
      return Some(Body(body.epochs + [epoch], body.satellites + [ids.value[..n]], body.slips + slips.value, body.warnings));
    }

    /** One turn of the reading loop. */
    method Turn(body: Body) returns (after: Option<Body>)
      requires at < |lines|
      modifies this
      ensures old(at) < at <= |lines|
      ensures (match after case None => Failed case Some(b) => Advance(at, b)) == StepAt(rd, lines, old(at), body)
    {
      hide ParseEpoch, RecordCount, NormalEpoch, Strip;
      var next := Next();
      var line := next.value;
      var parsed := ParseEpoch(rd, line);
      if parsed.None? {
        return Some(if Strip(line) == "" then body else body.(warnings := body.warnings + 1));
      }
      var (epoch, flag) := parsed.value;
      var count := RecordCount(line);
      if count.None? || count.value < 0 {
        return None;
      }
      if flag != 0 && flag != 1 {
        var ok := Consume(count.value);
        return if ok then Some(body) else None;
      }
      after := NormalRecord(line, epoch, count.value, body);
    }

    method Read() returns (result: Result)
      requires at == 0
      modifies this
      ensures result == ReadBody(rd, lines)
    {
      hide StepAt;
      var body := EMPTY;
      while at < |lines|
        invariant at <= |lines|
        invariant ReadFrom(rd, lines, at, body) == ReadFrom(rd, lines, 0, EMPTY)
        decreases |lines| - at
      {
        var after := Turn(body);
        if after.None? {
          return ParseError;
        }
        body := after.value;
      }
      return if body.epochs == [] then ParseError else Ok(body);
    }
  }

  lemma SatellitesSnoc(lines: seq<string>, from: nat, k: nat)
    requires from + k < |lines|
    ensures SatellitesOf(Rows(lines, from, k + 1))
            == (if k == 0 then [] else SatellitesOf(Rows(lines, from, k))) + Satellites(lines[from + k])
  {
    hide Satellites;
    var rows := Rows(lines, from, k + 1);
    assert rows[..|rows| - 1] == Rows(lines, from, k);
  }

  lemma NoRows(rd: Reader)
    ensures RowCount(rd, 0) == 0
  {}

  lemma RowCountSnoc(rd: Reader, i: nat, n: nat)
    requires i < n
    ensures RowCount(rd, i + 1) == RowCount(rd, i) + ObservationLines(rd) && RowCount(rd, i + 1) <= RowCount(rd, n)
  {
    var k := ObservationLines(rd);
    assert (i + 1) * k == i * k + k;
    TimesKeepsOrder(i + 1, n, k);
  }

  // ----- well-formed files are read record by record

  /** A line that opens no epoch, an event with its records, or a normal epoch. */
  datatype Record =
    | Other(line: string)
    | Event(line: string, records: seq<string>)
    | Normal(line: string, continuation: seq<string>, ids: seq<string>, observations: seq<seq<string>>)

  /**
   * The counts in the epoch line are right and the satellite list lines list the satellites.
   * Nothing is asked of the text of event records and observation lines.
   */
  predicate WellFormed(rd: Reader, r: Record) {
    var parsed := ParseEpoch(rd, r.line);
    match r
    case Other(_) => parsed.None?
    case Event(line, records) =>
      parsed.Some? && parsed.value.1 != 0 && parsed.value.1 != 1 && RecordCount(line) == Some(|records|)
    case Normal(line, continuation, ids, observations) =>
      && parsed.Some? && (parsed.value.1 == 0 || parsed.value.1 == 1)
      && RecordCount(line) == Some(|ids|) && |continuation| == ContinuationCount(|ids|)
      && SatellitesOf([line] + continuation) == ids
      && |observations| == |ids| && forall rows <- observations :: |rows| == ObservationLines(rd)
  }

  function Render(r: Record): (lines: seq<string>)
    ensures |lines| >= 1
  {
    [r.line] + match r
               case Other(_) => []
               case Event(_, records) => records
               case Normal(_, continuation, _, observations) => continuation + Concat(observations)
  }

  function RenderAll(records: seq<Record>): seq<string> {
    if records == [] then [] else Render(records[0]) + RenderAll(records[1..])
  }

  function TotalLli(rd: Reader, observations: seq<seq<string>>): nat {
    if observations == [] then 0
    else TotalLli(rd, observations[..|observations| - 1]) + CountLli(rd, observations[|observations| - 1])
  }

  function After(rd: Reader, body: Body, r: Record): Body
    requires WellFormed(rd, r)
  {
    match r
    case Other(line) => if Strip(line) == "" then body else body.(warnings := body.warnings + 1)
    case Event(_, _) => body
    case Normal(line, _, ids, observations) =>
      Body(body.epochs + [ParseEpoch(rd, line).value.0], body.satellites + [ids],
           body.slips + TotalLli(rd, observations), body.warnings)
  }

  function AfterAll(rd: Reader, body: Body, records: seq<Record>): Body
    requires forall r <- records :: WellFormed(rd, r)
    decreases |records|
  {
    if records == [] then body else AfterAll(rd, After(rd, body, records[0]), records[1..])
  }

  lemma {:induction false} ConcatLength(rd: Reader, observations: seq<seq<string>>)
    requires forall rows <- observations :: |rows| == ObservationLines(rd)
    ensures |Concat(observations)| == RowCount(rd, |observations|)
  {
    if observations != [] {
      ConcatLength(rd, observations[1..]);
      RowCountSnoc(rd, |observations| - 1, |observations|);
    } else {
      NoRows(rd);
    }
  }

  /** The part stands in the lines at the given place. */
  predicate Stands(lines: seq<string>, at: nat, part: seq<string>) {
    at + |part| <= |lines| && lines[at..at + |part|] == part
  }

  lemma StandsApart(lines: seq<string>, at: nat, a: seq<string>, b: seq<string>)
    requires Stands(lines, at, a + b)
    ensures Stands(lines, at, a) && Stands(lines, at + |a|, b)
  {
    SliceParts(lines, at, a, b);
  }

  lemma StandsFirst(lines: seq<string>, at: nat, line: string, more: seq<string>)
    requires Stands(lines, at, [line] + more)
    ensures at < |lines| && lines[at] == line
  {
    assert ([line] + more)[0] == line;
  }

  lemma StandingRows(lines: seq<string>, at: nat, part: seq<string>)
    requires Stands(lines, at, part)
    ensures Rows(lines, at, |part|) == part && at + |part| <= |lines|
  {}

  /** The blocks of lines that the reader counts off are the observations of each satellite. */
  lemma {:induction false} SlipsAreLli(rd: Reader, lines: seq<string>, at: nat, observations: seq<seq<string>>)
    requires forall rows <- observations :: |rows| == ObservationLines(rd)
    requires Stands(lines, at, Concat(observations))
    ensures SlipsOf(rd, lines, at, |observations|) == TotalLli(rd, observations)
    decreases |observations|
  {
    hide CountLli, ObservationLines, RowCount, Concat, SlipsOf, Rows, TotalLli, Stands;
    if observations == [] {
      SlipsOfNone(rd, lines, at);
    } else {
      var n := |observations| - 1;
      var front, last := observations[..n], observations[n];
      assert observations == front + [last];
      ConcatSnoc(front, last);
      ConcatLength(rd, front);
      StandsApart(lines, at, Concat(front), last);
      SlipsAreLli(rd, lines, at, front);
      TotalSnoc(rd, front, last);
      SlipsSnoc(rd, lines, at, n, last);
    }
  }

  lemma SlipsOfNone(rd: Reader, lines: seq<string>, at: nat)
    ensures SlipsOf(rd, lines, at, 0) == 0 == TotalLli(rd, [])
  {}

  lemma TotalSnoc(rd: Reader, front: seq<seq<string>>, last: seq<string>)
    ensures TotalLli(rd, front + [last]) == TotalLli(rd, front) + CountLli(rd, last)
  {
    hide CountLli;
    assert (front + [last])[..|front|] == front;
  }

  lemma SlipsSnoc(rd: Reader, lines: seq<string>, at: nat, n: nat, last: seq<string>)
    requires Stands(lines, at + RowCount(rd, n), last) && |last| == ObservationLines(rd)
    ensures SlipsOf(rd, lines, at, n + 1) == SlipsOf(rd, lines, at, n) + CountLli(rd, last)
  {
    hide CountLli, ObservationLines, RowCount, Stands, Rows;
    StandingRows(lines, at + RowCount(rd, n), last);
  }

  /** A normal epoch given the parts that its lines are read into. */
  lemma NormalEpochIs(rd: Reader, lines: seq<string>, at: nat, body: Body, epoch: Epoch, k: nat, ids: seq<string>, slips: nat)
    requires k == 1 + ContinuationCount(|ids|) && at + k + RowCount(rd, |ids|) <= |lines|
    requires SatellitesOf(Rows(lines, at, k)) == ids && SlipsOf(rd, lines, at + k, |ids|) == slips
    ensures NormalEpoch(rd, lines, at, body, epoch, |ids|)
            == Advance(at + k + RowCount(rd, |ids|),
                       Body(body.epochs + [epoch], body.satellites + [ids], body.slips + slips, body.warnings))
  {
    hide SatellitesOf, SlipsOf, RowCount, ContinuationCount, Rows;
    assert ids[..|ids|] == ids;
  }

  lemma NormalIsRead(rd: Reader, lines: seq<string>, at: nat, body: Body, epoch: Epoch, head: seq<string>,
                     ids: seq<string>, observations: seq<seq<string>>)
    requires |head| == 1 + ContinuationCount(|ids|) && SatellitesOf(head) == ids && |observations| == |ids|
    requires forall rows <- observations :: |rows| == ObservationLines(rd)
    requires Stands(lines, at, head) && Stands(lines, at + |head|, Concat(observations))
    ensures NormalEpoch(rd, lines, at, body, epoch, |ids|)
            == Advance(at + |head| + |Concat(observations)|,
                       Body(body.epochs + [epoch], body.satellites + [ids],
                            body.slips + TotalLli(rd, observations), body.warnings))
  {
    hide SatellitesOf, SlipsOf, TotalLli, RowCount, ContinuationCount, ObservationLines, Concat, NormalEpoch, Stands, Rows;
    ConcatLength(rd, observations);
    SlipsAreLli(rd, lines, at + |head|, observations);
    StandingRows(lines, at, head);
    StandingRows(lines, at + |head|, Concat(observations));
    NormalEpochIs(rd, lines, at, body, epoch, |head|, ids, TotalLli(rd, observations));
  }

  lemma StepIsNormal(rd: Reader, lines: seq<string>, at: nat, body: Body, n: nat)
    requires at < |lines| && ParseEpoch(rd, lines[at]).Some? && RecordCount(lines[at]) == Some(n)
    requires ParseEpoch(rd, lines[at]).value.1 == 0 || ParseEpoch(rd, lines[at]).value.1 == 1
    ensures StepAt(rd, lines, at, body) == NormalEpoch(rd, lines, at, body, ParseEpoch(rd, lines[at]).value.0, n)
  {
    hide ParseEpoch, RecordCount, NormalEpoch, Strip;
  }

  lemma RenderNormal(r: Record)
    requires r.Normal?
    ensures Render(r) == ([r.line] + r.continuation) + Concat(r.observations)
  {
    hide Concat;
  }

  lemma AfterNormal(rd: Reader, body: Body, r: Record)
    requires r.Normal? && WellFormed(rd, r)
    ensures After(rd, body, r)
            == Body(body.epochs + [ParseEpoch(rd, r.line).value.0], body.satellites + [r.ids],
                    body.slips + TotalLli(rd, r.observations), body.warnings)
  {
    hide ParseEpoch, RecordCount, SatellitesOf, TotalLli, ContinuationCount, ObservationLines;
  }

  lemma StepReadsNormal(rd: Reader, lines: seq<string>, at: nat, body: Body, r: Record)
    requires r.Normal? && WellFormed(rd, r) && Stands(lines, at, Render(r))
    ensures at < |lines| && StepAt(rd, lines, at, body) == Advance(at + |Render(r)|, After(rd, body, r))
  {
    hide ParseEpoch, RecordCount, SatellitesOf, NormalEpoch, TotalLli, ContinuationCount, ObservationLines, Concat, Rows,
         StepAt, Render, After, Stands;
    var head := [r.line] + r.continuation;
    var tail := Concat(r.observations);
    RenderNormal(r);
    AfterNormal(rd, body, r);
    StandsApart(lines, at, head, tail);
    StandsFirst(lines, at, r.line, r.continuation);
    NormalIsRead(rd, lines, at, body, ParseEpoch(rd, r.line).value.0, head, r.ids, r.observations);
    StepIsNormal(rd, lines, at, body, |r.ids|);
  }

  lemma StepReads(rd: Reader, lines: seq<string>, at: nat, body: Body, r: Record)
    requires WellFormed(rd, r)
    requires at + |Render(r)| <= |lines| && lines[at..at + |Render(r)|] == Render(r)
    ensures StepAt(rd, lines, at, body) == Advance(at + |Render(r)|, After(rd, body, r))
  {
    hide ParseEpoch, RecordCount, Satellites, NormalEpoch, Strip;
    if r.Normal? {
      StepReadsNormal(rd, lines, at, body, r);
    } else {
      assert lines[at] == Render(r)[0];
    }
  }

  lemma {:induction false} RecordsAreRead(rd: Reader, lines: seq<string>, at: nat, body: Body, records: seq<Record>)
    requires forall r <- records :: WellFormed(rd, r)
    requires at <= |lines| && lines[at..] == RenderAll(records)
    ensures ReadFrom(rd, lines, at, body) == Ok(AfterAll(rd, body, records))
    decreases |records|
  {
    hide WellFormed, Render, After, StepAt;
    if records != [] {
      var r := records[0];
      var k := |Render(r)|;
      assert lines[at..][..k] == Render(r) && lines[at..][k..] == RenderAll(records[1..]);
      assert lines[at..at + k] == Render(r) && lines[at + k..] == RenderAll(records[1..]);
      StepReads(rd, lines, at, body, r);
      RecordsAreRead(rd, lines, at + k, After(rd, body, r), records[1..]);
    }
  }

  /**
   * Whatever the observation lines and event records say, even text that looks like an epoch line,
   * a well-formed body is read without error and gives exactly its epochs and satellite lists; it is
   * refused only when it holds no normal epoch at all.
   */
  lemma BodySynchronisation(rd: Reader, records: seq<Record>)
    requires forall r <- records :: WellFormed(rd, r)
    ensures var body := AfterAll(rd, EMPTY, records);
            && ReadBody(rd, RenderAll(records)) == (if EpochsOf(rd, records) == [] then ParseError else Ok(body))
            && body.epochs == EpochsOf(rd, records) && body.satellites == ListsOf(records)
  {
    hide WellFormed, AfterAll, ParseEpoch, RenderAll, ReadFrom, ListsOf;
    RecordsAreRead(rd, RenderAll(records), 0, EMPTY, records);
    AfterAllCollects(rd, EMPTY, records);
  }

  function EpochsOf(rd: Reader, records: seq<Record>): seq<Epoch>
    requires forall r <- records :: WellFormed(rd, r)
  {
    if records == [] then []
    else
      assert WellFormed(rd, records[0]);
      (if records[0].Normal? then [ParseEpoch(rd, records[0].line).value.0] else []) + EpochsOf(rd, records[1..])
  }

  function ListsOf(records: seq<Record>): seq<seq<string>> {
    if records == [] then []
    else (if records[0].Normal? then [records[0].ids] else []) + ListsOf(records[1..])
  }

  lemma AfterCollects(rd: Reader, body: Body, r: Record)
    requires WellFormed(rd, r)
    ensures After(rd, body, r).epochs == body.epochs + if r.Normal? then [ParseEpoch(rd, r.line).value.0] else []
    ensures After(rd, body, r).satellites == body.satellites + if r.Normal? then [r.ids] else []
  {
    hide ParseEpoch, RecordCount, SatellitesOf, TotalLli, Strip;
  }

  lemma AfterAllStep(rd: Reader, body: Body, records: seq<Record>)
    requires records != [] && forall r <- records :: WellFormed(rd, r)
    ensures WellFormed(rd, records[0]) && forall r <- records[1..] :: WellFormed(rd, r)
    ensures AfterAll(rd, body, records) == AfterAll(rd, After(rd, body, records[0]), records[1..])
    ensures EpochsOf(rd, records)
            == (if records[0].Normal? then [ParseEpoch(rd, records[0].line).value.0] else []) + EpochsOf(rd, records[1..])
    ensures ListsOf(records) == (if records[0].Normal? then [records[0].ids] else []) + ListsOf(records[1..])
  {
    hide After, WellFormed, ParseEpoch;
  }

  lemma {:induction false} AfterAllCollects(rd: Reader, body: Body, records: seq<Record>)
    requires forall r <- records :: WellFormed(rd, r)
    ensures AfterAll(rd, body, records).epochs == body.epochs + EpochsOf(rd, records)
    ensures AfterAll(rd, body, records).satellites == body.satellites + ListsOf(records)
    decreases |records|
  {
    hide After, WellFormed, ParseEpoch, AfterAll, EpochsOf, ListsOf;
    if records == [] {
      NothingAfter(rd, body);
    } else {
      AfterAllStep(rd, body, records);
      AfterCollects(rd, body, records[0]);
      AfterAllCollects(rd, After(rd, body, records[0]), records[1..]);
    }
  }

  lemma NothingAfter(rd: Reader, body: Body)
    ensures AfterAll(rd, body, []) == body && EpochsOf(rd, []) == [] && ListsOf([]) == []
  {}

  // ----- an event without a time is not recognised

  /** Everything about an event line but its time: columns, an event flag and a count of n records. */
  predicate EventColumns(line: string, n: nat) {
    && |line| >= 32 && (forall i <- [0, 3, 6, 9, 12, 26, 27, 29] :: line[i] == ' ')
    && '2' <= line[28] <= '9' && AllDigits(Strip(line[30..32])) && RecordCount(line) == Some(n)
  }

  /** The time fields hold numbers that make a valid time. */
  predicate HasTime(rd: Reader, line: string)
    requires |line| >= 32
  {
    var month, day := ParseInt(line[4..6]), ParseInt(line[7..9]);
    var hour, minute := ParseInt(line[10..12]), ParseInt(line[13..15]);
    var seconds := rd.seconds(line[15..26]);
    && AllDigits(line[1..3]) && month.Some? && day.Some? && hour.Some? && minute.Some? && seconds.Some?
    && (var short := Digits(line[1..3]);
        var whole := Truncate(seconds.value);
        ValidEpoch(Epoch(if short < 80 then short + 2000 else short + 1900, month.value, day.value,
                         hour.value, minute.value, whole, Round((seconds.value - whole as real) * 1000000.0))))
  }

  lemma TimedEventIsEpoch(rd: Reader, line: string, n: nat)
    requires EventColumns(line, n)
    ensures ParseEpoch(rd, line).Some? <==> HasTime(rd, line)
    ensures ParseEpoch(rd, line).Some? ==> ParseEpoch(rd, line).value.1 >= 2
  {
    hide Strip, ValidEpoch, Truncate, Round, ParseInt;
    assert IsDigit(line[28]);
    if EpochColumns(line) {
      FlagDigit(line[28..29]);
    }
  }

  lemma FlagDigit(s: string)
    requires |s| == 1 && '2' <= s[0] <= '9'
    ensures (forall c <- s :: IsDigit(c)) && Digits(s) >= 2
  {
    assert s[..0] == "";
  }

  lemma {:induction false} StripLeftKeeps(s: string, i: nat) returns (j: nat)
    requires i < |s| && !IsSpace(s[i])
    ensures j < |StripLeft(s)| && !IsSpace(StripLeft(s)[j])
  {
    hide IsSpace;
    if IsSpace(s[0]) {
      j := StripLeftKeeps(s[1..], i - 1);
    } else {
      j := i;
    }
  }

  lemma {:induction false} StripRightKeeps(s: string, i: nat)
    requires i < |s| && !IsSpace(s[i])
    ensures StripRight(s) != ""
  {
    hide IsSpace;
    if IsSpace(s[|s| - 1]) {
      StripRightKeeps(s[..|s| - 1], i);
    }
  }

  lemma NotBlank(s: string, i: nat)
    requires i < |s| && !IsSpace(s[i])
    ensures Strip(s) != ""
  {
    hide IsSpace, StripRight;
    var j := StripLeftKeeps(s, i);
    StripRightKeeps(StripLeft(s), j);
  }

  /** The records of an event are passed over exactly when its line carries a valid time. */
  lemma EventIsSkippedIff(rd: Reader, lines: seq<string>, at: nat, body: Body, n: nat)
    requires at < |lines| && EventColumns(lines[at], n) && at + 1 + n <= |lines|
    ensures StepAt(rd, lines, at, body) == Advance(at + 1 + n, body) <==> HasTime(rd, lines[at])
    ensures !HasTime(rd, lines[at]) ==> StepAt(rd, lines, at, body) == Advance(at + 1, body.(warnings := body.warnings + 1))
  {
    hide ParseEpoch, HasTime, Strip, NormalEpoch, RecordCount;
    TimedEventIsEpoch(rd, lines[at], n);
    NotBlank(lines[at], 28);
  }

  const UNTIMED_EVENT := "                            4  1"
  const MIDNIGHT := " 24  1 25  0  0  0.0000000  0  0"
  const ALMOST_ONE := " 24  1 25  0  0 59.9999999  0  0"

  lemma {:induction false} OneDigit(c: char)
    requires IsDigit(c)
    ensures AllDigits([c]) && Digits([c]) == (c - '0') as int
  {
    assert [c][..0] == "";
  }

  lemma {:induction false} TwoDigits(a: char, b: char)
    requires IsDigit(a) && IsDigit(b)
    ensures AllDigits([a, b]) && Digits([a, b]) == 10 * (a - '0') as int + (b - '0') as int
  {
    OneDigit(a);
    assert [a, b][..1] == [a];
  }

  lemma DigitIsNoSpace(c: char)
    requires IsDigit(c)
    ensures !IsSpace(c) && IsSpace(' ')
  {}

  lemma {:induction false} Column2(c: char)
    requires IsDigit(c)
    ensures Strip([' ', c]) == [c] && ParseInt([' ', c]) == Some((c - '0') as int)
  {
    hide Digits, IsDigit, IsSpace;
    DigitIsNoSpace(c);
    OneDigit(c);
    assert [' ', c][1..] == [c];
    assert StripLeft([' ', c]) == StripLeft([c]) == [c];
  }

  lemma {:induction false} Column3(c: char)
    requires IsDigit(c)
    ensures ParseInt([' ', ' ', c]) == Some((c - '0') as int)
  {
    hide Digits, IsDigit, IsSpace;
    DigitIsNoSpace(c);
    OneDigit(c);
    assert [' ', ' ', c][1..] == [' ', c] && [' ', c][1..] == [c];
    assert StripLeft([' ', ' ', c]) == StripLeft([' ', c]) == StripLeft([c]) == [c];
  }

  lemma {:induction false} Number2(a: char, b: char)
    requires IsDigit(a) && IsDigit(b)
    ensures ParseInt([a, b]) == Some(10 * (a - '0') as int + (b - '0') as int)
  {
    hide Digits, IsDigit, IsSpace;
    DigitIsNoSpace(a);
    DigitIsNoSpace(b);
    TwoDigits(a, b);
  }

  /** The fields that both lines share: 25 January 2024, midnight, flag 0, no satellites. */
  predicate JanuaryMidnight(line: string) {
    && |line| == 32 && line[..15] == " 24  1 25  0  0" && line[26..] == "  0  0"
  }

  /** The same, column by column. */
  predicate JanuaryText(line: string) {
    && |line| == 32
    && line[0] == ' ' && line[1] == '2' && line[2] == '4' && line[3] == ' ' && line[4] == ' ' && line[5] == '1'
    && line[6] == ' ' && line[7] == '2' && line[8] == '5' && line[9] == ' ' && line[10] == ' ' && line[11] == '0'
    && line[12] == ' ' && line[13] == ' ' && line[14] == '0' && line[26] == ' ' && line[27] == ' ' && line[28] == '0'
    && line[29] == ' ' && line[30] == ' ' && line[31] == '0'
  }

  lemma {:induction false} JanuaryColumns(line: string)
    requires JanuaryMidnight(line)
    ensures JanuaryText(line)
  {
    var s, e := " 24  1 25  0  0", "  0  0";
    forall i | 0 <= i < 15 ensures line[i] == s[i] {
      assert line[..15][i] == line[i];
    }
    forall i | 0 <= i < 6 ensures line[26 + i] == e[i] {
      assert line[26..][i] == line[26 + i];
    }
    assert line[26 + 0] == ' ' && line[26 + 1] == ' ' && line[26 + 2] == '0';
    assert line[26 + 3] == ' ' && line[26 + 4] == ' ' && line[26 + 5] == '0';
  }

  lemma {:induction false} Separated(line: string)
    requires |line| >= 32 && line[0] == line[3] == line[6] == line[9] == line[12] == ' '
    requires line[26] == line[27] == line[29] == ' '
    ensures forall i <- [0, 3, 6, 9, 12, 26, 27, 29] :: line[i] == ' '
  {}

  lemma {:induction false} JanuaryHead(line: string)
    requires JanuaryText(line)
    ensures EpochColumns(line) && FullYear(line) == 2024 && RecordCount(line) == Some(0) && Digits(line[28..29]) == 0
  {
    hide ParseInt, Digits, Strip;
    Separated(line);
    TwoColumns(line, 1);
    TwoColumns(line, 30);
    CountColumns(line);
    TwoDigits('2', '4');
    Column2('0');
    Column3('0');
    OneDigit('0');
  }

  lemma {:induction false} JanuaryTime(line: string)
    requires JanuaryText(line)
    ensures ParseInt(line[4..6]) == Some(1) && ParseInt(line[7..9]) == Some(25)
    ensures ParseInt(line[10..12]) == Some(0) && ParseInt(line[13..15]) == Some(0)
  {
    hide ParseInt, Digits, Strip;
    TwoColumns(line, 4);
    TwoColumns(line, 7);
    TwoColumns(line, 10);
    TwoColumns(line, 13);
    Number2('2', '5');
    Column2('1');
    Column2('0');
  }

  lemma {:induction false} JanuaryFields(line: string)
    requires JanuaryMidnight(line)
    ensures EpochColumns(line) && FullYear(line) == 2024 && RecordCount(line) == Some(0) && Digits(line[28..29]) == 0
    ensures ParseInt(line[4..6]) == Some(1) && ParseInt(line[7..9]) == Some(25)
    ensures ParseInt(line[10..12]) == Some(0) && ParseInt(line[13..15]) == Some(0)
  {
    hide ParseInt, Digits, EpochColumns, FullYear, RecordCount;
    JanuaryColumns(line);
    JanuaryHead(line);
    JanuaryTime(line);
  }

  lemma {:induction false} TwoColumns(line: string, i: nat)
    requires i + 2 <= |line|
    ensures line[i..i + 2] == [line[i], line[i + 1]]
  {}

  lemma {:induction false} CountColumns(line: string)
    requires |line| == 32
    ensures Cut(line, 29, 32) == [line[29], line[30], line[31]] && line[28..29] == [line[28]]
  {}

  /**
   * A comment event with blank time fields: its one record, which looks like an epoch line, is taken
   * for an epoch.
   */
  lemma {:induction false} UntimedEventDesynchronises(rd: Reader)
    requires rd.seconds("  0.0000000") == Some(0.0)
    ensures EventColumns(UNTIMED_EVENT, 1)
    ensures ReadBody(rd, [UNTIMED_EVENT, MIDNIGHT]) == Ok(Body([Epoch(2024, 1, 25, 0, 0, 0, 0)], [[]], 0, 1))
  {
    hide ParseEpoch, RecordCount, NormalEpoch, Strip, EventColumns, HasTime;
    UntimedEvent(rd);
    MidnightIsEpoch(rd);
    var lines := [UNTIMED_EVENT, MIDNIGHT];
    var warned := EMPTY.(warnings := 1);
    EventIsSkippedIff(rd, lines, 0, EMPTY, 1);
    var epoch := Epoch(2024, 1, 25, 0, 0, 0, 0);
    EmptyEpochIsRead(rd, lines, 1, warned, epoch);
    assert warned.epochs + [epoch] == [epoch] && warned.satellites + [[]] == [[]];
    var after := Body([epoch], [[]], 0, 1);
    assert StepAt(rd, lines, 1, warned) == Advance(2, after);
    OneStep(rd, lines, 0, EMPTY, 1, warned);
    OneStep(rd, lines, 1, warned, 2, after);
    assert ReadFrom(rd, lines, 2, after) == Ok(after);
  }

  lemma OneStep(rd: Reader, lines: seq<string>, at: nat, body: Body, next: nat, after: Body)
    requires at < |lines| && StepAt(rd, lines, at, body) == Advance(next, after)
    ensures ReadFrom(rd, lines, at, body) == ReadFrom(rd, lines, next, after)
  {
    hide StepAt;
  }

  lemma {:induction false} UntimedColumns()
    ensures |UNTIMED_EVENT| == 32 && forall i :: 0 <= i < 28 ==> UNTIMED_EVENT[i] == ' '
    ensures UNTIMED_EVENT[28] == '4' && UNTIMED_EVENT[29] == UNTIMED_EVENT[30] == ' ' && UNTIMED_EVENT[31] == '1'
  {}

  lemma {:induction false} UntimedFlag(line: string)
    requires |line| == 32 && forall i :: 0 <= i < 28 ==> line[i] == ' '
    requires line[28] == '4' && line[29] == line[30] == ' ' && line[31] == '1'
    ensures EventColumns(line, 1)
  {
    hide ParseInt, Strip, Digits;
    Separated(line);
    TwoColumns(line, 30);
    CountColumns(line);
    Column2('1');
    Column3('1');
    OneDigit('1');
  }

  lemma {:induction false} Untimed(rd: Reader, line: string)
    requires |line| == 32 && line[1] == ' '
    ensures !HasTime(rd, line)
  {
    hide ParseInt, Digits, ValidEpoch;
    TwoColumns(line, 1);
    assert !IsDigit(' ') && ' ' in [line[1], line[2]];
  }

  lemma {:induction false} UntimedEvent(rd: Reader)
    ensures EventColumns(UNTIMED_EVENT, 1) && !HasTime(rd, UNTIMED_EVENT)
  {
    hide EventColumns, HasTime;
    UntimedColumns();
    UntimedFlag(UNTIMED_EVENT);
    Untimed(rd, UNTIMED_EVENT);
  }

  lemma {:induction false} MidnightIsEpoch(rd: Reader)
    requires rd.seconds("  0.0000000") == Some(0.0)
    ensures ParseEpoch(rd, MIDNIGHT) == Some((Epoch(2024, 1, 25, 0, 0, 0, 0), 0)) && RecordCount(MIDNIGHT) == Some(0)
  {
    hide ParseInt, Strip, Digits, EpochColumns, FullYear, RecordCount;
    assert MIDNIGHT[15..26] == "  0.0000000";
    JanuaryFields(MIDNIGHT);
    assert Round(0.0) == 0;
  }

  /** Seconds of 59.9999999 round up to sixty million microseconds: the line opens no epoch. */
  lemma {:induction false} AlmostOneIsRefused(rd: Reader)
    requires rd.seconds(" 59.9999999") == Some(59.9999999)
    ensures EpochColumns(ALMOST_ONE) && ParseEpoch(rd, ALMOST_ONE).None?
  {
    hide ParseInt, Strip, Digits, EpochColumns, FullYear, RecordCount, ParseEpoch;
    assert ALMOST_ONE[15..26] == " 59.9999999";
    JanuaryFields(ALMOST_ONE);
    assert (59.9999999 as real).Floor == 59;
    SecondsAcceptedIff(rd, ALMOST_ONE, 1, 25, 0, 0, 59.9999999);
  }

  lemma EmptyEpochIsRead(rd: Reader, lines: seq<string>, at: nat, body: Body, epoch: Epoch)
    requires at < |lines|
    ensures NormalEpoch(rd, lines, at, body, epoch, 0)
            == Advance(at + 1, Body(body.epochs + [epoch], body.satellites + [[]], body.slips, body.warnings))
  {
    hide SatellitesOf;
    NoRows(rd);
    SlipsOfNone(rd, lines, at + 1);
    var listed := SatellitesOf(Rows(lines, at, 1));
    assert listed[..0] == [];
  }

  // ----- which seconds are accepted

  /**
   * With every other field in order, seconds in [0, 60) are accepted exactly when their fraction
   * does not round up to a whole second of microseconds.
   */
  lemma SecondsAcceptedIff(rd: Reader, line: string, month: int, day: int, hour: int, minute: int, seconds: real)
    requires EpochColumns(line)
    requires ParseInt(line[4..6]) == Some(month) && ParseInt(line[7..9]) == Some(day)
    requires ParseInt(line[10..12]) == Some(hour) && ParseInt(line[13..15]) == Some(minute)
    requires rd.seconds(line[15..26]) == Some(seconds) && 0.0 <= seconds < 60.0
    requires 1 <= month <= 12 && 1 <= day <= DaysIn(FullYear(line), month) && 0 <= hour < 24 && 0 <= minute < 60
    ensures ParseEpoch(rd, line).Some? <==> seconds - seconds.Floor as real < 0.9999995
  {
    hide ParseInt, EpochColumns, DaysIn;
    var rest := (seconds - seconds.Floor as real) * 1000000.0;
    RoundsUp(rest);
  }

  lemma RoundsUp(x: real)
    requires 0.0 <= x < 1000000.0
    ensures 0 <= Round(x) <= 1000000 && (Round(x) < 1000000 <==> x < 999999.5)
  {}

  // ----- satellite lists of any length

  /** A three-column field that is not all blank; a blank system letter is a GPS satellite. */
  predicate Field(field: string) { |field| == 3 && Strip(field) != "" }

  function Cleaned(fields: seq<string>): (ids: seq<string>)
    ensures |ids| == |fields| && forall i :: 0 <= i < |fields| ==> ids[i] == Upper(Strip(fields[i]))
  {
    seq(|fields|, i requires 0 <= i < |fields| => Upper(Strip(fields[i])))
  }

  lemma ListedStep(content: string, i: nat)
    requires i < 12
    ensures SatellitesFrom(content, i)
            == (if Strip(Cut(content, 3 * i, 3 * i + 3)) == "" then [] else [Upper(Strip(Cut(content, 3 * i, 3 * i + 3)))])
               + SatellitesFrom(content, i + 1)
  {
    hide Strip, Upper, Cut;
  }

  lemma CleanedStep(fields: seq<string>, i: nat)
    requires i < |fields|
    ensures Cleaned(fields[i..]) == [Upper(Strip(fields[i]))] + Cleaned(fields[i + 1..])
  {
    hide Strip, Upper;
  }

  /** The columns behind the last field are blank. */
  lemma BlankBehind(content: string, n: nat, i: nat)
    requires |content| >= 36 && n <= i < 12 && forall j :: 3 * n <= j < |content| ==> content[j] == ' '
    ensures Strip(Cut(content, 3 * i, 3 * i + 3)) == ""
  {
    hide Strip;
    CutInside(content, i);
    StripBlank(Cut(content, 3 * i, 3 * i + 3));
  }

  lemma {:induction false} ListedFrom(content: string, fields: seq<string>, i: nat)
    requires |fields| <= 12 && i <= 12 && forall field <- fields :: Field(field)
    requires |content| >= 36 && forall k :: 0 <= k < |fields| ==> content[3 * k..3 * k + 3] == fields[k]
    requires forall j :: 3 * |fields| <= j < |content| ==> content[j] == ' '
    ensures SatellitesFrom(content, i) == if i <= |fields| then Cleaned(fields[i..]) else []
    decreases 12 - i
  {
    hide Strip, Upper, Cut, SatellitesFrom, Cleaned;
    if i == 12 {
      NoFields(content);
    } else {
      ListedFrom(content, fields, i + 1);
      ListedStep(content, i);
      if i < |fields| {
        CutInside(content, i);
        assert fields[i] in fields;
        CleanedStep(fields, i);
      } else {
        BlankBehind(content, |fields|, i);
        NoFields(content);
      }
    }
  }

  lemma NoFields(content: string)
    ensures SatellitesFrom(content, 12) == [] && Cleaned([]) == []
  {}

  lemma CutInside(content: string, i: nat)
    requires |content| >= 36 && i < 12
    ensures Cut(content, 3 * i, 3 * i + 3) == content[3 * i..3 * i + 3]
  {}

  lemma StripBlank(s: string)
    requires |s| == 3 && forall c <- s :: c == ' '
    ensures Strip(s) == ""
  {
    assert s[0] in s && s[1] in s && s[2] in s;
    assert StripLeft(s) == StripLeft(s[1..]) == StripLeft(s[1..][1..]) == StripLeft(s[1..][1..][1..]);
  }

  const BLANK := "                                "

  /** An epoch line's first 32 columns and its satellites, twelve to a line. */
  function ListLines(prefix: string, ids: seq<string>): (lines: seq<string>)
    ensures |lines| == 1 + ContinuationCount(|ids|)
    decreases |ids|
  {
    if |ids| <= 12 then [prefix + Concat(ids)]
    else [prefix + Concat(ids[..12])] + ListLines(BLANK, ids[12..])
  }

  lemma SliceBehind(id: string, rest: string, j: nat)
    requires |id| == 3 && j + 3 <= |rest|
    ensures (id + rest)[j + 3..j + 6] == rest[j..j + 3]
  {}

  lemma {:induction false} ConcatOfIds(ids: seq<string>)
    requires forall id <- ids :: |id| == 3
    ensures |Concat(ids)| == 3 * |ids|
    ensures forall k :: 0 <= k < |ids| ==> Concat(ids)[3 * k..3 * k + 3] == ids[k]
  {
    if ids != [] {
      ConcatOfIds(ids[1..]);
      var id, rest := ids[0], Concat(ids[1..]);
      assert Concat(ids) == id + rest && (id + rest)[..3] == id;
      assert forall k | 0 <= k < |ids| - 1 :: ids[1..][k] == ids[k + 1];
      forall k | 0 <= k < |ids| ensures (id + rest)[3 * k..3 * k + 3] == ids[k] {
        if k > 0 {
          SliceBehind(id, rest, 3 * (k - 1));
          assert rest[3 * (k - 1)..3 * (k - 1) + 3] == ids[1..][k - 1];
        }
      }
    }
  }

  lemma CutAfterPrefix(prefix: string, text: string)
    requires |prefix| == 32 && |text| <= 36
    ensures Cut(prefix + text, 32, 68) == text
  {}

  lemma PaddedIds(ids: seq<string>)
    requires |ids| <= 12 && forall id <- ids :: |id| == 3
    ensures var content := PadTo(Concat(ids), 36);
            && |Concat(ids)| <= 36 && |content| == 36
            && (forall k :: 0 <= k < |ids| ==> content[3 * k..3 * k + 3] == ids[k])
            && forall j :: 3 * |ids| <= j < |content| ==> content[j] == ' '
  {
    hide Concat;
    ConcatOfIds(ids);
    var content := PadTo(Concat(ids), 36);
    forall k | 0 <= k < |ids| ensures content[3 * k..3 * k + 3] == ids[k] {
      assert content[3 * k..3 * k + 3] == Concat(ids)[3 * k..3 * k + 3];
    }
  }

  lemma LineListsIds(prefix: string, fields: seq<string>)
    requires |prefix| == 32 && |fields| <= 12 && forall field <- fields :: Field(field)
    ensures Satellites(prefix + Concat(fields)) == Cleaned(fields)
  {
    hide SatellitesFrom, Concat, Cut, PadTo, Upper, IsSpace, Strip;
    PaddedIds(fields);
    CutAfterPrefix(prefix, Concat(fields));
    ListedFrom(PadTo(Concat(fields), 36), fields, 0);
    assert fields[0..] == fields;
  }

  lemma SatellitesOfMore(lines: seq<string>, line: string)
    ensures SatellitesOf(lines + [line]) == SatellitesOf(lines) + Satellites(line)
  {
    hide Satellites;
    assert (lines + [line])[..|lines|] == lines;
  }

  lemma SatellitesOfNone()
    ensures SatellitesOf([]) == []
  {}

  lemma {:induction false} SatellitesCons(line: string, rest: seq<string>)
    ensures SatellitesOf([line] + rest) == Satellites(line) + SatellitesOf(rest)
    decreases |rest|
  {
    hide Satellites, SatellitesOf;
    SatellitesOfNone();
    if rest == [] {
      SatellitesOfMore([], line);
      assert [line] + rest == [] + [line];
    } else {
      var front, last := rest[..|rest| - 1], rest[|rest| - 1];
      assert rest == front + [last] && [line] + rest == [line] + front + [last];
      SatellitesCons(line, front);
      SatellitesOfMore(front, last);
      SatellitesOfMore([line] + front, last);
    }
  }

  /** Fields listed twelve to a line are read as they are, trimmed and in capitals. */
  lemma {:induction false} ListLinesListIds(prefix: string, fields: seq<string>)
    requires |prefix| == 32 && forall field <- fields :: Field(field)
    ensures SatellitesOf(ListLines(prefix, fields)) == Cleaned(fields)
    decreases |fields|
  {
    hide Satellites, Field, Strip, Upper;
    if |fields| <= 12 {
      LineListsIds(prefix, fields);
      SatellitesCons(prefix + Concat(fields), []);
      assert [prefix + Concat(fields)] + [] == [prefix + Concat(fields)];
    } else {
      LineListsIds(prefix, fields[..12]);
      ListLinesListIds(BLANK, fields[12..]);
      SatellitesCons(prefix + Concat(fields[..12]), ListLines(BLANK, fields[12..]));
      assert Cleaned(fields[..12]) + Cleaned(fields[12..]) == Cleaned(fields);
    }
  }

  lemma PrefixDecides(rd: Reader, prefix: string, rest: string)
    requires |prefix| == 32
    ensures ParseEpoch(rd, prefix + rest) == ParseEpoch(rd, prefix)
    ensures RecordCount(prefix + rest) == RecordCount(prefix)
  {
    hide ParseInt, DaysIn, Truncate, Round, ValidEpoch, Strip;
    var line := prefix + rest;
    assert line[1..3] == prefix[1..3] && line[4..6] == prefix[4..6] && line[7..9] == prefix[7..9];
    assert line[10..12] == prefix[10..12] && line[13..15] == prefix[13..15] && line[15..26] == prefix[15..26];
    assert line[28..29] == prefix[28..29] && line[30..32] == prefix[30..32];
    assert Cut(line, 29, 32) == Cut(prefix, 29, 32);
  }

  /** Any number of satellites, twelve to a line, with any observation text, makes a well-formed record. */
  lemma ListedEpochIsWellFormed(rd: Reader, prefix: string, fields: seq<string>, observations: seq<seq<string>>)
    requires |prefix| == 32 && ParseEpoch(rd, prefix).Some? && ParseEpoch(rd, prefix).value.1 in {0, 1}
    requires RecordCount(prefix) == Some(|fields|) && forall field <- fields :: Field(field)
    requires |observations| == |fields| && forall rows <- observations :: |rows| == ObservationLines(rd)
    ensures var lines := ListLines(prefix, fields);
            WellFormed(rd, Normal(lines[0], lines[1..], Cleaned(fields), observations))
  {
    hide ParseEpoch, RecordCount, SatellitesOf, Field, Strip, Upper;
    var lines := ListLines(prefix, fields);
    PrefixDecides(rd, prefix, Concat(if |fields| <= 12 then fields else fields[..12]));
    ListLinesListIds(prefix, fields);
    assert [lines[0]] + lines[1..] == lines;
  }

  /** Line ends are cut off and nothing else. */
  lemma {:induction false} StripNewlinesIs(s: string) returns (n: nat)
    ensures n <= |s| && StripNewlines(s) == s[..n] && (forall i :: n <= i < |s| ==> s[i] == '\n')
    ensures n > 0 ==> s[n - 1] != '\n'
  {
    n := |s|;
    if s != "" && s[|s| - 1] == '\n' {
      n := StripNewlinesIs(s[..|s| - 1]);
      assert s[..|s| - 1][..n] == s[..n];
    } else {
      assert s[..n] == s;
    }
  }

  /** A number may have a sign. */
  lemma {:induction false} SignIsRead(sign: char, digits: string)
    requires AllDigits(digits) && (sign == '-' || sign == '+')
    ensures ParseInt([sign] + digits) == Some(if sign == '-' then -(Digits(digits) as int) else Digits(digits))
    ensures ParseInt(digits) == Some(Digits(digits))
  {
    hide Digits;
    var s := [sign] + digits;
    assert s[0] == sign && s[1..] == digits && !IsDigit(sign) && sign in s;
    var last := digits[|digits| - 1];
    assert last in digits && s[|s| - 1] == last && digits[0] in digits;
    DigitIsNoSpace(last);
    DigitIsNoSpace(digits[0]);
  }

  // ----- which indicators are counted

  /** The character in a column of an observation line; a missing one is blank. */
  function Column(rows: seq<string>, row: nat, column: nat): char {
    if row < |rows| && column < |StripNewlines(rows[row])| then StripNewlines(rows[row])[column] else ' '
  }

  /** Observation k, five to a line of sixteen columns each, is of a phase, has a value and a non-zero indicator. */
  predicate LosesLock(rows: seq<string>, types: seq<string>, k: nat)
    requires k < |types|
  {
    && types[k] != "" && types[k][0] == 'L'
    && (exists c :: 16 * (k % 5) <= c < 16 * (k % 5) + 14 && !IsSpace(Column(rows, k / 5, c)))
    && '1' <= Column(rows, k / 5, 16 * (k % 5) + 14) <= '9'
  }

  lemma {:induction false} JoinedColumns(rows: seq<string>)
    requires forall row <- rows :: |StripNewlines(row)| <= 80
    ensures |Joined(rows)| == 80 * |rows|
    ensures forall r, c :: 0 <= r < |rows| && 0 <= c < 80 ==> Joined(rows)[80 * r + c] == Column(rows, r, c)
  {
    hide StripNewlines;
    if rows != [] {
      var n := |rows| - 1;
      var front, last := rows[..n], StripNewlines(rows[n]);
      JoinedColumns(front);
      assert Joined(rows) == Joined(front) + PadTo(last, 80);
      forall r, c | 0 <= r < |rows| && 0 <= c < 80 ensures Joined(rows)[80 * r + c] == Column(rows, r, c) {
        if r < n {
          assert Joined(rows)[80 * r + c] == Joined(front)[80 * r + c];
          assert Column(front, r, c) == Column(rows, r, c);
        } else {
          assert Joined(rows)[80 * r + c] == PadTo(last, 80)[c];
        }
      }
    }
  }

  lemma {:induction false} BlankIffStripped(s: string)
    ensures Strip(s) == "" <==> forall i :: 0 <= i < |s| ==> IsSpace(s[i])
  {
    hide IsSpace, StripRight;
    if i :| 0 <= i < |s| && !IsSpace(s[i]) {
      NotBlank(s, i);
    } else {
      StripsAway(s);
    }
  }

  lemma {:induction false} StripsAway(s: string)
    requires forall i :: 0 <= i < |s| ==> IsSpace(s[i])
    ensures StripLeft(s) == "" && StripRight("") == ""
  {
    hide IsSpace;
    if s != "" {
      StripsAway(s[1..]);
    }
  }

  predicate Counts(joined: string, types: seq<string>, k: nat)
    requires k < |types|
  {
    var field := Cut(joined, 16 * k, 16 * k + 16);
    types[k] != "" && types[k][0] == 'L' && |field| >= 15
    && Strip(field[..14]) != "" && IsDigit(field[14]) && field[14] != '0'
  }

  lemma FiveToALine(k: nat)
    ensures 16 * k == 80 * (k / 5) + 16 * (k % 5)
  {}

  lemma CountsIff(rows: seq<string>, types: seq<string>, k: nat)
    requires k < |types| && forall row <- rows :: |StripNewlines(row)| <= 80
    ensures Counts(Joined(rows), types, k) <==> LosesLock(rows, types, k)
  {
    hide Joined, StripNewlines, IsSpace, Strip;
    JoinedColumns(rows);
    FiveToALine(k);
    var r, first := k / 5, 16 * (k % 5);
    var field := Cut(Joined(rows), 16 * k, 16 * k + 16);
    if r < |rows| {
      assert |field| == 16;
      forall j | 0 <= j < 16 ensures field[j] == Column(rows, r, first + j) {
        assert Joined(rows)[80 * r + (first + j)] == Column(rows, r, first + j);
      }
      BlankIffStripped(field[..14]);
      forall c | first <= c < first + 14 ensures Column(rows, r, c) == field[..14][c - first] {}
    } else {
      DigitIsNoSpace('0');
    }
  }

  lemma {:induction false} CountedFrom(joined: string, types: seq<string>, i: nat)
    requires i <= |types|
    ensures CountLliFrom(joined, types, i) == |set k | i <= k < |types| && Counts(joined, types, k)|
    decreases |types| - i
  {
    hide Counts;
    var here := set k | i <= k < |types| && Counts(joined, types, k);
    if i < |types| {
      CountedFrom(joined, types, i + 1);
      CountStep(joined, types, i);
      var rest := set k | i + 1 <= k < |types| && Counts(joined, types, k);
      assert here == rest + if Counts(joined, types, i) then {i} else {};
    } else {
      assert here == {};
    }
  }

  lemma CountStep(joined: string, types: seq<string>, i: nat)
    requires i < |types|
    ensures CountLliFrom(joined, types, i)
            == (if Counts(joined, types, i) then 1 else 0) + CountLliFrom(joined, types, i + 1)
  {
    hide Strip;
  }

  /** The slips of one satellite are its phase observations with a value and an indicator from 1 to 9. */
  lemma SlipsAreLockLosses(rd: Reader, rows: seq<string>)
    requires forall row <- rows :: |StripNewlines(row)| <= 80
    ensures CountLli(rd, rows) == |set k | 0 <= k < |rd.types| && LosesLock(rows, rd.types, k)|
  {
    hide Counts, LosesLock, Joined, CountLliFrom;
    CountedFrom(Joined(rows), rd.types, 0);
    forall k | 0 <= k < |rd.types| {
      CountsIff(rows, rd.types, k);
    }
    assert (set k | 0 <= k < |rd.types| && Counts(Joined(rows), rd.types, k))
        == (set k | 0 <= k < |rd.types| && LosesLock(rows, rd.types, k));
  }

  /** A row longer than its 80 columns moves those after it: the sixth observation is read from the first row. */
  lemma LongRowShifts(rows: seq<string>, types: seq<string>)
    requires |rows| == 2 && |types| == 6 && types[5] == "L2" && rows[1] == ""
    requires |rows[0]| == 96 && rows[0][80..] == "1.0           1 "
    ensures Counts(Joined(rows), types, 5) && !LosesLock(rows, types, 5)
  {
    hide Strip, Joined;
    var row := rows[0];
    assert row[95] == row[80..][15] && row[94] == row[80..][14] && row[80] == row[80..][0];
    JoinedSnoc([], row);
    JoinedSnoc([row], "");
    assert rows == [row] + [""] && [row] == [] + [row];
    var joined := Joined(rows);
    var field := Cut(joined, 80, 96);
    assert StripNewlines(row) == row && row <= joined;
    assert field == row[80..];
    BlankIffStripped(field[..14]);
    assert field[..14][0] == '1';
    assert Column(rows, 1, 14) == ' ';
  }

  lemma JoinedSnoc(rows: seq<string>, row: string)
    ensures Joined(rows + [row]) == Joined(rows) + PadTo(StripNewlines(row), 80) && Joined([]) == ""
  {
    assert (rows + [row])[..|rows|] == rows;
  }

  // ----- epochs as they are written

  /** Two columns with a number below 100, its first digit blank or written out. */
  predicate ShowsTwo(a: char, b: char, n: int) {
    '0' <= b <= '9' && ((a == ' ' && n == (b - '0') as int) || ('0' <= a <= '9' && n == 10 * (a - '0') as int + (b - '0') as int))
  }

  /** The line has the year's last two digits, the other fields, a flag and a count in their columns. */
  predicate Shows(rd: Reader, line: string, e: Epoch, flag: nat, count: nat) {
    && |line| >= 32 && line[0] == line[3] == line[6] == line[9] == line[12] == line[26] == line[27] == line[29] == ' '
    && line[1] != ' ' && 1980 <= e.year < 2080 && ShowsTwo(line[1], line[2], e.year % 100)
    && ShowsTwo(line[4], line[5], e.month) && ShowsTwo(line[7], line[8], e.day)
    && ShowsTwo(line[10], line[11], e.hour) && ShowsTwo(line[13], line[14], e.minute)
    && e.second >= 0 && 0 <= e.micro < 1000000
    && rd.seconds(line[15..26]) == Some(e.second as real + e.micro as real / 1000000.0)
    && '0' <= line[28] <= '9' && flag == (line[28] - '0') as int && ShowsTwo(line[30], line[31], count)
  }

  /** A day of the calendar, every fourth year from 1980 to 2079 a leap year, and a time of day. */
  predicate RealTime(e: Epoch) {
    && 1 <= e.month <= 12
    && 1 <= e.day <= [31, 28, 31, 30, 31, 30, 31, 31, 30, 31, 30, 31][e.month - 1]
                     + (if e.month == 2 && e.year % 4 == 0 then 1 else 0)
    && 0 <= e.hour < 24 && 0 <= e.minute < 60 && 0 <= e.second < 60 && 0 <= e.micro < 1000000
  }

  lemma {:induction false} TwoAreRead(a: char, b: char, n: int)
    requires ShowsTwo(a, b, n)
    ensures ParseInt([a, b]) == Some(n) && AllDigits(Strip([a, b]))
    ensures a != ' ' ==> AllDigits([a, b]) && Digits([a, b]) == n
  {
    hide Digits, Strip, ParseInt;
    if a == ' ' {
      Column2(b);
      OneDigit(b);
    } else {
      Number2(a, b);
      TwoDigits(a, b);
      DigitsAreStripped(a, b);
    }
  }

  lemma {:induction false} DigitsAreStripped(a: char, b: char)
    requires IsDigit(a) && IsDigit(b)
    ensures Strip([a, b]) == [a, b]
  {
    DigitIsNoSpace(a);
    DigitIsNoSpace(b);
  }

  lemma {:induction false} ThreeAreRead(a: char, b: char, n: int)
    requires ShowsTwo(a, b, n)
    ensures ParseInt([' ', a, b]) == Some(n)
  {
    hide Digits, ParseInt;
    if a == ' ' {
      Column3(b);
    } else {
      BlankBefore(a, b, n);
    }
  }

  lemma {:induction false} BlankBefore(a: char, b: char, n: int)
    requires IsDigit(a) && IsDigit(b) && n == 10 * (a - '0') as int + (b - '0') as int
    ensures ParseInt([' ', a, b]) == Some(n)
  {
    hide Digits, IsDigit, IsSpace;
    DigitIsNoSpace(a);
    DigitIsNoSpace(b);
    TwoDigits(a, b);
    assert [' ', a, b][1..] == [a, b];
    assert StripLeft([' ', a, b]) == StripLeft([a, b]) == [a, b];
  }

  lemma {:induction false} ShownColumns(rd: Reader, line: string, e: Epoch, flag: nat, count: nat)
    requires Shows(rd, line, e, flag, count)
    ensures EpochColumns(line) && FullYear(line) == e.year
  {
    hide ParseInt, Digits, Strip;
    Separated(line);
    TwoColumns(line, 1);
    TwoColumns(line, 30);
    TwoAreRead(line[1], line[2], e.year % 100);
    TwoAreRead(line[30], line[31], count);
  }

  lemma {:induction false} ShownHead(rd: Reader, line: string, e: Epoch, flag: nat, count: nat)
    requires Shows(rd, line, e, flag, count)
    ensures EpochColumns(line) && FullYear(line) == e.year && RecordCount(line) == Some(count)
    ensures Digits(line[28..29]) == flag
  {
    hide ParseInt, Digits, EpochColumns, FullYear, ShowsTwo;
    ShownColumns(rd, line, e, flag, count);
    assert Cut(line, 29, 32) == [line[29], line[30], line[31]] && line[28..29] == [line[28]];
    ThreeAreRead(line[30], line[31], count);
    OneDigit(line[28]);
  }

  lemma {:induction false} ShownTime(rd: Reader, line: string, e: Epoch, flag: nat, count: nat)
    requires Shows(rd, line, e, flag, count)
    ensures ParseInt(line[4..6]) == Some(e.month) && ParseInt(line[7..9]) == Some(e.day)
    ensures ParseInt(line[10..12]) == Some(e.hour) && ParseInt(line[13..15]) == Some(e.minute)
  {
    hide ParseInt, Digits, Strip;
    TwoColumns(line, 4);
    TwoColumns(line, 7);
    TwoColumns(line, 10);
    TwoColumns(line, 13);
    TwoAreRead(line[4], line[5], e.month);
    TwoAreRead(line[7], line[8], e.day);
    TwoAreRead(line[10], line[11], e.hour);
    TwoAreRead(line[13], line[14], e.minute);
  }

  lemma {:induction false} SecondsComeApart(second: int, micro: int)
    requires second >= 0 && 0 <= micro < 1000000
    ensures var seconds := second as real + micro as real / 1000000.0;
            Truncate(seconds) == second && Round((seconds - second as real) * 1000000.0) == micro
  {
    var part := micro as real / 1000000.0;
    assert 0.0 <= part < 1.0;
    assert part * 1000000.0 == micro as real;
  }

  lemma RealTimeIsValid(e: Epoch)
    requires 1980 <= e.year < 2080
    ensures ValidEpoch(e) <==> RealTime(e)
  {
    assert Leap(e.year) <==> e.year % 4 == 0;
  }

  /** A line that shows an epoch is read as that epoch and flag when there is such a time, else not at all. */
  lemma {:induction false} ShownIsParsed(rd: Reader, line: string, e: Epoch, flag: nat, count: nat)
    requires Shows(rd, line, e, flag, count)
    ensures ParseEpoch(rd, line) == if RealTime(e) then Some((e, flag)) else None
  {
    hide ParseInt, Digits, EpochColumns, FullYear, Truncate, Round, ValidEpoch, RealTime;
    ShownHead(rd, line, e, flag, count);
    ShownTime(rd, line, e, flag, count);
    SecondsComeApart(e.second, e.micro);
    RealTimeIsValid(e);
  }

  /** An epoch as it is written, with its satellite fields and observation lines; or a record that is no epoch. */
  datatype Entry =
    | Timed(epoch: Epoch, flag: nat, prefix: string, fields: seq<string>, observations: seq<seq<string>>)
    | Between(record: Record)

  predicate Proper(rd: Reader, entry: Entry) {
    match entry
    case Between(record) => !record.Normal? && WellFormed(rd, record)
    case Timed(epoch, flag, prefix, fields, observations) =>
      && |prefix| == 32 && Shows(rd, prefix, epoch, flag, |fields|) && flag <= 1 && RealTime(epoch)
      && (forall field <- fields :: Field(field)) && |observations| == |fields|
      && forall rows <- observations :: 5 * (|rows| - 1) < |rd.types| <= 5 * |rows|
  }

  function RecordOf(entry: Entry): Record {
    match entry
    case Between(record) => record
    case Timed(_, _, prefix, fields, observations) =>
      var lines := ListLines(prefix, fields);
      Normal(lines[0], lines[1..], Cleaned(fields), observations)
  }

  function RecordsOf(entries: seq<Entry>): seq<Record> {
    if entries == [] then [] else [RecordOf(entries[0])] + RecordsOf(entries[1..])
  }

  function WrittenEpochs(entries: seq<Entry>): seq<Epoch> {
    if entries == [] then []
    else (if entries[0].Timed? then [entries[0].epoch] else []) + WrittenEpochs(entries[1..])
  }

  function WrittenLists(entries: seq<Entry>): seq<seq<string>> {
    if entries == [] then []
    else (if entries[0].Timed? then [Cleaned(entries[0].fields)] else []) + WrittenLists(entries[1..])
  }

  lemma FiveTypesToALine(rd: Reader)
    ensures forall n: nat | 5 * (n - 1) < |rd.types| <= 5 * n :: n == ObservationLines(rd)
  {
    forall n: nat | 5 * (n - 1) < |rd.types| <= 5 * n ensures n == (|rd.types| + 4) / 5 {}
  }

  lemma EntryIsWellFormed(rd: Reader, entry: Entry)
    requires Proper(rd, entry)
    ensures var r := RecordOf(entry);
            && WellFormed(rd, r) && (r.Normal? <==> entry.Timed?)
            && (entry.Timed? ==> ParseEpoch(rd, r.line).value.0 == entry.epoch && r.ids == Cleaned(entry.fields))
  {
    hide ParseEpoch, Shows, RealTime, Field, RecordCount, Cleaned, Strip, SatellitesOf, WellFormed;
    match entry
    case Between(_) =>
    case Timed(epoch, flag, prefix, fields, observations) =>
      FiveTypesToALine(rd);
      ShownIsParsed(rd, prefix, epoch, flag, |fields|);
      ShownHead(rd, prefix, epoch, flag, |fields|);
      ListedEpochIsWellFormed(rd, prefix, fields, observations);
      PrefixDecides(rd, prefix, Concat(if |fields| <= 12 then fields else fields[..12]));
  }

  lemma {:induction false} EntriesAreWellFormed(rd: Reader, entries: seq<Entry>)
    requires forall entry <- entries :: Proper(rd, entry)
    ensures forall r <- RecordsOf(entries) :: WellFormed(rd, r)
    ensures EpochsOf(rd, RecordsOf(entries)) == WrittenEpochs(entries)
    ensures ListsOf(RecordsOf(entries)) == WrittenLists(entries)
    decreases |entries|
  {
    hide Proper, WellFormed, RecordOf, ParseEpoch, Cleaned;
    if entries != [] {
      EntriesAreWellFormed(rd, entries[1..]);
      assert entries[0] in entries;
      EntryIsWellFormed(rd, entries[0]);
      assert RecordsOf(entries)[1..] == RecordsOf(entries[1..]);
    }
  }

  /**
   * A body with at least one epoch is read as exactly the epochs written and the satellites listed, in order,
   * whatever the observation lines, events and other lines between them say.
   */
  lemma WrittenBodyIsRead(rd: Reader, entries: seq<Entry>)
    requires (forall entry <- entries :: Proper(rd, entry)) && exists entry <- entries :: entry.Timed?
    ensures var result := ReadBody(rd, RenderAll(RecordsOf(entries)));
            result.Ok? && result.body.epochs == WrittenEpochs(entries) && result.body.satellites == WrittenLists(entries)
  {
    hide Proper, RecordsOf, WrittenEpochs, WrittenLists, ReadBody, EpochsOf, ListsOf, WellFormed, RenderAll, AfterAll;
    EntriesAreWellFormed(rd, entries);
    SomeEpochIsWritten(entries);
    BodySynchronisation(rd, RecordsOf(entries));
  }

  lemma {:induction false} SomeEpochIsWritten(entries: seq<Entry>)
    requires exists entry <- entries :: entry.Timed?
    ensures WrittenEpochs(entries) != []
  {
    if !entries[0].Timed? {
      SomeEpochIsWritten(entries[1..]);
    }
  }
}
