/** The capture on disk: the byte stream, one index row per frame, and running counts. */
module CaptureWriting {
  import opened Wire

  /** One row of the arrival index; `mono` is the monotonic arrival time. */
  datatype Row = Row(sequence: nat, offset: nat, length: nat, mono: int, message: Option<nat>, crcOk: bool)

  datatype Capture = Capture(
    stream: seq<byte>, index: seq<Row>, bytes: nat, valid: nat, invalid: nat,
    types: map<nat, nat>, disconnects: nat, reconnects: nat)

  const EMPTY_CAPTURE := Capture([], [], 0, 0, 0, map[], 0, 0)

  function CountOf(types: map<nat, nat>, message: nat): nat {
    if message in types then types[message] else 0
  }

  function Counted(types: map<nat, nat>, message: Option<nat>): map<nat, nat> {
    match message
    case None => types
    case Some(number) => types[number := CountOf(types, number) + 1]
  }

  function Write(c: Capture, raw: seq<byte>, row: Row): Capture {
    c.(stream := c.stream + raw, index := c.index + [row], bytes := c.bytes + |raw|,
       valid := c.valid + if row.crcOk then 1 else 0,
       invalid := c.invalid + if row.crcOk then 0 else 1,
       types := Counted(c.types, row.message))
  }

  function NoteReconnect(c: Capture): Capture {
    c.(disconnects := c.disconnects + 1, reconnects := c.reconnects + 1)
  }

  class CaptureWriter {
    var stream: seq<byte>
    var index: seq<Row>
    var bytes: nat
    var valid: nat
    var invalid: nat
    var types: map<nat, nat>
    var disconnects: nat
    var reconnects: nat

    constructor ()
      ensures State() == EMPTY_CAPTURE
    {
      stream, index, bytes, valid, invalid := [], [], 0, 0, 0;
      types, disconnects, reconnects := map[], 0, 0;
    }

    function State(): Capture
      reads this
    {
      Capture(stream, index, bytes, valid, invalid, types, disconnects, reconnects)
    }

    method WriteFrame(raw: seq<byte>, row: Row)
      modifies this
      ensures State() == Write(old(State()), raw, row)
    {
      stream := stream + raw;
      index := index + [row];
      bytes := bytes + |raw|;
      if row.crcOk {
        valid := valid + 1;
      } else {
        invalid := invalid + 1;
      }
      types := Counted(types, row.message);
    }

    method RecordReconnect()
      modifies this
      ensures State() == NoteReconnect(old(State()))
    {
      disconnects := disconnects + 1;
      reconnects := reconnects + 1;
    }
  }

  // ----- checking an index after the fact

  datatype IndexLine = Fields(sequence: int, mono: int) | Unreadable

  datatype Finding = MalformedRow(row: nat) | SequenceGap(at: int) | MonotonicRegression

  datatype Last = Last(sequence: int, mono: int)

  function GapBefore(sequence: int, last: Option<Last>): seq<Finding> {
    if last.Some? && sequence != last.value.sequence + 1 then [SequenceGap(sequence)] else []
  }

  predicate StepsBack(mono: int, last: Option<Last>) { last.Some? && mono < last.value.mono }

  /** The findings from line k on, after the last good line. */
  function Findings(lines: seq<IndexLine>, k: nat, last: Option<Last>): seq<Finding>
    requires k <= |lines|
    decreases |lines| - k
  {
    if k == |lines| then []
    else match lines[k]
      case Unreadable => [MalformedRow(k + 1)]
      case Fields(sequence, mono) =>
        if StepsBack(mono, last) then GapBefore(sequence, last) + [MonotonicRegression]
        else GapBefore(sequence, last) + Findings(lines, k + 1, Some(Last(sequence, mono)))
  }

  /** What has been found, and what is still to be found. */
  ghost function Together(found: seq<Finding>, lines: seq<IndexLine>, k: nat, last: Option<Last>): seq<Finding>
    requires k <= |lines|
  {
    found + Findings(lines, k, last)
  }

  /** One turn of the scan. */
  lemma FindingsUnfold(found: seq<Finding>, lines: seq<IndexLine>, k: nat, last: Option<Last>)
    requires k < |lines|
    ensures var line := lines[k];
            Together(found, lines, k, last)
            == if line.Unreadable? then found + [MalformedRow(k + 1)]
               else if StepsBack(line.mono, last) then found + GapBefore(line.sequence, last) + [MonotonicRegression]
               else
                 Together(found + GapBefore(line.sequence, last), lines, k + 1, Some(Last(line.sequence, line.mono)))
  {
    hide GapBefore, StepsBack;
  }

  lemma FindingsEnd(found: seq<Finding>, lines: seq<IndexLine>, last: Option<Last>)
    ensures Together(found, lines, |lines|, last) == found
    ensures Together([], lines, 0, None) == Findings(lines, 0, None)
  {}

  method ValidateIndex(lines: seq<IndexLine>) returns (findings: seq<Finding>, rows: nat)
    ensures findings == Findings(lines, 0, None)
    ensures findings == [] ==> rows == |lines|
  {
    hide Findings, GapBefore, StepsBack, Together;
    findings, rows := [], 0;
    var last: Option<Last> := None;
    FindingsEnd([], lines, last);
    while rows < |lines|
      invariant rows <= |lines|
      invariant Together(findings, lines, rows, last) == Findings(lines, 0, None)
    {
      FindingsUnfold(findings, lines, rows, last);
      var line := lines[rows];
      rows := rows + 1;
      if line.Unreadable? {
        return findings + [MalformedRow(rows)], rows;
      }
      findings := findings + GapBefore(line.sequence, last);
      if StepsBack(line.mono, last) {
        return findings + [MonotonicRegression], rows;
      }
      last := Some(Last(line.sequence, line.mono));
    }
    FindingsEnd(findings, lines, last);
  }

  ghost predicate Sound(lines: seq<IndexLine>, k: nat, last: Option<Last>)
    requires k <= |lines|
  {
    && (forall i :: k <= i < |lines| ==> lines[i].Fields?)
    && (forall i :: k < i < |lines| ==>
          lines[i].sequence == lines[i - 1].sequence + 1 && lines[i - 1].mono <= lines[i].mono)
    && (last.Some? && k < |lines| ==>
          lines[k].sequence == last.value.sequence + 1 && last.value.mono <= lines[k].mono)
  }

  /** No finding means: every row readable, sequence numbers consecutive, times non-decreasing. */
  lemma {:induction false} NoFindingIffSound(lines: seq<IndexLine>, k: nat, last: Option<Last>)
    requires k <= |lines|
    ensures Findings(lines, k, last) == [] <==> Sound(lines, k, last)
    decreases |lines| - k
  {
    if k < |lines| && lines[k].Fields? {
      var next := Some(Last(lines[k].sequence, lines[k].mono));
      NoFindingIffSound(lines, k + 1, next);
      if Sound(lines, k, last) {
        assert Sound(lines, k + 1, next);
      }
    }
  }
}
