/**
 * The incremental framer: reads arrive in arbitrary pieces, bytes wait in a buffer until a
 * frame is complete, and every read returns the frames it completed.
 */
module StreamingFraming {
  import opened Wire
  import opened Framing

  datatype Finding =
    | Oversized(offset: nat, length: nat)
    | Stray(skipped: nat, nextOffset: nat)
    | CrcFail(offset: nat, length: nat, message: Option<nat>)

  /** What the framer keeps between reads. */
  datatype Memory = Memory(buffer: seq<byte>, offset: nat, stray: nat, pending: nat, findings: seq<Finding>)

  datatype Fed = Fed(memory: Memory, frames: seq<Frame>)

  const FRESH := Memory([], 0, 0, 0, [])

  function Flush(m: Memory, skipped: nat, nextOffset: nat): Memory {
    if skipped == 0 then m
    else m.(stray := m.stray + skipped, findings := m.findings + [Stray(skipped, nextOffset)])
  }

  function Drop(t: Transport, m: Memory): Memory
    requires Classify(t, m.buffer).Junk?
  {
    var noted := if m.buffer[0] == PREAMBLE
                 then m.findings + [Oversized(m.offset, t.lengthOf(m.buffer[1], m.buffer[2]))]
                 else m.findings;
    m.(buffer := m.buffer[1..], offset := m.offset + 1, findings := noted)
  }

  function Emit(t: Transport, m: Memory, skipped: nat, need: nat): Memory
    requires Classify(t, m.buffer) == Complete(need)
  {
    var flushed := Flush(m, skipped, m.offset);
    var f := FrameAt(t, m.offset, m.buffer[..need]);
    var noted := if f.crcOk then flushed.findings
                 else flushed.findings + [CrcFail(m.offset, need - HEADER_LENGTH - CRC_LENGTH, f.message)];
    flushed.(buffer := m.buffer[need..], offset := m.offset + need, findings := noted)
  }

  function Pause(m: Memory, skipped: nat): Memory {
    Flush(m.(pending := if |m.buffer| < HEADER_LENGTH then 0 else skipped), skipped, m.offset + |m.buffer|)
  }

  function Scan(t: Transport, m: Memory, skipped: nat, frames: seq<Frame>): Fed
    decreases |m.buffer|
  {
    match Classify(t, m.buffer)
    case NeedMore => Fed(Pause(m, skipped), frames)
    case Junk => Scan(t, Drop(t, m), skipped + 1, frames)
    case Complete(need) =>
      Scan(t, Emit(t, m, skipped, need), 0, frames + [FrameAt(t, m.offset, m.buffer[..need])])
  }

  lemma ScanByClass(t: Transport, m: Memory, skipped: nat, frames: seq<Frame>)
    ensures var r := Scan(t, m, skipped, frames);
            match Classify(t, m.buffer)
            case NeedMore => r == Fed(Pause(m, skipped), frames)
            case Junk => r == Scan(t, Drop(t, m), skipped + 1, frames)
            case Complete(need) =>
              r == Scan(t, Emit(t, m, skipped, need), 0, frames + [FrameAt(t, m.offset, m.buffer[..need])])
  {
    hide Classify, Drop, Emit, FrameAt, Pause;
  }

  lemma ClassifyByTests(t: Transport, s: seq<byte>)
    ensures Classify(t, s)
            == if s == [] then NeedMore
               else if s[0] != PREAMBLE then Junk
               else if |s| < HEADER_LENGTH then NeedMore
               else
                 var length := t.lengthOf(s[1], s[2]);
                 var need := HEADER_LENGTH + length + CRC_LENGTH;
                 if length > t.max then Junk else if |s| < need then NeedMore else Complete(need)
  {
    hide Framed;
  }

  /** One turn of the scan, by the tests the loop makes. */
  lemma ScanUnfold(t: Transport, m: Memory, skipped: nat, frames: seq<Frame>)
    ensures var r := Scan(t, m, skipped, frames);
            if m.buffer == [] then r == Fed(Pause(m, skipped), frames)
            else if m.buffer[0] != PREAMBLE then
              r == Scan(t, m.(buffer := m.buffer[1..], offset := m.offset + 1), skipped + 1, frames)
            else if |m.buffer| < HEADER_LENGTH then r == Fed(Pause(m, skipped), frames)
            else
              var length := t.lengthOf(m.buffer[1], m.buffer[2]);
              var need := HEADER_LENGTH + length + CRC_LENGTH;
              if length > t.max then
                var noted := m.findings + [Oversized(m.offset, length)];
                r == Scan(t, m.(buffer := m.buffer[1..], offset := m.offset + 1, findings := noted), skipped + 1, frames)
              else if |m.buffer| < need then r == Fed(Pause(m, skipped), frames)
              else
                && Classify(t, m.buffer) == Complete(need)
                && r == Scan(t, Emit(t, m, skipped, need), 0, frames + [FrameAt(t, m.offset, m.buffer[..need])])
  {
    hide Scan, Classify, Framed, Emit, FrameAt, Flush, Pause;
    ScanByClass(t, m, skipped, frames);
    ClassifyByTests(t, m.buffer);
  }

  /** One read: the bytes are appended and the scan continues from the carried stray count. */
  function FeedOnce(t: Transport, m: Memory, chunk: seq<byte>): Fed {
    Scan(t, m.(buffer := m.buffer + chunk, pending := 0), m.pending, [])
  }

  function FeedAll(t: Transport, m: Memory, chunks: seq<seq<byte>>): Fed
    decreases |chunks|
  {
    if chunks == [] then Fed(m, [])
    else
      var first := FeedOnce(t, m, chunks[0]);
      var rest := FeedAll(t, first.memory, chunks[1..]);
      Fed(rest.memory, first.frames + rest.frames)
  }

  class StreamingFramer {
    const transport: Transport
    var buffer: seq<byte>
    var byteOffset: nat
    var strayBytes: nat
    var pendingStray: nat
    var findings: seq<Finding>

    constructor (t: Transport)
      ensures transport == t && State() == FRESH
    {
      transport := t;
      buffer, byteOffset, strayBytes, pendingStray, findings := [], 0, 0, 0, [];
    }

    function State(): Memory
      reads this
    {
      Memory(buffer, byteOffset, strayBytes, pendingStray, findings)
    }

    /** The part of the loop that emits one complete frame. */
    method TakeFrame(need: nat, skipped: nat) returns (frame: Frame)
      requires Classify(transport, buffer) == Complete(need)
      modifies this
      ensures State() == Emit(transport, old(State()), skipped, need)
      ensures frame == FrameAt(transport, old(byteOffset), old(buffer)[..need])
      ensures |buffer| < |old(buffer)| && pendingStray == old(pendingStray)
    {
      var raw := buffer[..need];
      var payload := raw[HEADER_LENGTH..need - CRC_LENGTH];
      frame := Frame(byteOffset, raw, transport.messageOf(payload), transport.verify(raw));
      if skipped != 0 {
        strayBytes := strayBytes + skipped;
        findings := findings + [Stray(skipped, byteOffset)];
      }
      if !frame.crcOk {
        findings := findings + [CrcFail(byteOffset, |payload|, frame.message)];
      }
      buffer := buffer[need..];
      byteOffset := byteOffset + need;
    }

    /** The scanning loop; `skipped` comes back for the final stray report. */
    method ScanBuffer(carried: nat) returns (frames: seq<Frame>, skipped: nat)
      requires pendingStray == 0
      modifies this
      ensures Scan(transport, old(State()), carried, [])
              == Fed(Flush(State(), skipped, byteOffset + |buffer|), frames)
    {
      frames, skipped := [], carried;
      ghost var goal := Scan(transport, State(), carried, []);
      hide Scan, Classify, Emit, FrameAt, Flush;
      while true
        invariant pendingStray == 0
        invariant Scan(transport, State(), skipped, frames) == goal
        decreases |buffer|
      {
        ScanUnfold(transport, State(), skipped, frames);
        if buffer == [] {
          break;
        }
        if buffer[0] != PREAMBLE {
          skipped := skipped + 1;
          buffer := buffer[1..];
          byteOffset := byteOffset + 1;
          continue;
        }
        if |buffer| < HEADER_LENGTH {
          break;
        }
        var length := transport.lengthOf(buffer[1], buffer[2]);
        if length > transport.max {
          findings := findings + [Oversized(byteOffset, length)];
          skipped := skipped + 1;
          buffer := buffer[1..];
          byteOffset := byteOffset + 1;
          continue;
        }
        var need := HEADER_LENGTH + length + CRC_LENGTH;
        if |buffer| < need {
          pendingStray := skipped;
          break;
        }
        var frame := TakeFrame(need, skipped);
        frames := frames + [frame];
        skipped := 0;
      }
    }

    method Feed(chunk: seq<byte>) returns (frames: seq<Frame>)
      modifies this
      ensures Fed(State(), frames) == FeedOnce(transport, old(State()), chunk)
    {
      hide Scan;
      buffer := buffer + chunk;
      var skipped := pendingStray;
      pendingStray := 0;
      frames, skipped := ScanBuffer(skipped);
      if skipped != 0 {
        strayBytes := strayBytes + skipped;
        findings := findings + [Stray(skipped, byteOffset + |buffer|)];
      }
    }
  }

  // ----- the framer computes the parse of everything it was fed

  lemma {:induction false} ScanIsParse(t: Transport, m: Memory, skipped: nat, frames: seq<Frame>)
    ensures var r := Scan(t, m, skipped, frames);
            var p := Parse(t, m.buffer, m.offset);
            r.frames == frames + p.frames && r.memory.buffer == p.rest && r.memory.offset == p.offset
    decreases |m.buffer|
  {
    hide Scan, Framed, FrameAt;
    ScanByClass(t, m, skipped, frames);
    match Classify(t, m.buffer)
    case NeedMore =>
    case Junk =>
      ScanIsParse(t, Drop(t, m), skipped + 1, frames);
    case Complete(need) =>
      ScanIsParseComplete(t, m, skipped, frames, need);
  }

  lemma {:induction false} ScanIsParseComplete(t: Transport, m: Memory, skipped: nat, frames: seq<Frame>, need: nat)
    requires Classify(t, m.buffer) == Complete(need)
    ensures var r := Scan(t, m, skipped, frames);
            var p := Parse(t, m.buffer, m.offset);
            r.frames == frames + p.frames && r.memory.buffer == p.rest && r.memory.offset == p.offset
    decreases |m.buffer|, 0
  {
    hide Scan, Parse;
    var f := FrameAt(t, m.offset, m.buffer[..need]);
    assert Scan(t, m, skipped, frames) == Scan(t, Emit(t, m, skipped, need), 0, frames + [f]) by {
      ScanUnfold(t, m, skipped, frames);
    }
    ScanIsParse(t, Emit(t, m, skipped, need), 0, frames + [f]);
    ParseUnfold(t, m.buffer, need, m.offset);
    Associate(frames, [f], Parse(t, m.buffer[need..], m.offset + need).frames);
  }

  lemma FeedIsParse(t: Transport, m: Memory, chunk: seq<byte>)
    ensures var r := FeedOnce(t, m, chunk);
            var p := Parse(t, m.buffer + chunk, m.offset);
            r.frames == p.frames && r.memory.buffer == p.rest && r.memory.offset == p.offset
  {
    ScanIsParse(t, m.(buffer := m.buffer + chunk, pending := 0), m.pending, []);
  }

  /** Nothing in the buffer is decidable: what every read leaves behind. */
  predicate Settled(t: Transport, m: Memory) {
    Classify(t, m.buffer).NeedMore?
  }

  lemma {:induction false} ParseSettles(t: Transport, s: seq<byte>, offset: nat)
    ensures Classify(t, Parse(t, s, offset).rest).NeedMore?
    decreases |s|
  {
    match Classify(t, s)
    case NeedMore =>
    case Junk => ParseSettles(t, s[1..], offset + 1);
    case Complete(need) => ParseSettles(t, s[need..], offset + need);
  }

  lemma {:induction false} FeedAllIsParse(t: Transport, m: Memory, chunks: seq<seq<byte>>)
    requires Settled(t, m)
    ensures var r := FeedAll(t, m, chunks);
            var p := Parse(t, m.buffer + Concat(chunks), m.offset);
            r.frames == p.frames && r.memory.buffer == p.rest && r.memory.offset == p.offset
    decreases |chunks|
  {
    if chunks == [] {
      assert m.buffer + [] == m.buffer;
    } else {
      var first := FeedOnce(t, m, chunks[0]);
      FeedIsParse(t, m, chunks[0]);
      ParseSettles(t, m.buffer + chunks[0], m.offset);
      FeedAllIsParse(t, first.memory, chunks[1..]);
      ParseSplit(t, m.buffer + chunks[0], Concat(chunks[1..]), m.offset);
      Associate(m.buffer, chunks[0], Concat(chunks[1..]));
    }
  }

  /** However the same bytes are cut into reads, frames, leftover bytes and position are the same. */
  lemma ChunkInvariance(t: Transport, one: seq<seq<byte>>, other: seq<seq<byte>>)
    requires Concat(one) == Concat(other)
    ensures var r := FeedAll(t, FRESH, one);
            var q := FeedAll(t, FRESH, other);
            r.frames == q.frames && r.memory.buffer == q.memory.buffer && r.memory.offset == q.memory.offset
  {
    FeedAllIsParse(t, FRESH, one);
    FeedAllIsParse(t, FRESH, other);
  }

  /**
   * Every byte fed is before the position or still pending, the frames are disjoint slices of
   * the input before the position, and a bounded number of bytes is pending.
   */
  lemma FramesTileTheInput(t: Transport, chunks: seq<seq<byte>>)
    ensures var r := FeedAll(t, FRESH, chunks);
            && r.memory.offset + |r.memory.buffer| == |Concat(chunks)|
            && |r.memory.buffer| <= t.max + 5
            && Tiles(t, Parsed(r.frames, r.memory.buffer, r.memory.offset), Concat(chunks), 0)
  {
    FeedAllIsParse(t, FRESH, chunks);
    assert [] + Concat(chunks) == Concat(chunks);
    ParseTiles(t, Concat(chunks), 0);
  }

  /** Frames interleaved with preamble-free junk and cut anyhow come back exactly, in order. */
  lemma FramingRoundTrip(t: Transport, items: seq<Item>, tail: seq<byte>, chunks: seq<seq<byte>>)
    requires forall item <- items :: WellFormed(t, item)
    requires PREAMBLE !in tail
    requires Concat(chunks) == Stream(items) + tail
    ensures var r := FeedAll(t, FRESH, chunks);
            && r.frames == Located(t, items, 0)
            && r.memory.buffer == [] && r.memory.offset == |Concat(chunks)|
  {
    FeedAllIsParse(t, FRESH, chunks);
    assert [] + Concat(chunks) == Stream(items) + tail;
    ParseRecovers(t, items, tail, 0);
  }

  // ----- stray accounting

  function RawBytes(frames: seq<Frame>): nat {
    if frames == [] then 0 else |frames[0].raw| + RawBytes(frames[1..])
  }

  lemma {:induction false} RawBytesAppend(a: seq<Frame>, b: seq<Frame>)
    ensures RawBytes(a + b) == RawBytes(a) + RawBytes(b)
  {
    if a == [] {
      assert a + b == b;
    } else {
      RawBytesAppend(a[1..], b);
      assert (a + b)[1..] == a[1..] + b;
    }
  }

  lemma {:induction false} ScanStray(t: Transport, m: Memory, skipped: nat, frames: seq<Frame>)
    ensures var r := Scan(t, m, skipped, frames);
            r.memory.stray + RawBytes(r.frames) + m.offset
            == m.stray + skipped + RawBytes(frames) + r.memory.offset
    decreases |m.buffer|
  {
    match Classify(t, m.buffer)
    case NeedMore =>
    case Junk => ScanStray(t, Drop(t, m), skipped + 1, frames);
    case Complete(need) =>
      var f := FrameAt(t, m.offset, m.buffer[..need]);
      ScanStray(t, Emit(t, m, skipped, need), 0, frames + [f]);
      RawBytesAppend(frames, [f]);
      assert RawBytes([f]) == need;
  }

  /** The stray counts carried into the reads: each is counted once more by that read. */
  function Carried(t: Transport, m: Memory, chunks: seq<seq<byte>>): nat
    decreases |chunks|
  {
    if chunks == [] then 0
    else m.pending + Carried(t, FeedOnce(t, m, chunks[0]).memory, chunks[1..])
  }

  lemma {:induction false} FeedAllStray(t: Transport, m: Memory, chunks: seq<seq<byte>>)
    ensures var r := FeedAll(t, m, chunks);
            r.memory.stray + RawBytes(r.frames) + m.offset
            == m.stray + Carried(t, m, chunks) + r.memory.offset
    decreases |chunks|
  {
    if chunks != [] {
      var first := FeedOnce(t, m, chunks[0]);
      ScanStray(t, m.(buffer := m.buffer + chunks[0], pending := 0), m.pending, []);
      FeedAllStray(t, first.memory, chunks[1..]);
      RawBytesAppend(first.frames, FeedAll(t, first.memory, chunks[1..]).frames);
    }
  }

  /** The junk run at the end of what a parse consumed, when it began with some junk already behind it. */
  function TrailingJunk(p: Parsed, start: nat, junk: nat): int {
    if p.frames == [] then junk + p.offset - start
    else
      var last := p.frames[|p.frames| - 1];
      p.offset - (last.offset + |last.raw|)
  }

  lemma {:induction false} ScanPending(t: Transport, m: Memory, skipped: nat, frames: seq<Frame>)
    ensures var p := Parse(t, m.buffer, m.offset);
            Scan(t, m, skipped, frames).memory.pending
            == if |p.rest| < HEADER_LENGTH then 0 else TrailingJunk(p, m.offset, skipped)
    decreases |m.buffer|
  {
    hide FrameAt;
    match Classify(t, m.buffer)
    case NeedMore =>
    case Junk => ScanPending(t, Drop(t, m), skipped + 1, frames);
    case Complete(need) => ScanPendingComplete(t, m, skipped, frames, need);
  }

  lemma {:induction false} ScanPendingComplete(t: Transport, m: Memory, skipped: nat, frames: seq<Frame>, need: nat)
    requires Classify(t, m.buffer) == Complete(need)
    ensures var p := Parse(t, m.buffer, m.offset);
            Scan(t, m, skipped, frames).memory.pending
            == if |p.rest| < HEADER_LENGTH then 0 else TrailingJunk(p, m.offset, skipped)
    decreases |m.buffer|, 0
  {
    hide Scan, Parse, FrameAt;
    var f := FrameAt(t, m.offset, m.buffer[..need]);
    assert f.offset == m.offset && f.raw == m.buffer[..need] by {
      FirstSlice(t, m.buffer, m.offset, need);
    }
    assert Scan(t, m, skipped, frames) == Scan(t, Emit(t, m, skipped, need), 0, frames + [f]) by {
      ScanUnfold(t, m, skipped, frames);
    }
    ScanPending(t, Emit(t, m, skipped, need), 0, frames + [f]);
    ParseUnfold(t, m.buffer, need, m.offset);
  }

  /**
   * What one read leaves waiting to be counted again, from the bytes alone: when at least a header
   * is left over, the junk run of that read directly before it.
   */
  function HeldJunk(t: Transport, before: seq<byte>, chunk: seq<byte>): int {
    var p := Parse(t, before, 0);
    var q := Parse(t, p.rest + chunk, p.offset);
    if |q.rest| < HEADER_LENGTH then 0 else TrailingJunk(q, p.offset, 0)
  }

  lemma HeldAfterRead(t: Transport, before: seq<byte>, m: Memory, chunk: seq<byte>)
    requires m.pending == 0 && m.buffer == Parse(t, before, 0).rest && m.offset == Parse(t, before, 0).offset
    ensures var after := FeedOnce(t, m, chunk).memory;
            && after.pending == HeldJunk(t, before, chunk)
            && after.buffer == Parse(t, before + chunk, 0).rest && after.offset == Parse(t, before + chunk, 0).offset
  {
    hide Parse, Scan;
    ScanPending(t, m.(buffer := m.buffer + chunk), 0, []);
    FeedIsParse(t, m, chunk);
    ParseSplit(t, before, chunk, 0);
  }

  ghost predicate NothingHeld(t: Transport, before: seq<byte>, chunks: seq<seq<byte>>) {
    forall i :: 0 <= i < |chunks| - 1 ==> HeldJunk(t, before + Concat(chunks[..i]), chunks[i]) == 0
  }

  lemma NothingHeldCons(t: Transport, before: seq<byte>, chunks: seq<seq<byte>>)
    requires |chunks| > 1
    ensures NothingHeld(t, before, chunks)
            <==> HeldJunk(t, before, chunks[0]) == 0 && NothingHeld(t, before + chunks[0], chunks[1..])
  {
    hide HeldJunk;
    var rest := chunks[1..];
    assert before + Concat(chunks[..0]) == before;
    forall i | 0 <= i < |rest|
      ensures before + chunks[0] + Concat(rest[..i]) == before + Concat(chunks[..i + 1])
    {
      assert chunks[..i + 1][1..] == rest[..i];
      Associate(before, chunks[0], Concat(rest[..i]));
    }
    if NothingHeld(t, before, chunks) {
      assert HeldJunk(t, before + Concat(chunks[..0]), chunks[0]) == 0;
      forall i | 0 <= i < |rest| - 1 ensures HeldJunk(t, before + chunks[0] + Concat(rest[..i]), rest[i]) == 0 {
        assert HeldJunk(t, before + Concat(chunks[..i + 1]), chunks[i + 1]) == 0;
      }
    }
    if HeldJunk(t, before, chunks[0]) == 0 && NothingHeld(t, before + chunks[0], rest) {
      forall i | 0 <= i < |chunks| - 1 ensures HeldJunk(t, before + Concat(chunks[..i]), chunks[i]) == 0 {
        if i > 0 {
          assert HeldJunk(t, before + chunks[0] + Concat(rest[..i - 1]), rest[i - 1]) == 0;
        }
      }
    }
  }

  lemma {:induction false} CarriedIff(t: Transport, before: seq<byte>, m: Memory, chunks: seq<seq<byte>>)
    requires m.pending == 0 && m.buffer == Parse(t, before, 0).rest && m.offset == Parse(t, before, 0).offset
    ensures Carried(t, m, chunks) == 0 <==> NothingHeld(t, before, chunks)
    decreases |chunks|
  {
    hide Parse, FeedOnce, HeldJunk, NothingHeld;
    if |chunks| <= 1 {
      FewReadsHoldNothing(t, before, m, chunks);
    } else {
      var next := FeedOnce(t, m, chunks[0]).memory;
      HeldAfterRead(t, before, m, chunks[0]);
      NothingHeldCons(t, before, chunks);
      if next.pending == 0 {
        CarriedIff(t, before + chunks[0], next, chunks[1..]);
      }
    }
  }

  lemma FewReadsHoldNothing(t: Transport, before: seq<byte>, m: Memory, chunks: seq<seq<byte>>)
    requires |chunks| <= 1 && m.pending == 0
    ensures NothingHeld(t, before, chunks) && Carried(t, m, chunks) == 0
  {}

  /**
   * stray_bytes is never below the number of bytes that belong to no frame, and equals it exactly
   * when no read but the last leaves junk directly before an unfinished frame whose header is there.
   */
  lemma StrayCountIsExactIff(t: Transport, chunks: seq<seq<byte>>)
    ensures var r := FeedAll(t, FRESH, chunks);
            var skipped := r.memory.offset - RawBytes(r.frames);
            && 0 <= skipped <= r.memory.stray
            && (r.memory.stray == skipped
                <==> forall i :: 0 <= i < |chunks| - 1 ==> HeldJunk(t, Concat(chunks[..i]), chunks[i]) == 0)
  {
    hide HeldJunk, Parse, Scan, FeedAll, NothingHeld, Carried;
    FeedAllStray(t, FRESH, chunks);
    SkippedIsNatural(t, FRESH, chunks);
    NothingParsed(t);
    CarriedIff(t, [], FRESH, chunks);
    HeldFromStart(t, chunks);
  }

  lemma NothingParsed(t: Transport)
    ensures Parse(t, [], 0) == Parsed([], [], 0)
  {}

  lemma HeldFromStart(t: Transport, chunks: seq<seq<byte>>)
    ensures NothingHeld(t, [], chunks)
            <==> forall i :: 0 <= i < |chunks| - 1 ==> HeldJunk(t, Concat(chunks[..i]), chunks[i]) == 0
  {
    hide HeldJunk;
    forall i | 0 <= i < |chunks| ensures [] + Concat(chunks[..i]) == Concat(chunks[..i]) {}
  }

  lemma {:induction false} SkippedIsNatural(t: Transport, m: Memory, chunks: seq<seq<byte>>)
    ensures var r := FeedAll(t, m, chunks);
            m.offset + RawBytes(r.frames) <= r.memory.offset
    decreases |chunks|
  {
    if chunks != [] {
      var first := FeedOnce(t, m, chunks[0]);
      ScanSkips(t, m.(buffer := m.buffer + chunks[0], pending := 0), m.pending, []);
      SkippedIsNatural(t, first.memory, chunks[1..]);
      RawBytesAppend(first.frames, FeedAll(t, first.memory, chunks[1..]).frames);
    }
  }

  lemma {:induction false} ScanSkips(t: Transport, m: Memory, skipped: nat, frames: seq<Frame>)
    ensures var r := Scan(t, m, skipped, frames);
            m.offset + RawBytes(r.frames) <= r.memory.offset + RawBytes(frames)
    decreases |m.buffer|
  {
    match Classify(t, m.buffer)
    case NeedMore =>
    case Junk => ScanSkips(t, Drop(t, m), skipped + 1, frames);
    case Complete(need) =>
      var f := FrameAt(t, m.offset, m.buffer[..need]);
      ScanSkips(t, Emit(t, m, skipped, need), 0, frames + [f]);
      RawBytesAppend(frames, [f]);
      assert RawBytes([f]) == need;
  }

  // ----- what the findings report

  /** The frames reported as failed: their offset, payload length and message number. */
  function ReportedFailures(findings: seq<Finding>): seq<(nat, int, Option<nat>)> {
    if findings == [] then []
    else
      var last := findings[|findings| - 1];
      ReportedFailures(findings[..|findings| - 1]) + if last.CrcFail? then [(last.offset, last.length as int, last.message)] else []
  }

  function ReportedStray(findings: seq<Finding>): nat {
    if findings == [] then 0
    else
      var last := findings[|findings| - 1];
      ReportedStray(findings[..|findings| - 1]) + if last.Stray? then last.skipped else 0
  }

  function Failures(frames: seq<Frame>): seq<(nat, int, Option<nat>)> {
    if frames == [] then []
    else
      var last := frames[|frames| - 1];
      Failures(frames[..|frames| - 1]) + if last.crcOk then [] else [(last.offset, |last.raw| - 6, last.message)]
  }

  lemma ReportedSnoc(findings: seq<Finding>, finding: Finding)
    ensures ReportedFailures(findings + [finding])
            == ReportedFailures(findings) + if finding.CrcFail? then [(finding.offset, finding.length as int, finding.message)] else []
    ensures ReportedStray(findings + [finding]) == ReportedStray(findings) + if finding.Stray? then finding.skipped else 0
  {
    assert (findings + [finding])[..|findings|] == findings;
  }

  lemma FailuresSnoc(frames: seq<Frame>, frame: Frame)
    ensures Failures(frames + [frame])
            == Failures(frames) + if frame.crcOk then [] else [(frame.offset, |frame.raw| - 6, frame.message)]
  {
    assert (frames + [frame])[..|frames|] == frames;
  }

  lemma {:induction false} FailuresAppend(a: seq<Frame>, b: seq<Frame>)
    ensures Failures(a + b) == Failures(a) + Failures(b)
  {
    hide Failures;
    if b == [] {
      NoFailures();
      assert a + b == a;
    } else {
      var front, last := b[..|b| - 1], b[|b| - 1];
      assert b == front + [last] && a + b == (a + front) + [last];
      FailuresAppend(a, front);
      FailuresSnoc(a + front, last);
      FailuresSnoc(front, last);
    }
  }

  lemma OneFailure(frame: Frame)
    ensures Failures([frame]) == if frame.crcOk then [] else [(frame.offset, |frame.raw| - 6, frame.message)]
  {
    assert [frame][..0] == [];
  }

  lemma NoFailures()
    ensures Failures([]) == [] && ReportedFailures([]) == [] && ReportedStray([]) == 0
  {}

  lemma FlushReports(m: Memory, skipped: nat, nextOffset: nat)
    ensures var after := Flush(m, skipped, nextOffset);
            && ReportedFailures(after.findings) == ReportedFailures(m.findings)
            && ReportedStray(after.findings) - after.stray == ReportedStray(m.findings) - m.stray
  {
    hide ReportedFailures, ReportedStray;
    ReportedSnoc(m.findings, Stray(skipped, nextOffset));
  }

  lemma DropReports(t: Transport, m: Memory)
    requires Classify(t, m.buffer).Junk?
    ensures var after := Drop(t, m);
            && ReportedFailures(after.findings) == ReportedFailures(m.findings)
            && ReportedStray(after.findings) - after.stray == ReportedStray(m.findings) - m.stray
  {
    hide ReportedFailures, ReportedStray;
    if m.buffer[0] == PREAMBLE {
      ReportedSnoc(m.findings, Oversized(m.offset, t.lengthOf(m.buffer[1], m.buffer[2])));
    }
  }

  lemma EmitReports(t: Transport, m: Memory, skipped: nat, need: nat)
    requires Classify(t, m.buffer) == Complete(need)
    ensures var after := Emit(t, m, skipped, need);
            && ReportedFailures(after.findings)
               == ReportedFailures(m.findings) + Failures([FrameAt(t, m.offset, m.buffer[..need])])
            && ReportedStray(after.findings) - after.stray == ReportedStray(m.findings) - m.stray
  {
    hide ReportedFailures, ReportedStray, Failures, Flush, Classify, Framed, FrameAt;
    var f := FrameAt(t, m.offset, m.buffer[..need]);
    FirstSlice(t, m.buffer, m.offset, need);
    FlushReports(m, skipped, m.offset);
    var flushed := Flush(m, skipped, m.offset).findings;
    ReportedSnoc(flushed, CrcFail(m.offset, need - HEADER_LENGTH - CRC_LENGTH, f.message));
    OneFailure(f);
    assert ReportedFailures(flushed) + [] == ReportedFailures(flushed);
  }

  lemma {:induction false} ScanReports(t: Transport, m: Memory, skipped: nat, frames: seq<Frame>, before: seq<(nat, int, Option<nat>)>)
    requires ReportedFailures(m.findings) == before + Failures(frames) && ReportedStray(m.findings) == m.stray
    ensures var r := Scan(t, m, skipped, frames);
            && ReportedFailures(r.memory.findings) == before + Failures(r.frames)
            && ReportedStray(r.memory.findings) == r.memory.stray
    decreases |m.buffer|
  {
    hide ReportedFailures, ReportedStray, Failures, Flush, Drop, Emit, Scan, FrameAt;
    ScanByClass(t, m, skipped, frames);
    match Classify(t, m.buffer)
    case NeedMore =>
      FlushReports(m.(pending := if |m.buffer| < HEADER_LENGTH then 0 else skipped), skipped, m.offset + |m.buffer|);
    case Junk =>
      DropReports(t, m);
      DropTakesOne(t, m);
      ScanReports(t, Drop(t, m), skipped + 1, frames, before);
    case Complete(need) =>
      var f := FrameAt(t, m.offset, m.buffer[..need]);
      EmitReports(t, m, skipped, need);
      EmitTakes(t, m, skipped, need);
      FailuresAppend(frames, [f]);
      ScanReports(t, Emit(t, m, skipped, need), 0, frames + [f], before);
  }

  lemma DropTakesOne(t: Transport, m: Memory)
    requires Classify(t, m.buffer).Junk?
    ensures |Drop(t, m).buffer| < |m.buffer|
  {}

  lemma EmitTakes(t: Transport, m: Memory, skipped: nat, need: nat)
    requires Classify(t, m.buffer) == Complete(need)
    ensures |Emit(t, m, skipped, need).buffer| < |m.buffer|
  {}

  lemma {:induction false} ReadsReport(t: Transport, m: Memory, chunks: seq<seq<byte>>)
    requires ReportedStray(m.findings) == m.stray
    ensures var r := FeedAll(t, m, chunks);
            && ReportedFailures(r.memory.findings) == ReportedFailures(m.findings) + Failures(r.frames)
            && ReportedStray(r.memory.findings) == r.memory.stray
    decreases |chunks|
  {
    hide ReportedFailures, ReportedStray, Failures, Scan;
    NoFailures();
    if chunks != [] {
      var first := FeedOnce(t, m, chunks[0]);
      ScanReports(t, m.(buffer := m.buffer + chunks[0], pending := 0), m.pending, [], ReportedFailures(m.findings));
      ReadsReport(t, first.memory, chunks[1..]);
      FailuresAppend(first.frames, FeedAll(t, first.memory, chunks[1..]).frames);
    }
  }

  /**
   * The failures reported are those of the frames that fail their check, each once and in order, with
   * the length of its payload; the stray runs reported add up to stray_bytes.
   */
  lemma FindingsAreHonest(t: Transport, chunks: seq<seq<byte>>)
    ensures var r := FeedAll(t, FRESH, chunks);
            && ReportedFailures(r.memory.findings) == Failures(r.frames)
            && ReportedStray(r.memory.findings) == r.memory.stray
  {
    hide FeedAll, Failures;
    NoFailures();
    ReadsReport(t, FRESH, chunks);
  }

  const STRAY_THEN_HEADER: seq<byte> := [0x00, PREAMBLE, 0x00, 0x01]
  const HEADER_ONLY: seq<byte> := [PREAMBLE, 0x00, 0x01]

  /** The stray byte is reported, and held while its frame is incomplete. */
  lemma StrayByteIsHeld(t: Transport)
    requires t.lengthOf(0, 1) == 1 && t.max >= 1
    ensures FeedOnce(t, FRESH, STRAY_THEN_HEADER) == Fed(Memory(HEADER_ONLY, 1, 1, 1, [Stray(1, 4)]), [])
  {
    hide Scan, Classify, Emit, FrameAt;
    assert FRESH.buffer + STRAY_THEN_HEADER == STRAY_THEN_HEADER && STRAY_THEN_HEADER[1..] == HEADER_ONLY;
    ScanUnfold(t, FRESH.(buffer := STRAY_THEN_HEADER), 0, []);
    ScanUnfold(t, Memory(HEADER_ONLY, 1, 0, 0, []), 1, []);
    assert [] + [Stray(1, 4)] == [Stray(1, 4)];
  }

  lemma HeldByteIsReportedAgain(t: Transport, m: Memory)
    requires t.lengthOf(0, 1) == 1 && t.max >= 1 && m == Memory(HEADER_ONLY, 1, 1, 1, [Stray(1, 4)])
    ensures var r := FeedOnce(t, m, [0x00]);
            r.memory.stray == 2 && r.memory.offset == 1 && r.frames == []
  {
    hide Scan, Classify, Emit, FrameAt;
    var buffer := HEADER_ONLY + [0x00];
    assert buffer[0] == PREAMBLE && buffer[1] == 0x00 && buffer[2] == 0x01;
    ScanUnfold(t, m.(buffer := buffer, pending := 0), 1, []);
  }

  /** One stray byte, counted twice because a second read came while its frame was incomplete. */
  lemma StrayByteCountedTwice(t: Transport)
    requires t.lengthOf(0, 1) == 1 && t.max >= 1
    ensures var r := FeedAll(t, FRESH, [[0x00, PREAMBLE, 0x00, 0x01], [0x00]]);
            r.memory.stray == 2 && r.memory.offset == 1 && r.frames == []
  {
    hide FeedOnce;
    StrayByteIsHeld(t);
    var held := FeedOnce(t, FRESH, STRAY_THEN_HEADER).memory;
    HeldByteIsReportedAgain(t, held);
    var later: seq<seq<byte>> := [[0x00]];
    assert [STRAY_THEN_HEADER, [0x00]][1..] == later && later[1..] == [];
    var second := FeedOnce(t, held, later[0]);
    assert FeedAll(t, held, later) == Fed(second.memory, second.frames + []);
  }
}
