/** What a capture holds: exactly the frames of the bytes fed, nothing lost, repeated or reordered. */
module CaptureConservation {
  import opened Wire
  import opened Framing
  import opened StreamingFraming
  import opened Handshake
  import opened BoundedBuffering
  import opened CaptureWriting
  import opened CaptureRun

  // ----- the reference: every connection parsed in one piece

  function FramesOf(t: Transport, fed: seq<seq<byte>>): seq<Frame> {
    if fed == [] then []
    else FramesOf(t, fed[..|fed| - 1]) + Parse(t, fed[|fed| - 1], 0).frames
  }

  function Raws(frames: seq<Frame>): seq<byte> {
    if frames == [] then [] else Raws(frames[..|frames| - 1]) + frames[|frames| - 1].raw
  }

  function Rows(frames: seq<Frame>, sequence: nat, clock: nat -> int): seq<Row> {
    seq(|frames|, i requires 0 <= i < |frames| => RowOf(frames[i], sequence + i, clock))
  }

  /** The frames that pass their check, numbered by their place among all frames. */
  function Lives(frames: seq<Frame>, sequence: nat): seq<Live> {
    if frames == [] then []
    else
      var last := |frames| - 1;
      var f := frames[last];
      Lives(frames[..last], sequence) + if f.crcOk then [Live(sequence + last, f.message, f.raw)] else []
  }

  function CountMessage(frames: seq<Frame>, message: nat): nat {
    if frames == [] then 0
    else
      var last := |frames| - 1;
      CountMessage(frames[..last], message) + if frames[last].message == Some(message) then 1 else 0
  }

  // ----- the invariant, for the frames captured so far

  ghost predicate Captured(clock: nat -> int, sequence: nat, run: Run, frames: seq<Frame>) {
    && run.nextSeq == sequence + |frames|
    && run.writer.stream == Raws(frames) && run.writer.bytes == |Raws(frames)|
    && run.writer.index == Rows(frames, sequence, clock)
    && run.writer.valid == |Lives(frames, sequence)|
    && run.writer.valid + run.writer.invalid == |frames|
    && forall m: nat :: CountOf(run.writer.types, m) == CountMessage(frames, m)
  }

  function Min(a: nat, b: nat): nat { if a < b then a else b }

  /** The queue holds the newest valid frames; each frame beyond the capacity was two counted waits. */
  ghost predicate Queued(run: Run, lives: seq<Live>) {
    && run.forwarded + run.buffer.items == lives
    && run.buffer.policy == Block && run.buffer.capacity >= 1 && run.buffer.dropped == 0
    && |run.buffer.items| == Min(run.buffer.capacity, |lives|) == run.buffer.highWater
    && run.buffer.waits == 2 * |run.forwarded|
  }

  ghost predicate Conserved(clock: nat -> int, sequence: nat, run: Run, frames: seq<Frame>) {
    Captured(clock, sequence, run, frames) && Queued(run, Lives(frames, sequence))
  }

  lemma WriteCaptures(clock: nat -> int, sequence: nat, run: Run, frames: seq<Frame>, f: Frame, after: Run)
    requires Captured(clock, sequence, run, frames)
    requires after.writer == Write(run.writer, f.raw, RowOf(f, run.nextSeq, clock))
    requires after.nextSeq == run.nextSeq + 1
    ensures Captured(clock, sequence, after, frames + [f])
  {
    var all := frames + [f];
    assert all[..|all| - 1] == frames;
    assert Rows(all, sequence, clock) == Rows(frames, sequence, clock) + [RowOf(f, run.nextSeq, clock)];
    forall m: nat ensures CountOf(after.writer.types, m) == CountMessage(all, m) {
      assert CountOf(run.writer.types, m) == CountMessage(frames, m);
      CountedAt(run.writer.types, f.message, m);
      assert all[|all| - 1] == f;
    }
  }

  lemma CountedAt(types: map<nat, nat>, message: Option<nat>, m: nat)
    ensures CountOf(Counted(types, message), m) == CountOf(types, m) + if message == Some(m) then 1 else 0
  {}

  lemma OfferQueues(run: Run, lives: seq<Live>, live: Live)
    requires Queued(run, lives)
    ensures Queued(Offer(run, live), lives + [live])
  {
    var items := run.buffer.items;
    if |items| < run.buffer.capacity {
      assert run.forwarded + (items + [live]) == lives + [live];
    } else {
      assert run.forwarded + [items[0]] + (items[1..] + [live]) == run.forwarded + items + [live];
    }
  }

  lemma PassFrameConserves(clock: nat -> int, sequence: nat, run: Run, frames: seq<Frame>, f: Frame)
    requires Conserved(clock, sequence, run, frames)
    ensures Conserved(clock, sequence, PassFrame(run, clock, f), frames + [f])
  {
    hide Captured, Queued;
    var after := PassFrame(run, clock, f);
    var all := frames + [f];
    assert all[..|all| - 1] == frames;
    assert run.nextSeq == sequence + |frames| by { CapturedSequence(clock, sequence, run, frames); }
    WriteCaptures(clock, sequence, run, frames, f, after);
    var captured := run.(writer := after.writer, nextSeq := after.nextSeq);
    QueuedSame(run, captured, Lives(frames, sequence));
    if f.crcOk {
      OfferQueues(captured, Lives(frames, sequence), Live(run.nextSeq, f.message, f.raw));
    } else {
      assert Lives(frames, sequence) + [] == Lives(frames, sequence);
    }
  }

  lemma CapturedSequence(clock: nat -> int, sequence: nat, run: Run, frames: seq<Frame>)
    requires Captured(clock, sequence, run, frames)
    ensures run.nextSeq == sequence + |frames|
  {}

  lemma QueuedSame(a: Run, b: Run, lives: seq<Live>)
    requires Queued(a, lives) && a.buffer == b.buffer && a.forwarded == b.forwarded
    ensures Queued(b, lives)
  {}

  lemma {:induction false} PassFramesConserves(clock: nat -> int, sequence: nat, run: Run, frames: seq<Frame>, more: seq<Frame>)
    requires Conserved(clock, sequence, run, frames)
    ensures Conserved(clock, sequence, PassFrames(run, clock, more), frames + more)
    decreases |more|
  {
    hide Conserved, PassFrame;
    if more == [] {
      assert frames + more == frames;
    } else {
      PassFrameConserves(clock, sequence, run, frames, more[0]);
      PassFramesConserves(clock, sequence, PassFrame(run, clock, more[0]), frames + [more[0]], more[1..]);
      assert frames + [more[0]] + more[1..] == frames + more;
    }
  }

  /** Only the writer, the queue, the consumer and the numbering matter to conservation. */
  lemma ConservedSame(clock: nat -> int, sequence: nat, a: Run, b: Run, frames: seq<Frame>)
    requires Conserved(clock, sequence, a, frames)
    requires b.buffer == a.buffer && b.forwarded == a.forwarded && b.nextSeq == a.nextSeq
    requires b.writer.(disconnects := 0, reconnects := 0) == a.writer.(disconnects := 0, reconnects := 0)
    ensures Conserved(clock, sequence, b, frames)
  {}

  // ----- the byte budget

  predicate WithinBudget(cfg: Config, bytes: nat) {
    bytes == 0 || (0 < cfg.budget && bytes <= cfg.budget + cfg.transport.max + 4100)
  }

  lemma {:induction false} RawsLength(frames: seq<Frame>)
    ensures |Raws(frames)| == RawBytes(frames)
  {
    if frames != [] {
      var last := |frames| - 1;
      RawsLength(frames[..last]);
      RawBytesAppend(frames[..last], [frames[last]]);
      assert frames[..last] + [frames[last]] == frames;
    }
  }

  lemma PassFramesBytes(clock: nat -> int, sequence: nat, run: Run, frames: seq<Frame>, more: seq<Frame>)
    requires Conserved(clock, sequence, run, frames)
    ensures PassFrames(run, clock, more).writer.bytes == run.writer.bytes + RawBytes(more)
  {
    PassFramesConserves(clock, sequence, run, frames, more);
    RawsLength(frames);
    RawsLength(frames + more);
    RawBytesAppend(frames, more);
  }

  lemma FeedBytes(t: Transport, m: Memory, chunk: seq<byte>)
    ensures RawBytes(FeedOnce(t, m, chunk).frames) <= |m.buffer| + |chunk|
  {
    ScanSkips(t, m.(buffer := m.buffer + chunk, pending := 0), m.pending, []);
    FeedIsParse(t, m, chunk);
  }

  // ----- one connection

  /** The framer's memory is what a parse of everything fed to this connection leaves. */
  ghost predicate InStep(t: Transport, m: Memory, fed: seq<byte>) {
    m.buffer == Parse(t, fed, 0).rest && m.offset == Parse(t, fed, 0).offset
  }

  ghost predicate Streaming(cfg: Config, clock: nat -> int, sequence: nat, run: Run, m: Memory) {
    && run.fed != [] && InStep(cfg.transport, m, run.fed[|run.fed| - 1])
    && Conserved(clock, sequence, run, FramesOf(cfg.transport, run.fed))
    && WithinBudget(cfg, run.writer.bytes) && run.buffer.capacity == cfg.capacity
  }

  ghost predicate Quiet(cfg: Config, clock: nat -> int, sequence: nat, run: Run) {
    && Conserved(clock, sequence, run, FramesOf(cfg.transport, run.fed))
    && WithinBudget(cfg, run.writer.bytes) && run.buffer.capacity == cfg.capacity
  }

  lemma FedFrames(t: Transport, fed: seq<seq<byte>>, m: Memory, chunk: seq<byte>)
    requires fed != [] && InStep(t, m, fed[|fed| - 1])
    ensures var last := |fed| - 1;
            && FramesOf(t, fed[last := fed[last] + chunk]) == FramesOf(t, fed) + FeedOnce(t, m, chunk).frames
            && InStep(t, FeedOnce(t, m, chunk).memory, fed[last] + chunk)
  {
    hide Parse, FeedOnce;
    var last := |fed| - 1;
    var fed' := fed[last := fed[last] + chunk];
    FeedIsParse(t, m, chunk);
    ParseSplit(t, fed[last], chunk, 0);
    assert fed'[..last] == fed[..last];
    Associate(FramesOf(t, fed[..last]), Parse(t, fed[last], 0).frames, FeedOnce(t, m, chunk).frames);
  }

  lemma DigestConserves(cfg: Config, clock: nat -> int, sequence: nat, run: Run, m: Memory, chunk: seq<byte>)
    requires Streaming(cfg, clock, sequence, run, m) && |chunk| <= READ_SIZE && run.writer.bytes < cfg.budget
    ensures Streaming(cfg, clock, sequence, Digest(cfg, clock, run, m, chunk), FeedOnce(cfg.transport, m, chunk).memory)
  {
    hide Conserved, Parse, FeedOnce, FramesOf, PassFrames;
    var t := cfg.transport;
    var more := FeedOnce(t, m, chunk).frames;
    var noted := NoteFed(run, chunk);
    FedFrames(t, run.fed, m, chunk);
    ConservedSame(clock, sequence, run, noted, FramesOf(t, run.fed));
    PassFramesConserves(clock, sequence, noted, FramesOf(t, run.fed), more);
    PassFramesBytes(clock, sequence, noted, FramesOf(t, run.fed), more);
    FeedBytes(t, m, chunk);
  }

  lemma QuietSame(cfg: Config, clock: nat -> int, sequence: nat, a: Run, b: Run)
    requires Quiet(cfg, clock, sequence, a)
    requires b.buffer == a.buffer && b.forwarded == a.forwarded && b.nextSeq == a.nextSeq && b.fed == a.fed
    requires b.writer.(disconnects := 0, reconnects := 0) == a.writer.(disconnects := 0, reconnects := 0)
    ensures Quiet(cfg, clock, sequence, b)
  {
    ConservedSame(clock, sequence, a, b, FramesOf(cfg.transport, a.fed));
  }

  lemma {:induction false} StreamLoopConserves(cfg: Config, clock: nat -> int, sequence: nat, run: Run, m: Memory,
                                               data: seq<byte>, ticks: seq<Tick>, recvs: seq<Recv>)
    requires Streaming(cfg, clock, sequence, run, m) && ValidReads(recvs)
    ensures Quiet(cfg, clock, sequence, StreamLoop(cfg, clock, run, m, data, ticks, recvs).0)
    decreases |ticks|
  {
    hide Conserved, FramesOf, InStep, Digest, FeedOnce;
    if ticks != [] {
      var r := Interrupt(run, ticks[0].shutdown);
      var t := cfg.transport;
      ConservedSame(clock, sequence, run, r, FramesOf(t, run.fed));
      if ticks[0].timeUp || r.writer.bytes >= cfg.budget || ticks[0].idle {
        QuietSame(cfg, clock, sequence, r, Enter(r, RECONNECTING));
      } else if data != [] {
        DigestConserves(cfg, clock, sequence, r, m, Take(data));
        StreamLoopConserves(cfg, clock, sequence, Digest(cfg, clock, r, m, Take(data)),
                            FeedOnce(t, m, Take(data)).memory, Leave(data), ticks[1..], recvs);
      } else if recvs != [] {
        match recvs[0]
        case RecvTimeout => StreamLoopConserves(cfg, clock, sequence, r, m, [], ticks[1..], recvs[1..]);
        case RecvError => QuietSame(cfg, clock, sequence, r, PartialOrFailed(r));
        case Data(bytes) =>
          if bytes != [] {
            DigestConserves(cfg, clock, sequence, r, m, bytes);
            StreamLoopConserves(cfg, clock, sequence, Digest(cfg, clock, r, m, bytes),
                                FeedOnce(t, m, bytes).memory, [], ticks[1..], recvs[1..]);
          }
      }
    }
  }

  // ----- the whole run

  lemma OpenedStreams(cfg: Config, clock: nat -> int, sequence: nat, run: Run)
    requires Quiet(cfg, clock, sequence, run)
    ensures Streaming(cfg, clock, sequence, Opened(run), FRESH)
  {
    var fed := run.fed + [[]];
    assert fed[..|fed| - 1] == run.fed;
    assert Parse(cfg.transport, [], 0) == Parsed([], [], 0);
    assert FramesOf(cfg.transport, run.fed) + [] == FramesOf(cfg.transport, run.fed);
    ConservedSame(clock, sequence, run, Opened(run), FramesOf(cfg.transport, run.fed));
  }

  lemma TryConserves(cfg: Config, clock: nat -> int, sequence: nat, run: Run, a: Attempt)
    requires Quiet(cfg, clock, sequence, run) && ValidAttempt(a)
    ensures Quiet(cfg, clock, sequence, Try(cfg, clock, run, a).run)
  {
    hide Quiet, StreamLoop, ValidateStreamResponse, Delay;
    var dialing := Interrupt(Enter(run.(attempts := run.attempts + 1), CONNECTING), a.shutdownDialing);
    QuietSame(cfg, clock, sequence, run, dialing);
    match a.dial
    case DialFailed =>
      QuietSame(cfg, clock, sequence, run, Try(cfg, clock, run, a).run);
    case Connected(shutdown, head) =>
      var talking := Interrupt(Enter(dialing, AUTHENTICATING), shutdown);
      QuietSame(cfg, clock, sequence, run, talking);
      ConverseConserves(cfg, clock, sequence, talking, head);
  }

  lemma ConverseConserves(cfg: Config, clock: nat -> int, sequence: nat, run: Run, head: Head)
    requires Quiet(cfg, clock, sequence, run) && run.attempts >= 1
    requires head.Head? && head.first.First? ==> ValidReads(head.first.recvs)
    ensures Quiet(cfg, clock, sequence, Converse(cfg, clock, run, head).run)
  {
    hide Quiet, StreamLoop, ValidateStreamResponse, Delay;
    if head.Head? && head.first.First? && ValidateStreamResponse(head.status, head.rest + head.first.bytes).Accepted? {
      var f := head.first;
      var (r, stop) := StreamLoop(cfg, clock, Opened(run), FRESH, head.rest + f.bytes, f.ticks, f.recvs);
      OpenedStreams(cfg, clock, sequence, run);
      StreamLoopConserves(cfg, clock, sequence, Opened(run), FRESH, head.rest + f.bytes, f.ticks, f.recvs);
      QuietSame(cfg, clock, sequence, r, AfterStream(cfg, r, stop, f.timeUp).run);
    } else {
      QuietSame(cfg, clock, sequence, run, Converse(cfg, clock, run, head).run);
    }
  }

  lemma {:induction false} LoopConserves(cfg: Config, clock: nat -> int, sequence: nat, run: Run, script: seq<Attempt>)
    requires Quiet(cfg, clock, sequence, run) && forall a <- script :: ValidAttempt(a)
    ensures Quiet(cfg, clock, sequence, Loop(cfg, clock, run, script).run)
    decreases |script|
  {
    hide Quiet, Try;
    if script != [] {
      var r := Interrupt(run, script[0].shutdown);
      QuietSame(cfg, clock, sequence, run, r);
      QuietSame(cfg, clock, sequence, run, PartialOrFailed(r));
      TryConserves(cfg, clock, sequence, r, script[0]);
      var next := Try(cfg, clock, r, script[0]);
      if next.Again? {
        LoopConserves(cfg, clock, sequence, next.run, script[1..]);
      }
    }
  }

  lemma StartQuiet(cfg: Config, clock: nat -> int, sequence: nat, shutdown: bool)
    requires ValidConfig(cfg)
    ensures Quiet(cfg, clock, sequence, Start(cfg, sequence, shutdown))
  {
    assert Rows([], sequence, clock) == [];
  }

  /**
   * On every run that returns: the stream file is the concatenation, in order, of the frames of
   * what each connection was fed; every frame has its index row; and exactly the frames that
   * passed their check reach the consumer, in order, none dropped.
   */
  lemma CaptureConserves(cfg: Config, clock: nat -> int, sequence: nat, shutdown: bool, script: seq<Attempt>)
    requires ValidConfig(cfg) && forall a <- script :: ValidAttempt(a)
    requires CaptureRun.CaptureStream(cfg, clock, Start(cfg, sequence, shutdown), script).Finished?
    ensures var run := CaptureRun.CaptureStream(cfg, clock, Start(cfg, sequence, shutdown), script).run;
            var frames := FramesOf(cfg.transport, run.fed);
            && Captured(clock, sequence, run, frames)
            && run.forwarded == Lives(frames, sequence) && |run.forwarded| == run.writer.valid
            && run.buffer.items == [] && run.buffer.dropped == 0
            && run.buffer.highWater == Min(cfg.capacity, |run.forwarded|)
            && run.buffer.waits == 2 * (|run.forwarded| - run.buffer.highWater)
  {
    var start := Start(cfg, sequence, shutdown);
    StartQuiet(cfg, clock, sequence, shutdown);
    LoopConserves(cfg, clock, sequence, start, script);
  }

  /** Captured bytes never pass the budget by more than one full buffer and one read. */
  lemma BudgetBound(cfg: Config, clock: nat -> int, sequence: nat, shutdown: bool, script: seq<Attempt>)
    requires ValidConfig(cfg) && forall a <- script :: ValidAttempt(a)
    ensures var bytes := CaptureRun.CaptureStream(cfg, clock, Start(cfg, sequence, shutdown), script).run.writer.bytes;
            && (cfg.budget <= 0 ==> bytes == 0)
            && (cfg.budget >= 1 ==> bytes <= cfg.budget + cfg.transport.max + 4100)
  {
    StartQuiet(cfg, clock, sequence, shutdown);
    LoopConserves(cfg, clock, sequence, Start(cfg, sequence, shutdown), script);
  }

  // ----- the index locates every frame, in the file and in what was fed

  /** Where the frame of row i begins in the stream file. */
  function LengthBefore(index: seq<Row>, i: nat): nat
    requires i <= |index|
  {
    if i == 0 then 0 else LengthBefore(index, i - 1) + index[i - 1].length
  }

  ghost predicate RowDescribes(row: Row, f: Frame, number: nat, clock: nat -> int) {
    && row.sequence == number && row.mono == clock(number)
    && row.offset == f.offset && row.length == |f.raw| && row.message == f.message && row.crcOk == f.crcOk
  }

  lemma RowsDescribe(frames: seq<Frame>, sequence: nat, clock: nat -> int)
    ensures |Rows(frames, sequence, clock)| == |frames|
    ensures forall i :: 0 <= i < |frames| ==> RowDescribes(Rows(frames, sequence, clock)[i], frames[i], sequence + i, clock)
  {}

  /** Each frame stands in the concatenation behind the lengths of those before it. */
  lemma {:induction false} RowLocatesInFile(frames: seq<Frame>, index: seq<Row>, i: nat)
    requires |index| == |frames| && i < |frames|
    requires forall j :: 0 <= j < |frames| ==> index[j].length == |frames[j].raw|
    ensures var start := LengthBefore(index, i);
            && start + index[i].length <= |Raws(frames)|
            && Raws(frames)[start..start + index[i].length] == frames[i].raw
    decreases |frames|
  {
    hide LengthBefore;
    var n := |frames| - 1;
    LengthOfFront(frames, index, i);
    if i < n {
      RowLocatesInFile(frames[..n], index[..n], i);
      LengthBeforeFront(index, n, i);
      var start := LengthBefore(index, i);
      assert Raws(frames)[start..start + index[i].length] == Raws(frames[..n])[start..start + index[i].length];
    } else {
      assert Raws(frames) == Raws(frames[..n]) + frames[n].raw;
    }
  }

  lemma {:induction false} LengthBeforeFront(index: seq<Row>, n: nat, i: nat)
    requires i <= n <= |index|
    ensures LengthBefore(index[..n], i) == LengthBefore(index, i)
  {
    if i > 0 {
      LengthBeforeFront(index, n, i - 1);
    }
  }

  lemma {:induction false} LengthOfFront(frames: seq<Frame>, index: seq<Row>, i: nat)
    requires |index| == |frames| && i <= |frames|
    requires forall j :: 0 <= j < |frames| ==> index[j].length == |frames[j].raw|
    ensures LengthBefore(index, i) == |Raws(frames[..i])|
    decreases i
  {
    if i > 0 {
      LengthOfFront(frames, index, i - 1);
      assert frames[..i][..i - 1] == frames[..i - 1];
    }
  }

  /** Frame number i is a frame of connection c, and those bytes of what c was fed. */
  ghost predicate CameFrom(t: Transport, fed: seq<seq<byte>>, i: nat, c: nat, f: Frame) {
    && c < |fed| && |FramesOf(t, fed[..c])| <= i < |FramesOf(t, fed[..c + 1])|
    && f.offset + |f.raw| <= |fed[c]| && fed[c][f.offset..f.offset + |f.raw|] == f.raw
  }

  lemma {:induction false} RowLocatesInConnection(t: Transport, fed: seq<seq<byte>>, i: nat) returns (c: nat)
    requires i < |FramesOf(t, fed)|
    ensures CameFrom(t, fed, i, c, FramesOf(t, fed)[i])
    decreases |fed|
  {
    hide Parse;
    var n := |fed| - 1;
    var front := FramesOf(t, fed[..n]);
    assert fed[..n + 1] == fed;
    if i < |front| {
      c := RowLocatesInConnection(t, fed[..n], i);
      assert fed[..n][..c] == fed[..c] && fed[..n][..c + 1] == fed[..c + 1];
    } else {
      c := n;
      FrameIsSlice(t, fed[n], i - |front|);
    }
  }

  lemma FrameIsSlice(t: Transport, s: seq<byte>, k: nat)
    requires k < |Parse(t, s, 0).frames|
    ensures var f := Parse(t, s, 0).frames[k];
            f.offset + |f.raw| <= |s| && s[f.offset..f.offset + |f.raw|] == f.raw
  {
    hide Parse, Framed, FrameAt;
    ParseTiles(t, s, 0);
    assert Slice(Parse(t, s, 0).frames[k], s, 0);
  }

  /**
   * On every run that returns: row i of the index has number i of the run, the arrival time taken for it and
   * the offset, length, message and verdict of frame i; its length of bytes, behind the lengths of the rows
   * before it in the stream file, and at its offset in what its connection was fed, are that frame.
   */
  lemma IndexLocatesFrames(cfg: Config, clock: nat -> int, sequence: nat, shutdown: bool, script: seq<Attempt>)
    requires ValidConfig(cfg) && forall a <- script :: ValidAttempt(a)
    requires CaptureRun.CaptureStream(cfg, clock, Start(cfg, sequence, shutdown), script).Finished?
    ensures var run := CaptureRun.CaptureStream(cfg, clock, Start(cfg, sequence, shutdown), script).run;
            var frames, index := FramesOf(cfg.transport, run.fed), run.writer.index;
            && |index| == |frames|
            && forall i | 0 <= i < |index| ::
                 && index[i].sequence == sequence + i && index[i].mono == clock(sequence + i)
                 && index[i].offset == frames[i].offset && index[i].length == |frames[i].raw|
                 && index[i].message == frames[i].message && index[i].crcOk == frames[i].crcOk
                 && (var start := LengthBefore(index, i);
                     start + index[i].length <= |run.writer.stream|
                     && run.writer.stream[start..start + index[i].length] == frames[i].raw)
                 && exists c | 0 <= c < |run.fed| ::
                      && |FramesOf(cfg.transport, run.fed[..c])| <= i < |FramesOf(cfg.transport, run.fed[..c + 1])|
                      && index[i].offset + index[i].length <= |run.fed[c]|
                      && run.fed[c][index[i].offset..index[i].offset + index[i].length] == frames[i].raw
  {
    hide CaptureRun.CaptureStream, Lives, CountMessage, FramesOf, Raws, Rows, LengthBefore, Start;
    CaptureConserves(cfg, clock, sequence, shutdown, script);
    var run := CaptureRun.CaptureStream(cfg, clock, Start(cfg, sequence, shutdown), script).run;
    var frames, index := FramesOf(cfg.transport, run.fed), run.writer.index;
    RowsDescribe(frames, sequence, clock);
    forall i | 0 <= i < |index|
      ensures var start := LengthBefore(index, i);
              start + index[i].length <= |run.writer.stream|
              && run.writer.stream[start..start + index[i].length] == frames[i].raw
      ensures exists c :: CameFrom(cfg.transport, run.fed, i, c, frames[i])
    {
      RowLocatesInFile(frames, index, i);
      var c := RowLocatesInConnection(cfg.transport, run.fed, i);
    }
  }

  // ----- the index passes its own validation

  function Lines(index: seq<Row>): seq<IndexLine> {
    seq(|index|, i requires 0 <= i < |index| => Fields(index[i].sequence, index[i].mono))
  }

  /** Sequence numbers run on across reconnects and arrival times never step back. */
  lemma IndexHasNoFindings(cfg: Config, clock: nat -> int, sequence: nat, shutdown: bool, script: seq<Attempt>)
    requires ValidConfig(cfg) && forall a <- script :: ValidAttempt(a)
    requires forall i: nat, j: nat :: i <= j ==> clock(i) <= clock(j)
    ensures var index := CaptureRun.CaptureStream(cfg, clock, Start(cfg, sequence, shutdown), script).run.writer.index;
            Findings(Lines(index), 0, None) == []
  {
    hide Loop, Findings, Lines, Quiet, Sound;
    var start := Start(cfg, sequence, shutdown);
    StartQuiet(cfg, clock, sequence, shutdown);
    LoopConserves(cfg, clock, sequence, start, script);
    QuietIndex(cfg, clock, sequence, Loop(cfg, clock, start, script).run);
  }

  lemma QuietIndex(cfg: Config, clock: nat -> int, sequence: nat, run: Run)
    requires Quiet(cfg, clock, sequence, run)
    requires forall i: nat, j: nat :: i <= j ==> clock(i) <= clock(j)
    ensures Findings(Lines(run.writer.index), 0, None) == []
  {
    hide Findings, Lines, Rows, Sound;
    RowsAreSound(FramesOf(cfg.transport, run.fed), sequence, clock);
    NoFindingIffSound(Lines(run.writer.index), 0, None);
  }

  lemma RowsAreSound(frames: seq<Frame>, sequence: nat, clock: nat -> int)
    requires forall i: nat, j: nat :: i <= j ==> clock(i) <= clock(j)
    ensures Sound(Lines(Rows(frames, sequence, clock)), 0, None)
  {
    var lines := Lines(Rows(frames, sequence, clock));
    forall i | 0 < i < |lines|
      ensures lines[i].sequence == lines[i - 1].sequence + 1 && lines[i - 1].mono <= lines[i].mono
    {
      assert clock(sequence + (i - 1)) <= clock(sequence + i);
    }
  }

  // ----- what is fed is what the sockets delivered

  function Delivered(recvs: seq<Recv>): seq<byte> {
    if recvs == [] then []
    else (if recvs[0].Data? then recvs[0].bytes else []) + Delivered(recvs[1..])
  }

  /** Everything the stream socket of an attempt can deliver behind the response head. */
  function Sent(a: Attempt): seq<byte> {
    if a.dial.Connected? && a.dial.head.Head? && a.dial.head.first.First?
    then a.dial.head.rest + a.dial.head.first.bytes + Delivered(a.dial.head.first.recvs)
    else []
  }

  lemma DigestFeeds(cfg: Config, clock: nat -> int, run: Run, m: Memory, chunk: seq<byte>)
    requires run.fed != []
    ensures var fed := Digest(cfg, clock, run, m, chunk).fed;
            var last := |run.fed| - 1;
            |fed| == |run.fed| && fed[..last] == run.fed[..last] && fed[last] == run.fed[last] + chunk
  {
    hide FeedOnce, PassFrames;
  }

  lemma {:induction false} StreamLoopFeedsAPrefix(cfg: Config, clock: nat -> int, run: Run, m: Memory, data: seq<byte>,
                                                  ticks: seq<Tick>, recvs: seq<Recv>)
    requires run.fed != []
    ensures var r := StreamLoop(cfg, clock, run, m, data, ticks, recvs).0;
            var last := |run.fed| - 1;
            && |r.fed| == |run.fed| && r.fed[..last] == run.fed[..last]
            && r.fed[last] <= run.fed[last] + data + Delivered(recvs)
    decreases |ticks|
  {
    hide StreamLoop, Digest, FeedOnce, Take, Leave, Delivered;
    if ticks == [] {
      NoTicksLeft(cfg, clock, run, m, data, recvs);
    } else {
      StreamLoopUnfold(cfg, clock, run, m, data, ticks, recvs);
      var k := ticks[0];
      var r := Interrupt(run, k.shutdown);
      var t := cfg.transport;
      var fed := run.fed[|run.fed| - 1];
      if k.timeUp || r.writer.bytes >= cfg.budget || k.idle {
      } else if data != [] {
        DigestFeeds(cfg, clock, r, m, Take(data));
        StreamLoopFeedsAPrefix(cfg, clock, Digest(cfg, clock, r, m, Take(data)), FeedOnce(t, m, Take(data)).memory,
                               Leave(data), ticks[1..], recvs);
        TakeLeave(fed, data, Delivered(recvs));
      } else if recvs != [] {
        DeliveredStep(fed, recvs);
        if recvs[0].RecvTimeout? {
          StreamLoopFeedsAPrefix(cfg, clock, r, m, [], ticks[1..], recvs[1..]);
        } else if recvs[0].Data? && recvs[0].bytes != [] {
          var bytes := recvs[0].bytes;
          DigestFeeds(cfg, clock, r, m, bytes);
          StreamLoopFeedsAPrefix(cfg, clock, Digest(cfg, clock, r, m, bytes), FeedOnce(t, m, bytes).memory,
                                 [], ticks[1..], recvs[1..]);
        }
      }
    }
  }

  lemma TakeLeave(fed: seq<byte>, data: seq<byte>, more: seq<byte>)
    ensures fed + Take(data) + Leave(data) + more == fed + data + more
  {
    assert Take(data) + Leave(data) == data;
    Associate(fed, Take(data), Leave(data));
  }

  lemma DeliveredStep(fed: seq<byte>, recvs: seq<Recv>)
    requires recvs != []
    ensures recvs[0].RecvTimeout? ==> fed + [] + Delivered(recvs[1..]) == fed + [] + Delivered(recvs)
    ensures recvs[0].Data? ==> fed + recvs[0].bytes + [] + Delivered(recvs[1..]) == fed + [] + Delivered(recvs)
  {
    var rest := Delivered(recvs[1..]);
    assert fed + [] == fed && [] + rest == rest;
    if recvs[0].Data? {
      var bytes := recvs[0].bytes;
      assert fed + bytes + [] == fed + bytes;
      Associate(fed, bytes, rest);
    }
  }

  /** What is delivered before the empty read that ends a stream. */
  function BeforeEnd(recvs: seq<Recv>): seq<byte> {
    if recvs == [] || recvs[0] == Data([]) then []
    else (if recvs[0].Data? then recvs[0].bytes else []) + BeforeEnd(recvs[1..])
  }

  /** A connection that runs to the end of its stream is fed every byte of it. */
  lemma {:induction false} WholeStreamIsFed(cfg: Config, clock: nat -> int, run: Run, m: Memory, data: seq<byte>,
                                            ticks: seq<Tick>, recvs: seq<Recv>)
    requires run.fed != []
    ensures var (r, stop) := StreamLoop(cfg, clock, run, m, data, ticks, recvs);
            stop.EndOfStream? ==>
              |r.fed| == |run.fed| && r.fed[|run.fed| - 1] == run.fed[|run.fed| - 1] + data + BeforeEnd(recvs)
    decreases |ticks|
  {
    hide StreamLoop, Digest, FeedOnce, Take, Leave, BeforeEnd;
    if ticks == [] {
      NoTicksLeft(cfg, clock, run, m, data, recvs);
    } else {
      StreamLoopUnfold(cfg, clock, run, m, data, ticks, recvs);
      var k := ticks[0];
      var r := Interrupt(run, k.shutdown);
      var t := cfg.transport;
      var fed := run.fed[|run.fed| - 1];
      if k.timeUp || r.writer.bytes >= cfg.budget || k.idle {
      } else if data != [] {
        DigestFeeds(cfg, clock, r, m, Take(data));
        WholeStreamIsFed(cfg, clock, Digest(cfg, clock, r, m, Take(data)), FeedOnce(t, m, Take(data)).memory,
                         Leave(data), ticks[1..], recvs);
        TakeLeave(fed, data, BeforeEnd(recvs));
      } else if recvs != [] {
        EndStep(fed, recvs);
        if recvs[0].RecvTimeout? {
          WholeStreamIsFed(cfg, clock, r, m, [], ticks[1..], recvs[1..]);
        } else if recvs[0].Data? && recvs[0].bytes != [] {
          var bytes := recvs[0].bytes;
          DigestFeeds(cfg, clock, r, m, bytes);
          WholeStreamIsFed(cfg, clock, Digest(cfg, clock, r, m, bytes), FeedOnce(t, m, bytes).memory,
                           [], ticks[1..], recvs[1..]);
        }
      }
    }
  }

  lemma EndStep(fed: seq<byte>, recvs: seq<Recv>)
    requires recvs != []
    ensures recvs[0].RecvTimeout? ==> fed + [] + BeforeEnd(recvs[1..]) == fed + [] + BeforeEnd(recvs)
    ensures recvs[0].Data? && recvs[0].bytes != [] ==>
              fed + recvs[0].bytes + [] + BeforeEnd(recvs[1..]) == fed + [] + BeforeEnd(recvs)
    ensures recvs[0] == Data([]) ==> fed + [] + BeforeEnd(recvs) == fed
  {
    var rest := BeforeEnd(recvs[1..]);
    assert fed + [] == fed && [] + rest == rest;
    if recvs[0].Data? {
      var bytes := recvs[0].bytes;
      assert fed + bytes + [] == fed + bytes;
      Associate(fed, bytes, rest);
    }
  }

  /** What one connection was fed: the front part of what its socket delivered, all of it if the stream ended. */
  predicate FedBy(c: seq<byte>, a: Attempt, stop: Stop)
    requires Streams(a)
  {
    var head := a.dial.head;
    && c <= Sent(a)
    && (stop.EndOfStream? ==> c == head.rest + head.first.bytes + BeforeEnd(head.first.recvs))
  }

  /** Every attempt that streams has its own fed entry, in order, and no other entry is there. */
  predicate FedInOrder(fed: seq<seq<byte>>, stops: seq<Stop>, tried: seq<Attempt>)
    decreases |tried|
  {
    if tried == [] then fed == [] && stops == []
    else if Streams(tried[0]) then
      && fed != [] && stops != [] && FedBy(fed[0], tried[0], stops[0])
      && FedInOrder(fed[1..], stops[1..], tried[1..])
    else FedInOrder(fed, stops, tried[1..])
  }

  lemma NothingFed()
    ensures FedInOrder([], [], [])
  {}

  lemma FedMore(c: seq<byte>, fed: seq<seq<byte>>, stop: Stop, stops: seq<Stop>, a: Attempt, tried: seq<Attempt>)
    requires FedInOrder(fed, stops, tried) && Streams(a) && FedBy(c, a, stop)
    ensures FedInOrder([c] + fed, [stop] + stops, [a] + tried)
  {
    hide FedBy, Streams;
    assert ([c] + fed)[1..] == fed && ([stop] + stops)[1..] == stops && ([a] + tried)[1..] == tried;
  }

  lemma FedSame(fed: seq<seq<byte>>, stops: seq<Stop>, a: Attempt, tried: seq<Attempt>)
    requires FedInOrder(fed, stops, tried) && !Streams(a)
    ensures FedInOrder(fed, stops, [a] + tried)
  {
    hide FedBy, Streams;
    assert ([a] + tried)[1..] == tried;
  }

  /** The entry that an attempt adds when it streams. */
  lemma StreamFeeds(cfg: Config, clock: nat -> int, run: Run, a: Attempt) returns (c: seq<byte>)
    requires Streams(a)
    ensures var (r, stop) := StreamOf(cfg, clock, run, a);
            r.fed == run.fed + [c] && FedBy(c, a, stop)
  {
    hide StreamLoop, Delivered, BeforeEnd, ValidateStreamResponse;
    var head := a.dial.head;
    var f := head.first;
    var begun := Opened(Talking(run, a));
    var fed := StreamOf(cfg, clock, run, a).0.fed;
    StreamLoopFeedsAPrefix(cfg, clock, begun, FRESH, head.rest + f.bytes, f.ticks, f.recvs);
    WholeStreamIsFed(cfg, clock, begun, FRESH, head.rest + f.bytes, f.ticks, f.recvs);
    c := fed[|run.fed|];
    assert begun.fed == run.fed + [[]] && begun.fed[..|run.fed|] == run.fed;
    assert fed == fed[..|run.fed|] + [c];
    assert [] + (head.rest + f.bytes) == head.rest + f.bytes;
  }

  lemma AfterStreamFeedsNothing(cfg: Config, run: Run, stop: Stop, timeUp: bool)
    requires run.attempts >= 1
    ensures AfterStream(cfg, run, stop, timeUp).run.fed == run.fed
  {
    hide Delay;
  }

  lemma StreamIsAllFed(cfg: Config, clock: nat -> int, run: Run, a: Attempt)
    requires Streams(a)
    ensures Try(cfg, clock, run, a).run.fed == StreamOf(cfg, clock, run, a).0.fed
  {
    hide Try, StreamOf, AfterStream, ValidateStreamResponse;
    TryOfStream(cfg, clock, run, a);
    var (r, stop) := StreamOf(cfg, clock, run, a);
    AfterStreamFeedsNothing(cfg, r, stop, a.dial.head.first.timeUp);
  }

  lemma RetryFeedsNothing(cfg: Config, run: Run, exhausted: Run)
    requires run.attempts >= 1 && exhausted.fed == run.fed
    ensures RetryUnlessExhausted(cfg, run, exhausted).run.fed == run.fed
  {
    hide Delay;
  }

  lemma TryFeedsNothing(cfg: Config, clock: nat -> int, run: Run, a: Attempt)
    requires !Streams(a)
    ensures Try(cfg, clock, run, a).run.fed == run.fed
  {
    hide RetryUnlessExhausted, ValidateStreamResponse, StreamLoop, AfterStream;
    var dialing := Interrupt(Enter(run.(attempts := run.attempts + 1), CONNECTING), a.shutdownDialing);
    var retrying := Enter(if a.dial.Connected? then Talking(run, a) else dialing, RECONNECTING);
    RetryFeedsNothing(cfg, retrying, retrying.(status := FAILED));
    RetryFeedsNothing(cfg, retrying, PartialOrFailed(retrying));
  }

  /** What an attempt adds to what is fed: one entry if it streams, else none. */
  lemma TryFeeds(cfg: Config, clock: nat -> int, run: Run, a: Attempt) returns (more: seq<seq<byte>>)
    ensures Try(cfg, clock, run, a).run.fed == run.fed + more
    ensures if Streams(a) then |more| == 1 && FedBy(more[0], a, StreamOf(cfg, clock, run, a).1) else more == []
  {
    hide Try, FedBy, Streams, StreamOf, AfterStream;
    more := [];
    if Streams(a) {
      var c := StreamFeeds(cfg, clock, run, a);
      more := [c];
      StreamIsAllFed(cfg, clock, run, a);
    } else {
      TryFeedsNothing(cfg, clock, run, a);
      assert run.fed + more == run.fed;
    }
  }

  lemma {:induction false} LoopFeeds(cfg: Config, clock: nat -> int, run: Run, script: seq<Attempt>) returns (more: seq<seq<byte>>)
    ensures var last := Loop(cfg, clock, run, script).run;
            && run.attempts <= last.attempts <= run.attempts + |script| && last.fed == run.fed + more
            && FedInOrder(more, Stops(cfg, clock, run, script), script[..last.attempts - run.attempts])
    decreases |script|
  {
    hide Try, Loop, Stops, Streams, StreamOf, FedInOrder, FedBy;
    more := [];
    NothingFed();
    assert run.fed + more == run.fed && script[..0] == [];
    if script == [] {
      NothingTried(cfg, clock, run);
    } else {
      StopsUnfold(cfg, clock, run, script);
      var a, later := script[0], script[1..];
      var r := Interrupt(run, a.shutdown);
      if !r.shutdown && !a.timeUp && r.writer.bytes < cfg.budget {
        var added := TryFeeds(cfg, clock, r, a);
        TryCounts(cfg, clock, r, a);
        var next := Try(cfg, clock, r, a);
        var rest, stops, tried := [], [], 0;
        if next.Again? {
          rest := LoopFeeds(cfg, clock, next.run, later);
          stops := Stops(cfg, clock, next.run, later);
          tried := Loop(cfg, clock, next.run, later).run.attempts - next.run.attempts;
        }
        assert later[..0] == [];
        more := added + rest;
        assert run.fed + added + rest == run.fed + more;
        assert script[..tried + 1] == [a] + later[..tried];
        if Streams(a) {
          FedMore(added[0], rest, StreamOf(cfg, clock, r, a).1, stops, a, later[..tried]);
          assert added == [added[0]];
        } else {
          FedSame(rest, stops, a, later[..tried]);
          assert more == rest && [] + stops == stops;
        }
      }
    }
  }

  lemma CloseFeedsNothing(run: Run)
    ensures Close(run).fed == run.fed && Close(run).attempts == run.attempts
  {}

  /**
   * On every run each attempt that streamed has its own entry among what was fed, in order: a front part
   * of what its socket delivered, and everything before the end when its stream ended.
   */
  lemma FedIsDelivered(cfg: Config, clock: nat -> int, sequence: nat, shutdown: bool, script: seq<Attempt>)
    ensures var start := Start(cfg, sequence, shutdown);
            var run := CaptureRun.CaptureStream(cfg, clock, start, script).run;
            && run.attempts <= |script|
            && FedInOrder(run.fed, Stops(cfg, clock, start, script), script[..run.attempts])
  {
    hide Loop, FedInOrder, Enter, Stops, Close;
    var start := Start(cfg, sequence, shutdown);
    var more := LoopFeeds(cfg, clock, start, script);
    assert [] + more == more;
    CloseFeedsNothing(Loop(cfg, clock, start, script).run);
  }
}
