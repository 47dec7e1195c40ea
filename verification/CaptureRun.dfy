/**
 * A bounded capture with reconnects, as a function of everything the environment answers.
 * A script holds one Attempt per turn of the connection loop; an Attempt holds what dialling,
 * the handshake and each turn of the read loop come back with, including shutdown requests.
 */
module CaptureRun {
  import opened Wire
  import opened Framing
  import opened StreamingFraming
  import opened Handshake
  import opened BoundedBuffering
  import opened CaptureWriting

  datatype ConnState =
    | DISCONNECTED | CONNECTING | AUTHENTICATING | STREAMING | RECONNECTING | DEGRADED | BLOCKED | STOPPED

  datatype Status = COMPLETE | PARTIAL | FAILED

  datatype Config = Config(
    transport: Transport, maxReconnects: nat, baseDelay: real, maxDelay: real, capacity: nat, budget: int)

  predicate ValidConfig(cfg: Config) {
    1 <= cfg.transport.max && cfg.baseDelay > 0.0 && cfg.maxDelay > 0.0 && cfg.capacity >= 1
  }

  const READ_SIZE := 4096

  // ----- what the environment answers

  datatype Recv = Data(bytes: seq<byte>) | RecvTimeout | RecvError

  /** One turn of the read loop: a shutdown request, and what the time and stall checks find. */
  datatype Tick = Tick(shutdown: bool, timeUp: bool, idle: bool)

  /** After the first read: the turns of the loop, and the answers to the reads it makes. */
  datatype FirstRead =
    | First(bytes: seq<byte>, ticks: seq<Tick>, recvs: seq<Recv>, timeUp: bool) | FirstTimeout | FirstError

  datatype Head = Head(status: StatusLine, rest: seq<byte>, first: FirstRead) | HeadTimeout | HeadError

  datatype Dial = Connected(shutdown: bool, head: Head) | DialFailed

  datatype Attempt = Attempt(shutdown: bool, timeUp: bool, shutdownDialing: bool, dial: Dial)

  /** A read returns at most READ_SIZE bytes. */
  predicate ValidReads(recvs: seq<Recv>) {
    forall r <- recvs :: r.Data? ==> |r.bytes| <= READ_SIZE
  }

  predicate ValidAttempt(a: Attempt) {
    a.dial.Connected? && a.dial.head.Head? && a.dial.head.first.First? ==> ValidReads(a.dial.head.first.recvs)
  }

  // ----- the state of a run

  datatype Live = Live(sequence: nat, message: Option<nat>, raw: seq<byte>)

  /** `fed` records the bytes each streaming connection has handed to its framer. */
  datatype Run = Run(
    writer: Capture, buffer: Queue<Live>, forwarded: seq<Live>, nextSeq: nat,
    attempts: nat, reconnects: nat, sleeps: seq<real>, transitions: seq<ConnState>,
    shutdown: bool, status: Status, fed: seq<seq<byte>>)

  function Start(cfg: Config, sequence: nat, shutdown: bool): Run {
    Run(EMPTY_CAPTURE, Queue(cfg.capacity, Block, [], 0, 0, 0), [], sequence,
        0, 0, [], [], shutdown, COMPLETE, [])
  }

  function Enter(run: Run, state: ConnState): Run {
    run.(transitions := run.transitions + [state])
  }

  function Interrupt(run: Run, requested: bool): Run {
    if requested then Enter(run, STOPPED).(shutdown := true) else run
  }

  function PartialOrFailed(run: Run): Run {
    run.(status := if run.writer.bytes > 0 then PARTIAL else FAILED)
  }

  // ----- one frame

  function RowOf(f: Frame, sequence: nat, clock: nat -> int): Row {
    Row(sequence, f.offset, |f.raw|, clock(sequence), f.message, f.crcOk)
  }

  /** A full queue counts the refused put and the wait, gives its head to the consumer, then accepts. */
  function Offer(run: Run, live: Live): Run {
    var tried := TryPut(run.buffer, live);
    if |run.buffer.items| < run.buffer.capacity then run.(buffer := tried)
    else
      var waited := tried.(waits := tried.waits + 1);
      if waited.items == [] then run.(buffer := waited)
      else run.(buffer := Append(waited.(items := waited.items[1..]), live),
                forwarded := run.forwarded + [waited.items[0]])
  }

  /** Every frame is captured and indexed; only one that passed its check is offered on. */
  function PassFrame(run: Run, clock: nat -> int, f: Frame): Run {
    var captured := run.(writer := Write(run.writer, f.raw, RowOf(f, run.nextSeq, clock)), nextSeq := run.nextSeq + 1);
    if f.crcOk then Offer(captured, Live(run.nextSeq, f.message, f.raw)) else captured
  }

  /** The same connection bookkeeping: nothing about attempts, waiting or reconnecting differs. */
  predicate SameAccounts(a: Run, b: Run) {
    && a.buffer.capacity == b.buffer.capacity
    && a.attempts == b.attempts && a.reconnects == b.reconnects && a.sleeps == b.sleeps
    && a.writer.disconnects == b.writer.disconnects && a.writer.reconnects == b.writer.reconnects
  }

  function PassFrames(run: Run, clock: nat -> int, frames: seq<Frame>): (r: Run)
    ensures SameAccounts(run, r)
    ensures r.transitions == run.transitions && r.shutdown == run.shutdown && r.status == run.status && r.fed == run.fed
    decreases |frames|
  {
    if frames == [] then run else PassFrames(PassFrame(run, clock, frames[0]), clock, frames[1..])
  }

  // ----- one connection

  function NoteFed(run: Run, chunk: seq<byte>): Run {
    if run.fed == [] then run
    else
      var last := |run.fed| - 1;
      run.(fed := run.fed[last := run.fed[last] + chunk])
  }

  function Digest(cfg: Config, clock: nat -> int, run: Run, m: Memory, chunk: seq<byte>): Run {
    PassFrames(NoteFed(run, chunk), clock, FeedOnce(cfg.transport, m, chunk).frames)
  }

  datatype Stop = TimeUp | BudgetUsed | Stalled | ClosedByShutdown | EndOfStream | Crashed | StillOpen

  function Take(data: seq<byte>): seq<byte> {
    if |data| <= READ_SIZE then data else data[..READ_SIZE]
  }

  function Leave(data: seq<byte>): seq<byte> {
    if |data| <= READ_SIZE then [] else data[READ_SIZE..]
  }

  /** The read loop, with `data` received but not yet digested. */
  function StreamLoop(cfg: Config, clock: nat -> int, run: Run, m: Memory, data: seq<byte>,
                      ticks: seq<Tick>, recvs: seq<Recv>): (r: (Run, Stop))
    ensures SameAccounts(run, r.0)
    decreases |ticks|
  {
    if ticks == [] then (run, StillOpen)
    else
      var k := ticks[0];
      var r := Interrupt(run, k.shutdown);
      if k.timeUp then (r, TimeUp)
      else if r.writer.bytes >= cfg.budget then (r, BudgetUsed)
      else if k.idle then (Enter(r, RECONNECTING), Stalled)
      else if data != [] then
        StreamLoop(cfg, clock, Digest(cfg, clock, r, m, Take(data)), FeedOnce(cfg.transport, m, Take(data)).memory,
                   Leave(data), ticks[1..], recvs)
      else if recvs == [] then (r, StillOpen)
      else match recvs[0]
        case RecvTimeout => StreamLoop(cfg, clock, r, m, [], ticks[1..], recvs[1..])
        case RecvError => if r.shutdown then (PartialOrFailed(r), ClosedByShutdown) else (r, Crashed)
        case Data(bytes) =>
          if bytes == [] then (r, EndOfStream)
          else StreamLoop(cfg, clock, Digest(cfg, clock, r, m, bytes), FeedOnce(cfg.transport, m, bytes).memory,
                          [], ticks[1..], recvs[1..])
  }

  /** One turn of the read loop. */
  lemma StreamLoopUnfold(cfg: Config, clock: nat -> int, run: Run, m: Memory, data: seq<byte>,
                         ticks: seq<Tick>, recvs: seq<Recv>)
    requires ticks != []
    ensures var k := ticks[0];
            var r := Interrupt(run, k.shutdown);
            StreamLoop(cfg, clock, run, m, data, ticks, recvs)
            == if k.timeUp then (r, TimeUp)
               else if r.writer.bytes >= cfg.budget then (r, BudgetUsed)
               else if k.idle then (Enter(r, RECONNECTING), Stalled)
               else if data != [] then Digested(cfg, clock, r, m, Take(data), Leave(data), ticks[1..], recvs)
               else if recvs == [] then (r, StillOpen)
               else if recvs[0].RecvTimeout? then StreamLoop(cfg, clock, r, m, [], ticks[1..], recvs[1..])
               else if recvs[0].RecvError? then
                 if r.shutdown then (PartialOrFailed(r), ClosedByShutdown) else (r, Crashed)
               else if recvs[0].bytes == [] then (r, EndOfStream)
               else Digested(cfg, clock, r, m, recvs[0].bytes, [], ticks[1..], recvs[1..])
  {
    hide Digest, FeedOnce, Interrupt, Enter, PartialOrFailed, Take, Leave;
  }

  lemma NoTicksLeft(cfg: Config, clock: nat -> int, run: Run, m: Memory, data: seq<byte>, recvs: seq<Recv>)
    ensures StreamLoop(cfg, clock, run, m, data, [], recvs) == (run, StillOpen)
  {}

  /** The read loop after one chunk has been digested. */
  function Digested(cfg: Config, clock: nat -> int, run: Run, m: Memory, chunk: seq<byte>, data: seq<byte>,
                    ticks: seq<Tick>, recvs: seq<Recv>): (Run, Stop)
  {
    StreamLoop(cfg, clock, Digest(cfg, clock, run, m, chunk), FeedOnce(cfg.transport, m, chunk).memory, data, ticks, recvs)
  }

  // ----- attempts

  function Doubled(delay: real, times: nat): real {
    if times == 0 then delay else 2.0 * Doubled(delay, times - 1)
  }

  /** Attempt numbers start at 1. */
  function Delay(cfg: Config, attempt: nat): real
    requires attempt >= 1
  {
    var delay := Doubled(cfg.baseDelay, attempt - 1);
    if delay <= cfg.maxDelay then delay else cfg.maxDelay
  }

  predicate Exhausted(cfg: Config, run: Run) { run.attempts >= cfg.maxReconnects }

  datatype Outcome = Again(run: Run) | Finished(run: Run) | Raised(run: Run) | Waiting(run: Run)

  function Retry(cfg: Config, run: Run): Run
    requires run.attempts >= 1
  {
    run.(sleeps := run.sleeps + [Delay(cfg, run.attempts)], reconnects := run.reconnects + 1,
         writer := NoteReconnect(run.writer))
  }

  function RetryUnlessExhausted(cfg: Config, run: Run, exhausted: Run): Outcome
    requires run.attempts >= 1
  {
    if Exhausted(cfg, run) then Finished(exhausted) else Again(Retry(cfg, run))
  }

  function AfterStream(cfg: Config, run: Run, stop: Stop, timeUp: bool): Outcome
    requires run.attempts >= 1
  {
    if stop.Crashed? then Raised(run)
    else if stop.StillOpen? then Waiting(run)
    else if stop.TimeUp? || timeUp || run.writer.bytes >= cfg.budget then Finished(run)
    else if Exhausted(cfg, run) then
      Finished(if stop.Stalled? || run.writer.bytes == 0 then PartialOrFailed(run) else run)
    else Again(Retry(cfg, Enter(run, RECONNECTING)))
  }

  /** A connection starts with a fresh framer and nothing fed to it. */
  function Opened(run: Run): Run {
    Enter(run, STREAMING).(fed := run.fed + [[]])
  }

  function Converse(cfg: Config, clock: nat -> int, run: Run, head: Head): Outcome
    requires run.attempts >= 1
  {
    match head
    case HeadError => Raised(run)
    case HeadTimeout =>
      var r := Enter(run, RECONNECTING);
      RetryUnlessExhausted(cfg, r, r.(status := FAILED))
    case Head(status, rest, first) =>
      match first
      case FirstError => Raised(run)
      case FirstTimeout =>
        var r := Enter(run, RECONNECTING);
        RetryUnlessExhausted(cfg, r, PartialOrFailed(r))
      case First(bytes, ticks, recvs, timeUp) =>
        match ValidateStreamResponse(status, rest + bytes)
        case Refused(failure) =>
          if IsTerminal(failure) then Finished(PartialOrFailed(Enter(run, BLOCKED)))
          else
            var r := Enter(run, RECONNECTING);
            RetryUnlessExhausted(cfg, r, PartialOrFailed(r))
        case Accepted =>
          var (r, stop) := StreamLoop(cfg, clock, Opened(run), FRESH, rest + bytes, ticks, recvs);
          AfterStream(cfg, r, stop, timeUp)
  }

  function Try(cfg: Config, clock: nat -> int, run: Run, a: Attempt): Outcome {
    var dialing := Interrupt(Enter(run.(attempts := run.attempts + 1), CONNECTING), a.shutdownDialing);
    match a.dial
    case DialFailed =>
      var r := Enter(dialing, RECONNECTING);
      RetryUnlessExhausted(cfg, r, r.(status := FAILED))
    case Connected(shutdown, head) =>
      Converse(cfg, clock, Interrupt(Enter(dialing, AUTHENTICATING), shutdown), head)
  }

  function Loop(cfg: Config, clock: nat -> int, run: Run, script: seq<Attempt>): Outcome
    decreases |script|
  {
    if script == [] then Waiting(run)
    else
      var a := script[0];
      var r := Interrupt(run, a.shutdown);
      if r.shutdown then Finished(PartialOrFailed(r))
      else if a.timeUp || r.writer.bytes >= cfg.budget then Finished(r)
      else
        match Try(cfg, clock, r, a)
        case Again(next) => Loop(cfg, clock, next, script[1..])
        case other => other
  }

  /** The buffer is drained to the consumer and the client stops. */
  function Close(run: Run): Run {
    Enter(run.(forwarded := run.forwarded + run.buffer.items, buffer := run.buffer.(items := [])), STOPPED)
  }

  /** A whole capture: Finished when it returns, Raised when a socket error escapes it. */
  function CaptureStream(cfg: Config, clock: nat -> int, run: Run, script: seq<Attempt>): Outcome {
    match Loop(cfg, clock, run, script)
    case Finished(last) => Finished(Close(last))
    case other => other
  }

  // ----- which attempts stream, and how their streams end

  /** The response was accepted: this attempt gets a framer and a read loop. */
  predicate Streams(a: Attempt) {
    && a.dial.Connected? && a.dial.head.Head? && a.dial.head.first.First?
    && ValidateStreamResponse(a.dial.head.status, a.dial.head.rest + a.dial.head.first.bytes).Accepted?
  }

  /** The run as it begins to talk to the server it has dialled. */
  function Talking(run: Run, a: Attempt): Run
    requires a.dial.Connected?
  {
    var dialing := Interrupt(Enter(run.(attempts := run.attempts + 1), CONNECTING), a.shutdownDialing);
    Interrupt(Enter(dialing, AUTHENTICATING), a.dial.shutdown)
  }

  /** The read loop of an attempt that streams. */
  function StreamOf(cfg: Config, clock: nat -> int, run: Run, a: Attempt): (Run, Stop)
    requires Streams(a)
  {
    var head := a.dial.head;
    StreamLoop(cfg, clock, Opened(Talking(run, a)), FRESH, head.rest + head.first.bytes, head.first.ticks, head.first.recvs)
  }

  /** How the read loops of a run ended, in order. */
  function Stops(cfg: Config, clock: nat -> int, run: Run, script: seq<Attempt>): seq<Stop>
    decreases |script|
  {
    if script == [] then []
    else
      var a := script[0];
      var r := Interrupt(run, a.shutdown);
      if r.shutdown || a.timeUp || r.writer.bytes >= cfg.budget then []
      else
        (if Streams(a) then [StreamOf(cfg, clock, r, a).1] else [])
        + match Try(cfg, clock, r, a)
          case Again(next) => Stops(cfg, clock, next, script[1..])
          case _ => []
  }

  /** One turn of the connection loop: none, the last, or one before others. */
  lemma StopsUnfold(cfg: Config, clock: nat -> int, run: Run, script: seq<Attempt>)
    requires script != []
    ensures var a := script[0];
            var r := Interrupt(run, a.shutdown);
            var next := Try(cfg, clock, r, a);
            if r.shutdown || a.timeUp || r.writer.bytes >= cfg.budget then
              && Stops(cfg, clock, run, script) == []
              && Loop(cfg, clock, run, script) == Finished(if r.shutdown then PartialOrFailed(r) else r)
            else
              && Stops(cfg, clock, run, script)
                 == (if Streams(a) then [StreamOf(cfg, clock, r, a).1] else [])
                    + (if next.Again? then Stops(cfg, clock, next.run, script[1..]) else [])
              && Loop(cfg, clock, run, script) == if next.Again? then Loop(cfg, clock, next.run, script[1..]) else next
  {
    hide Try, Interrupt, PartialOrFailed, StreamOf, Streams;
  }

  lemma NothingTried(cfg: Config, clock: nat -> int, run: Run)
    ensures Loop(cfg, clock, run, []) == Waiting(run) && Stops(cfg, clock, run, []) == []
  {}

  lemma TryOfStream(cfg: Config, clock: nat -> int, run: Run, a: Attempt)
    requires Streams(a)
    ensures var (r, stop) := StreamOf(cfg, clock, run, a);
            r.attempts == run.attempts + 1 && Try(cfg, clock, run, a) == AfterStream(cfg, r, stop, a.dial.head.first.timeUp)
  {
    hide StreamLoop, ValidateStreamResponse, AfterStream;
  }

  lemma ConverseCounts(cfg: Config, clock: nat -> int, run: Run, head: Head)
    requires run.attempts >= 1
    ensures Converse(cfg, clock, run, head).run.attempts == run.attempts
  {
    hide StreamLoop, ValidateStreamResponse, Delay;
  }

  lemma TryCounts(cfg: Config, clock: nat -> int, run: Run, a: Attempt)
    ensures Try(cfg, clock, run, a).run.attempts == run.attempts + 1
  {
    hide Converse, Delay;
    if a.dial.Connected? {
      var dialing := Interrupt(Enter(run.(attempts := run.attempts + 1), CONNECTING), a.shutdownDialing);
      ConverseCounts(cfg, clock, Interrupt(Enter(dialing, AUTHENTICATING), a.dial.shutdown), a.dial.head);
    }
  }
}
