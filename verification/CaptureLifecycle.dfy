/** How a capture behaves over a whole run: attempts, waiting, connection states, final status. */
module CaptureLifecycle {
  import opened Text
  import opened Wire
  import opened Handshake
  import opened StreamingFraming
  import opened CaptureRun

  // ----- connection states

  /** What may directly follow what, shutdown notices aside. */
  predicate Follows(before: ConnState, after: ConnState) {
    match after
    case CONNECTING => before.RECONNECTING?
    case AUTHENTICATING => before.CONNECTING?
    case STREAMING => before.AUTHENTICATING?
    case BLOCKED => before.AUTHENTICATING?
    case RECONNECTING =>
      before.CONNECTING? || before.AUTHENTICATING? || before.STREAMING? || before.RECONNECTING?
    case _ => false
  }

  function Visible(transitions: seq<ConnState>): seq<ConnState> {
    if transitions == [] then []
    else
      var last := transitions[|transitions| - 1];
      Visible(transitions[..|transitions| - 1]) + if last.STOPPED? then [] else [last]
  }

  ghost predicate Walk(states: seq<ConnState>) {
    && (states != [] ==> states[0].CONNECTING?)
    && forall i :: 1 <= i < |states| ==> Follows(states[i - 1], states[i])
  }

  /** The run's visible states form a walk that now stands at `here`. */
  ghost predicate Standing(run: Run, here: ConnState) {
    var states := Visible(run.transitions);
    Walk(states) && states != [] && states[|states| - 1] == here
  }

  lemma VisibleEnter(run: Run, state: ConnState)
    ensures Visible(Enter(run, state).transitions)
            == Visible(run.transitions) + if state.STOPPED? then [] else [state]
  {
    var all := run.transitions + [state];
    assert all[..|all| - 1] == run.transitions;
  }

  lemma InterruptInvisible(run: Run, requested: bool)
    ensures Visible(Interrupt(run, requested).transitions) == Visible(run.transitions)
  {
    VisibleEnter(run, STOPPED);
  }

  lemma Move(run: Run, here: ConnState, state: ConnState)
    requires Standing(run, here) && Follows(here, state)
    ensures Standing(Enter(run, state), state)
  {
    VisibleEnter(run, state);
  }

  lemma Stay(a: Run, b: Run, here: ConnState)
    requires Standing(a, here) && Visible(b.transitions) == Visible(a.transitions)
    ensures Standing(b, here)
  {}

  /** A partial result has captured something. */
  predicate HonestStatus(run: Run) {
    run.status.PARTIAL? ==> run.writer.bytes > 0
  }

  lemma {:induction false} PassFramesGrows(run: Run, clock: nat -> int, frames: seq<Framing.Frame>)
    ensures run.writer.bytes <= PassFrames(run, clock, frames).writer.bytes
    decreases |frames|
  {
    if frames != [] {
      PassFramesGrows(PassFrame(run, clock, frames[0]), clock, frames[1..]);
    }
  }

  lemma {:induction false} StreamLoopStates(cfg: Config, clock: nat -> int, run: Run, m: Memory, data: seq<byte>,
                                            ticks: seq<Tick>, recvs: seq<Recv>)
    requires Standing(run, STREAMING) && HonestStatus(run)
    ensures var (r, stop) := StreamLoop(cfg, clock, run, m, data, ticks, recvs);
            && Standing(r, if stop.Stalled? then RECONNECTING else STREAMING)
            && HonestStatus(r) && (r.status.FAILED? ==> run.status.FAILED? || (r.shutdown && r.writer.bytes == 0))
    decreases |ticks|
  {
    hide Standing, FeedOnce, PassFrames, Visible;
    if ticks != [] {
      var k := ticks[0];
      var r := Interrupt(run, k.shutdown);
      InterruptInvisible(run, k.shutdown);
      Stay(run, r, STREAMING);
      if k.timeUp || r.writer.bytes >= cfg.budget {
      } else if k.idle {
        Move(r, STREAMING, RECONNECTING);
      } else if data != [] {
        DigestStates(cfg, clock, r, m, Take(data));
        StreamLoopStates(cfg, clock, Digest(cfg, clock, r, m, Take(data)), FeedOnce(cfg.transport, m, Take(data)).memory,
                         Leave(data), ticks[1..], recvs);
      } else if recvs != [] {
        match recvs[0]
        case RecvTimeout => StreamLoopStates(cfg, clock, r, m, [], ticks[1..], recvs[1..]);
        case RecvError => Stay(r, PartialOrFailed(r), STREAMING);
        case Data(bytes) =>
          if bytes != [] {
            DigestStates(cfg, clock, r, m, bytes);
            StreamLoopStates(cfg, clock, Digest(cfg, clock, r, m, bytes), FeedOnce(cfg.transport, m, bytes).memory,
                             [], ticks[1..], recvs[1..]);
          }
      }
    }
  }

  lemma DigestStates(cfg: Config, clock: nat -> int, run: Run, m: Memory, chunk: seq<byte>)
    requires Standing(run, STREAMING) && HonestStatus(run)
    ensures var r := Digest(cfg, clock, run, m, chunk);
            Standing(r, STREAMING) && HonestStatus(r) && r.status == run.status
  {
    PassFramesGrows(NoteFed(run, chunk), clock, FeedOnce(cfg.transport, m, chunk).frames);
  }

  // ----- attempts, reconnects and waiting

  /** Between attempts: every attempt so far was followed by one counted reconnect and one wait. */
  ghost predicate Balanced(cfg: Config, run: Run) {
    && run.reconnects == run.attempts == |run.sleeps|
    && run.writer.disconnects == run.writer.reconnects == run.reconnects
    && (run.attempts == 0 || run.attempts < cfg.maxReconnects)
    && forall i :: 0 <= i < |run.sleeps| ==> run.sleeps[i] == Delay(cfg, i + 1)
  }

  /** During the attempt that follows a balanced run. */
  ghost predicate Underway(cfg: Config, run: Run) {
    && run.attempts >= 1 && run.reconnects == run.attempts - 1 == |run.sleeps|
    && run.writer.disconnects == run.writer.reconnects == run.reconnects
    && (run.attempts == 1 || run.attempts <= cfg.maxReconnects)
    && forall i :: 0 <= i < |run.sleeps| ==> run.sleeps[i] == Delay(cfg, i + 1)
  }

  /** Between attempts the client stands at RECONNECTING, or has not dialled yet. */
  ghost predicate AtTop(cfg: Config, run: Run) {
    && Balanced(cfg, run) && HonestStatus(run) && (run.status.FAILED? ==> run.writer.bytes == 0)
    && (Visible(run.transitions) == [] || Standing(run, RECONNECTING))
  }

  /** Only a shutdown request leaves a run failed and still going. */
  ghost predicate Ready(cfg: Config, run: Run) {
    AtTop(cfg, run) && (run.status.FAILED? ==> run.shutdown)
  }

  /** A denial came, and the read behind its head came back: only then is the response judged. */
  predicate Denied(a: Attempt) {
    a.dial.Connected? && a.dial.head.Head? && a.dial.head.first.First? && WellFormedDenial(a.dial.head.status)
  }

  /** Dialling failed, or the response head never arrived. */
  predicate NoResponse(a: Attempt) {
    a.dial.DialFailed? || a.dial.head.HeadTimeout?
  }

  /** What one attempt leaves when the run does not go on. */
  ghost predicate Ended(cfg: Config, run: Run, a: Attempt) {
    && Underway(cfg, run) && HonestStatus(run)
    && (if Denied(a) then Standing(run, BLOCKED)
        else Standing(run, STREAMING) || Standing(run, RECONNECTING) || Standing(run, AUTHENTICATING))
    && (run.writer.bytes > 0 ==> (run.status.FAILED? <==> NoResponse(a)))
  }

  ghost predicate AttemptResult(cfg: Config, o: Outcome, a: Attempt) {
    if o.Again? then Ready(cfg, o.run) && !Denied(a)
    else Ended(cfg, o.run, a)
  }

  lemma RetryResult(cfg: Config, run: Run, exhausted: Run, a: Attempt)
    requires Underway(cfg, run) && Standing(run, RECONNECTING)
    requires HonestStatus(run) && !run.status.FAILED?
    requires exhausted.(status := run.status) == run && HonestStatus(exhausted)
    requires run.writer.bytes > 0 ==> (exhausted.status.FAILED? <==> NoResponse(a))
    requires !Denied(a)
    ensures AttemptResult(cfg, RetryUnlessExhausted(cfg, run, exhausted), a)
  {
    if !Exhausted(cfg, run) {
      RetryBalances(cfg, run);
    }
  }

  lemma RetryBalances(cfg: Config, run: Run)
    requires Underway(cfg, run) && !Exhausted(cfg, run)
    ensures Balanced(cfg, Retry(cfg, run))
  {
    assert Retry(cfg, run).sleeps == run.sleeps + [Delay(cfg, run.attempts)];
  }

  lemma ConverseResult(cfg: Config, clock: nat -> int, run: Run, a: Attempt)
    requires Underway(cfg, run) && Standing(run, AUTHENTICATING) && HonestStatus(run) && !run.status.FAILED?
    requires a.dial.Connected?
    ensures AttemptResult(cfg, Converse(cfg, clock, run, a.dial.head), a)
  {
    hide Standing, StreamLoop, ValidateStreamResponse, WellFormedDenial, Delay, Visible;
    var retrying := Enter(run, RECONNECTING);
    Move(run, AUTHENTICATING, RECONNECTING);
    match a.dial.head
    case HeadError =>
    case HeadTimeout => RetryResult(cfg, retrying, retrying.(status := FAILED), a);
    case Head(status, rest, first) =>
      match first
      case FirstError =>
      case FirstTimeout => RetryResult(cfg, retrying, PartialOrFailed(retrying), a);
      case First(bytes, ticks, recvs, timeUp) =>
        TerminalIffDenied(status, rest + bytes);
        match ValidateStreamResponse(status, rest + bytes)
        case Accepted => StreamResult(cfg, clock, run, a);
        case Refused(failure) =>
          if IsTerminal(failure) {
            Move(run, AUTHENTICATING, BLOCKED);
            Stay(Enter(run, BLOCKED), PartialOrFailed(Enter(run, BLOCKED)), BLOCKED);
          } else {
            RetryResult(cfg, retrying, PartialOrFailed(retrying), a);
          }
  }

  lemma AfterStreamResult(cfg: Config, run: Run, here: ConnState, stop: Stop, timeUp: bool, a: Attempt)
    requires Underway(cfg, run) && Standing(run, here) && HonestStatus(run)
    requires here == (if stop.Stalled? then RECONNECTING else STREAMING)
    requires run.status.FAILED? ==> run.shutdown && run.writer.bytes == 0
    requires !Denied(a) && !NoResponse(a)
    ensures AttemptResult(cfg, AfterStream(cfg, run, stop, timeUp), a)
  {
    hide Standing, Delay, Visible, Denied, NoResponse;
    Stay(run, PartialOrFailed(run), here);
    var retrying := Enter(run, RECONNECTING);
    Move(run, here, RECONNECTING);
    if !Exhausted(cfg, retrying) {
      RetryBalances(cfg, retrying);
      Stay(retrying, Retry(cfg, retrying), RECONNECTING);
    }
  }

  lemma StreamResult(cfg: Config, clock: nat -> int, run: Run, a: Attempt)
    requires Underway(cfg, run) && Standing(run, AUTHENTICATING) && HonestStatus(run) && !run.status.FAILED?
    requires a.dial.Connected? && a.dial.head.Head? && a.dial.head.first.First? && !Denied(a)
    ensures var head := a.dial.head;
            var f := head.first;
            var (r, stop) := StreamLoop(cfg, clock, Opened(run), FRESH, head.rest + f.bytes, f.ticks, f.recvs);
            AttemptResult(cfg, AfterStream(cfg, r, stop, f.timeUp), a)
  {
    hide Standing, StreamLoop, Delay, Visible, AfterStream, AttemptResult, Denied;
    var head := a.dial.head;
    var f := head.first;
    var (r, stop) := StreamLoop(cfg, clock, Opened(run), FRESH, head.rest + f.bytes, f.ticks, f.recvs);
    Move(run, AUTHENTICATING, STREAMING);
    Stay(Enter(run, STREAMING), Opened(run), STREAMING);
    StreamLoopStates(cfg, clock, Opened(run), FRESH, head.rest + f.bytes, f.ticks, f.recvs);
    AfterStreamResult(cfg, r, if stop.Stalled? then RECONNECTING else STREAMING, stop, f.timeUp, a);
  }

  lemma TryResult(cfg: Config, clock: nat -> int, run: Run, a: Attempt)
    requires Ready(cfg, run) && !run.shutdown
    ensures AttemptResult(cfg, Try(cfg, clock, run, a), a)
  {
    hide Standing, Converse, Delay, Underway, Ready, AttemptResult;
    var dialing := Interrupt(Enter(run.(attempts := run.attempts + 1), CONNECTING), a.shutdownDialing);
    Dialed(cfg, run, a.shutdownDialing);
    match a.dial
    case DialFailed =>
      Moved(cfg, dialing, CONNECTING, RECONNECTING, false);
      RetryResult(cfg, Enter(dialing, RECONNECTING), Enter(dialing, RECONNECTING).(status := FAILED), a);
    case Connected(shutdown, head) =>
      Moved(cfg, dialing, CONNECTING, AUTHENTICATING, shutdown);
      ConverseResult(cfg, clock, Interrupt(Enter(dialing, AUTHENTICATING), shutdown), a);
  }

  /** Dialling makes a ready run an attempt underway. */
  lemma Dialed(cfg: Config, run: Run, shutdown: bool)
    requires Ready(cfg, run) && !run.shutdown
    ensures var dialing := Interrupt(Enter(run.(attempts := run.attempts + 1), CONNECTING), shutdown);
            && Underway(cfg, dialing) && Standing(dialing, CONNECTING)
            && HonestStatus(dialing) && !dialing.status.FAILED? && dialing.attempts >= 1
  {
    hide Delay, Standing, Visible;
    var connecting := Enter(run.(attempts := run.attempts + 1), CONNECTING);
    Called(run);
    InterruptInvisible(connecting, shutdown);
    Stay(connecting, Interrupt(connecting, shutdown), CONNECTING);
  }

  lemma Called(run: Run)
    requires Visible(run.transitions) == [] || Standing(run, RECONNECTING)
    ensures Standing(Enter(run.(attempts := run.attempts + 1), CONNECTING), CONNECTING)
  {
    VisibleEnter(run.(attempts := run.attempts + 1), CONNECTING);
  }

  lemma Moved(cfg: Config, run: Run, here: ConnState, state: ConnState, shutdown: bool)
    requires Underway(cfg, run) && Standing(run, here) && Follows(here, state)
    requires HonestStatus(run) && !run.status.FAILED?
    ensures var next := Interrupt(Enter(run, state), shutdown);
            Underway(cfg, next) && Standing(next, state) && HonestStatus(next) && !next.status.FAILED?
  {
    hide Delay;
    Move(run, here, state);
    InterruptInvisible(Enter(run, state), shutdown);
  }

  // ----- whole runs

  /**
   * The run stopped at the top of its loop, or inside its last attempt; `before` attempts were made
   * ahead of the script, and each further one took the next entry.
   */
  ghost predicate Over(cfg: Config, run: Run, before: nat, script: seq<Attempt>) {
    var k := run.attempts - before;
    && 0 <= k <= |script|
    && ((AtTop(cfg, run) && (k > 0 ==> !Denied(script[k - 1]))) || (k > 0 && Ended(cfg, run, script[k - 1])))
  }

  lemma InterruptAtTop(cfg: Config, run: Run, requested: bool)
    requires AtTop(cfg, run)
    ensures AtTop(cfg, Interrupt(run, requested)) && AtTop(cfg, PartialOrFailed(Interrupt(run, requested)))
  {
    InterruptInvisible(run, requested);
  }

  lemma {:induction false} LoopIsOver(cfg: Config, clock: nat -> int, run: Run, script: seq<Attempt>)
    requires Ready(cfg, run)
    ensures Over(cfg, Loop(cfg, clock, run, script).run, run.attempts, script)
    decreases |script|
  {
    hide AtTop, Try, Ended, Delay, Denied;
    if script != [] {
      var a := script[0];
      var r := Interrupt(run, a.shutdown);
      InterruptAtTop(cfg, run, a.shutdown);
      if !r.shutdown && !a.timeUp && r.writer.bytes < cfg.budget {
        TryResult(cfg, clock, r, a);
        TryCounts(cfg, clock, r, a);
        var next := Try(cfg, clock, r, a);
        if next.Again? {
          LoopIsOver(cfg, clock, next.run, script[1..]);
        }
      }
    }
  }

  lemma NothingDialled(cfg: Config, sequence: nat, shutdown: bool)
    ensures Start(cfg, sequence, shutdown).attempts == 0
  {}

  lemma StartReady(cfg: Config, sequence: nat, shutdown: bool)
    ensures Ready(cfg, Start(cfg, sequence, shutdown))
  {}

  lemma BlockedIsLast(states: seq<ConnState>)
    requires Walk(states)
    ensures BLOCKED in states ==> states[|states| - 1] == BLOCKED
  {
    forall i | 0 <= i < |states| - 1 ensures states[i] != BLOCKED {
      assert Follows(states[i], states[i + 1]);
    }
  }

  lemma StandingBlocked(run: Run, here: ConnState)
    requires Standing(run, here)
    ensures Walk(Visible(run.transitions)) && (BLOCKED in Visible(run.transitions) <==> here == BLOCKED)
    ensures here == BLOCKED ==> Visible(run.transitions)[|Visible(run.transitions)| - 1] == BLOCKED
  {
    hide Visible, Walk;
    BlockedIsLast(Visible(run.transitions));
  }

  /** Stopped between attempts, a run is not blocked. */
  lemma TopIsSafe(cfg: Config, run: Run)
    requires AtTop(cfg, run)
    ensures Walk(Visible(run.transitions)) && BLOCKED !in Visible(run.transitions)
  {
    hide Balanced, HonestStatus, Standing, Visible;
    if Visible(run.transitions) != [] {
      StandingBlocked(run, RECONNECTING);
    }
  }

  /** Stopped inside an attempt, it is blocked exactly when that attempt was denied. */
  lemma EndedIsSafe(cfg: Config, run: Run, a: Attempt)
    requires Ended(cfg, run, a)
    ensures Walk(Visible(run.transitions)) && (BLOCKED in Visible(run.transitions) <==> Denied(a))
  {
    hide Underway, HonestStatus, Denied, NoResponse, Standing, Visible, Walk;
    if Denied(a) {
      StandingBlocked(run, BLOCKED);
    } else if Standing(run, STREAMING) {
      StandingBlocked(run, STREAMING);
    } else if Standing(run, RECONNECTING) {
      StandingBlocked(run, RECONNECTING);
    } else {
      StandingBlocked(run, AUTHENTICATING);
    }
  }

  lemma OverIsSafe(cfg: Config, run: Run, script: seq<Attempt>)
    requires Over(cfg, run, 0, script)
    ensures var states := Visible(run.transitions);
            && Walk(states) && run.attempts <= |script|
            && (BLOCKED in states <==> run.attempts >= 1 && Denied(script[run.attempts - 1]))
  {
    hide AtTop, Ended, Denied, Visible, Walk;
    if AtTop(cfg, run) && (run.attempts > 0 ==> !Denied(script[run.attempts - 1])) {
      TopIsSafe(cfg, run);
    } else {
      EndedIsSafe(cfg, run, script[run.attempts - 1]);
    }
  }

  lemma CloseInvisible(run: Run)
    ensures Visible(Close(run).transitions) == Visible(run.transitions) && Close(run).attempts == run.attempts
    ensures Close(run).transitions != [] && Close(run).transitions[|Close(run).transitions| - 1] == STOPPED
  {
    hide Visible;
    VisibleEnter(run, STOPPED);
  }

  /**
   * Apart from shutdown notices, the states of every run follow the connection diagram: each
   * STREAMING comes directly after AUTHENTICATING and that directly after CONNECTING, and nothing
   * follows BLOCKED. BLOCKED is entered exactly when the last attempt dialled got a well-formed
   * 401, 403 or 404 and its first read behind the head neither timed out nor failed.
   */
  lemma StatesAreSafe(cfg: Config, clock: nat -> int, sequence: nat, shutdown: bool, script: seq<Attempt>)
    ensures var o := CaptureRun.CaptureStream(cfg, clock, Start(cfg, sequence, shutdown), script);
            var states := Visible(o.run.transitions);
            && Walk(states) && o.run.attempts <= |script|
            && (BLOCKED in states <==> o.run.attempts >= 1 && Denied(script[o.run.attempts - 1]))
            && (BLOCKED in states ==> states[|states| - 1] == BLOCKED)
            && (o.Finished? ==> o.run.transitions != [] && o.run.transitions[|o.run.transitions| - 1] == STOPPED)
  {
    hide Loop, Close, Start, Ready, Over, Denied, Visible, Walk;
    var start := Start(cfg, sequence, shutdown);
    var last := Loop(cfg, clock, start, script).run;
    StartReady(cfg, sequence, shutdown);
    LoopIsOver(cfg, clock, start, script);
    NothingDialled(cfg, sequence, shutdown);
    OverIsSafe(cfg, last, script);
    CloseInvisible(last);
    BlockedIsLast(Visible(last.transitions));
  }

  /**
   * A run dials at most max(1, max_reconnects) times and sleeps at most max(0, max_reconnects - 1)
   * times; reconnects are all but possibly the last dial, and the capture counts them the same.
   */
  lemma ReconnectsAreBounded(cfg: Config, clock: nat -> int, sequence: nat, shutdown: bool, script: seq<Attempt>)
    ensures var run := CaptureRun.CaptureStream(cfg, clock, Start(cfg, sequence, shutdown), script).run;
            && run.attempts <= (if cfg.maxReconnects <= 1 then 1 else cfg.maxReconnects)
            && |run.sleeps| <= (if cfg.maxReconnects == 0 then 0 else cfg.maxReconnects - 1)
            && run.attempts - 1 <= run.reconnects <= run.attempts && run.reconnects == |run.sleeps|
            && run.writer.disconnects == run.writer.reconnects == run.reconnects
            && forall i :: 0 <= i < |run.sleeps| ==> run.sleeps[i] == Delay(cfg, i + 1)
  {
    hide Loop, Standing, Denied, NoResponse, Delay, Visible;
    StartReady(cfg, sequence, shutdown);
    LoopIsOver(cfg, clock, Start(cfg, sequence, shutdown), script);
  }

  /** Waits never shrink, are positive and never pass the configured maximum. */
  lemma DelaysGrowToTheCap(cfg: Config, i: nat, j: nat)
    requires cfg.baseDelay > 0.0 && cfg.maxDelay > 0.0 && 1 <= i <= j
    ensures 0.0 < Delay(cfg, i) <= Delay(cfg, j) <= cfg.maxDelay
  {
    DoublingGrows(cfg.baseDelay, i - 1, j - 1);
  }

  /** The first wait is the base, each next one twice the one before, but none longer than the maximum. */
  lemma DelaysDouble(cfg: Config, n: nat)
    requires cfg.baseDelay > 0.0 && cfg.maxDelay > 0.0 && n >= 1
    ensures Delay(cfg, 1) == if cfg.baseDelay <= cfg.maxDelay then cfg.baseDelay else cfg.maxDelay
    ensures Delay(cfg, n + 1) == if 2.0 * Delay(cfg, n) <= cfg.maxDelay then 2.0 * Delay(cfg, n) else cfg.maxDelay
  {
    DoublingGrows(cfg.baseDelay, n - 1, n);
  }

  lemma {:induction false} DoublingGrows(delay: real, a: nat, b: nat)
    requires delay > 0.0 && a <= b
    ensures 0.0 < Doubled(delay, a) <= Doubled(delay, b)
    decreases b
  {
    if a < b {
      DoublingGrows(delay, a, b - 1);
    } else if b > 0 {
      DoublingGrows(delay, b - 1, b - 1);
    }
  }

  /**
   * A returned PARTIAL has captured something. A run that has captured something ends FAILED exactly
   * when its last attempt, not followed by a reconnect, failed to dial or never got a response head.
   */
  lemma StatusIsHonest(cfg: Config, clock: nat -> int, sequence: nat, shutdown: bool, script: seq<Attempt>)
    ensures var run := CaptureRun.CaptureStream(cfg, clock, Start(cfg, sequence, shutdown), script).run;
            && (run.status.PARTIAL? ==> run.writer.bytes > 0) && run.attempts <= |script|
            && (run.status.FAILED? && run.writer.bytes > 0
                <==> && run.writer.bytes > 0 && 1 <= run.attempts && run.reconnects == run.attempts - 1
                     && NoResponse(script[run.attempts - 1]))
  {
    hide Loop, Standing, Denied, Delay, Visible;
    StartReady(cfg, sequence, shutdown);
    LoopIsOver(cfg, clock, Start(cfg, sequence, shutdown), script);
  }

  /** A read loop that ended like this leaves a returned run COMPLETE. */
  predicate EndsComplete(cfg: Config, stop: Stop, timeUp: bool, bytes: nat) {
    && !stop.ClosedByShutdown?
    && (stop.TimeUp? || timeUp || bytes >= cfg.budget || (stop.EndOfStream? && bytes > 0))
  }

  lemma DigestKeepsStatus(cfg: Config, clock: nat -> int, run: Run, m: Memory, chunk: seq<byte>)
    ensures var r := Digest(cfg, clock, run, m, chunk);
            r.status == run.status && r.shutdown == run.shutdown
  {
    hide PassFrames, FeedOnce;
  }

  lemma {:induction false} StreamLoopStatus(cfg: Config, clock: nat -> int, run: Run, m: Memory, data: seq<byte>,
                                            ticks: seq<Tick>, recvs: seq<Recv>)
    ensures var (r, stop) := StreamLoop(cfg, clock, run, m, data, ticks, recvs);
            && (run.shutdown ==> r.shutdown) && (stop.BudgetUsed? ==> r.writer.bytes >= cfg.budget)
            && if stop.ClosedByShutdown? then r.shutdown && !r.status.COMPLETE? else r.status == run.status
    decreases |ticks|
  {
    hide StreamLoop, Digest, FeedOnce, Take, Leave;
    if ticks == [] {
      NoTicksLeft(cfg, clock, run, m, data, recvs);
    } else {
      StreamLoopUnfold(cfg, clock, run, m, data, ticks, recvs);
      var k := ticks[0];
      var r := Interrupt(run, k.shutdown);
      var t := cfg.transport;
      if k.timeUp || r.writer.bytes >= cfg.budget || k.idle {
      } else if data != [] {
        DigestKeepsStatus(cfg, clock, r, m, Take(data));
        StreamLoopStatus(cfg, clock, Digest(cfg, clock, r, m, Take(data)), FeedOnce(t, m, Take(data)).memory,
                         Leave(data), ticks[1..], recvs);
      } else if recvs != [] {
        if recvs[0].RecvTimeout? {
          StreamLoopStatus(cfg, clock, r, m, [], ticks[1..], recvs[1..]);
        } else if recvs[0].Data? && recvs[0].bytes != [] {
          DigestKeepsStatus(cfg, clock, r, m, recvs[0].bytes);
          StreamLoopStatus(cfg, clock, Digest(cfg, clock, r, m, recvs[0].bytes), FeedOnce(t, m, recvs[0].bytes).memory,
                           [], ticks[1..], recvs[1..]);
        }
      }
    }
  }

  /** The run has not failed yet, or it is about to stop. */
  predicate Unspoilt(run: Run) { run.status.COMPLETE? || run.shutdown }

  lemma AfterStreamStatus(cfg: Config, run: Run, stop: Stop, timeUp: bool)
    requires run.attempts >= 1 && Unspoilt(run) && (stop.ClosedByShutdown? <==> !run.status.COMPLETE?)
    requires stop.BudgetUsed? ==> run.writer.bytes >= cfg.budget
    ensures var o := AfterStream(cfg, run, stop, timeUp);
            && (o.Again? ==> Unspoilt(o.run) && o.run.reconnects == run.reconnects + 1)
            && (o.Finished? ==> && o.run.reconnects == run.reconnects
                                && (o.run.status.COMPLETE? <==> EndsComplete(cfg, stop, timeUp, o.run.writer.bytes)))
  {
    hide Delay;
  }

  lemma RetryStatus(cfg: Config, run: Run, exhausted: Run)
    requires run.attempts >= 1 && exhausted.reconnects == run.reconnects && !exhausted.status.COMPLETE?
    ensures var o := RetryUnlessExhausted(cfg, run, exhausted);
            if o.Again? then o.run.status == run.status && o.run.shutdown == run.shutdown
                             && o.run.reconnects == run.reconnects + 1
            else o == Finished(exhausted)
  {
    hide Delay;
  }

  lemma OtherwiseNotComplete(cfg: Config, clock: nat -> int, run: Run, a: Attempt)
    requires !Streams(a)
    ensures var o := Try(cfg, clock, run, a);
            && (o.Again? ==> o.run.status == run.status && (run.shutdown ==> o.run.shutdown)
                             && o.run.reconnects == run.reconnects + 1)
            && (o.Finished? ==> o.run.reconnects == run.reconnects && !o.run.status.COMPLETE?)
  {
    hide RetryUnlessExhausted, ValidateStreamResponse, StreamLoop, AfterStream;
    var dialing := Interrupt(Enter(run.(attempts := run.attempts + 1), CONNECTING), a.shutdownDialing);
    var retrying := Enter(if a.dial.Connected? then Talking(run, a) else dialing, RECONNECTING);
    RetryStatus(cfg, retrying, retrying.(status := FAILED));
    RetryStatus(cfg, retrying, PartialOrFailed(retrying));
  }

  lemma TryComplete(cfg: Config, clock: nat -> int, run: Run, a: Attempt)
    requires run.status.COMPLETE?
    ensures var o := Try(cfg, clock, run, a);
            && (o.Again? ==> Unspoilt(o.run) && o.run.reconnects == run.reconnects + 1)
            && (o.Finished? ==>
                  && o.run.reconnects == run.reconnects
                  && (o.run.status.COMPLETE?
                      <==> Streams(a) && EndsComplete(cfg, StreamOf(cfg, clock, run, a).1, a.dial.head.first.timeUp,
                                                      o.run.writer.bytes)))
  {
    hide Try, StreamOf, AfterStream, EndsComplete, Talking;
    if Streams(a) {
      TryOfStream(cfg, clock, run, a);
      StreamOfStatus(cfg, clock, run, a);
      var (r, stop) := StreamOf(cfg, clock, run, a);
      AfterStreamStatus(cfg, r, stop, a.dial.head.first.timeUp);
    } else {
      OtherwiseNotComplete(cfg, clock, run, a);
    }
  }

  lemma StreamOfStatus(cfg: Config, clock: nat -> int, run: Run, a: Attempt)
    requires Streams(a) && run.status.COMPLETE?
    ensures var (r, stop) := StreamOf(cfg, clock, run, a);
            && Unspoilt(r) && (stop.ClosedByShutdown? <==> !r.status.COMPLETE?) && r.reconnects == run.reconnects
            && (stop.BudgetUsed? ==> r.writer.bytes >= cfg.budget)
  {
    hide StreamLoop, ValidateStreamResponse;
    var f := a.dial.head.first;
    StreamLoopStatus(cfg, clock, Opened(Talking(run, a)), FRESH, a.dial.head.rest + f.bytes, f.ticks, f.recvs);
  }

  /**
   * A returned run that stopped between attempts is COMPLETE exactly when no shutdown was asked for, and
   * then its time was up or its budget used. One that stopped inside an attempt is COMPLETE exactly
   * when that attempt streamed and its read loop met the end of time, of the budget or, with something
   * captured, of the stream.
   */
  ghost predicate CompleteWhen(cfg: Config, run: Run, before: nat, script: seq<Attempt>, stops: seq<Stop>) {
    var k := run.attempts - before;
    && 0 <= k <= |script| && run.attempts - 1 <= run.reconnects <= run.attempts
    && if run.reconnects == run.attempts then
         && (run.status.COMPLETE? <==> !run.shutdown)
         && k < |script| && (run.shutdown || script[k].timeUp || run.writer.bytes >= cfg.budget)
       else
         && k > 0 && (Streams(script[k - 1]) ==> stops != [])
         && (run.status.COMPLETE?
             <==> Streams(script[k - 1])
                  && EndsComplete(cfg, stops[|stops| - 1], script[k - 1].dial.head.first.timeUp, run.writer.bytes))
  }

  lemma CompleteLater(cfg: Config, run: Run, before: nat, a: Attempt, script: seq<Attempt>, first: seq<Stop>, stops: seq<Stop>)
    requires CompleteWhen(cfg, run, before + 1, script, stops)
    ensures CompleteWhen(cfg, run, before, [a] + script, first + stops)
  {
    hide Streams, EndsComplete;
    var k := run.attempts - before;
    assert forall i :: 1 <= i < |script| + 1 ==> ([a] + script)[i] == script[i - 1];
  }

  lemma {:induction false} LoopComplete(cfg: Config, clock: nat -> int, run: Run, script: seq<Attempt>)
    requires Unspoilt(run) && run.reconnects == run.attempts
    ensures var o := Loop(cfg, clock, run, script);
            o.Finished? ==> CompleteWhen(cfg, o.run, run.attempts, script, Stops(cfg, clock, run, script))
    decreases |script|
  {
    hide Loop, Stops, Try, Streams, StreamOf, EndsComplete;
    if script == [] {
      NothingTried(cfg, clock, run);
    } else {
      StopsUnfold(cfg, clock, run, script);
      var a := script[0];
      var r := Interrupt(run, a.shutdown);
      if !r.shutdown && !a.timeUp && r.writer.bytes < cfg.budget {
        TryComplete(cfg, clock, r, a);
        TryCounts(cfg, clock, r, a);
        var next := Try(cfg, clock, r, a);
        if next.Again? {
          LoopComplete(cfg, clock, next.run, script[1..]);
          if Loop(cfg, clock, run, script).Finished? {
            var first := if Streams(a) then [StreamOf(cfg, clock, r, a).1] else [];
            CompleteLater(cfg, Loop(cfg, clock, run, script).run, run.attempts, a, script[1..], first,
                          Stops(cfg, clock, next.run, script[1..]));
            assert [a] + script[1..] == script;
          }
        }
      }
    }
  }

  /** When a run that returns is COMPLETE. */
  lemma CompleteIff(cfg: Config, clock: nat -> int, sequence: nat, shutdown: bool, script: seq<Attempt>)
    requires CaptureRun.CaptureStream(cfg, clock, Start(cfg, sequence, shutdown), script).Finished?
    ensures var start := Start(cfg, sequence, shutdown);
            var run := CaptureRun.CaptureStream(cfg, clock, start, script).run;
            CompleteWhen(cfg, run, 0, script, Stops(cfg, clock, start, script))
  {
    hide Loop, Stops, Streams, EndsComplete;
    LoopComplete(cfg, clock, Start(cfg, sequence, shutdown), script);
  }

  /** Time that is up before the first dial makes a run COMPLETE with nothing captured. */
  lemma CompleteWithNothing(cfg: Config, clock: nat -> int, sequence: nat, script: seq<Attempt>)
    requires script != [] && !script[0].shutdown && script[0].timeUp
    ensures var o := CaptureRun.CaptureStream(cfg, clock, Start(cfg, sequence, false), script);
            o.Finished? && o.run.status.COMPLETE? && o.run.attempts == 0 && o.run.writer.bytes == 0
  {
    hide Try, Stops;
    StopsUnfold(cfg, clock, Start(cfg, sequence, false), script);
  }

  // ----- runs that part from what is promised

  /** A refused login whose body never comes is retried: the response is not judged before that read. */
  lemma DenialIsRetriedAfterTimeout(cfg: Config, clock: nat -> int, sequence: nat)
    requires cfg.maxReconnects >= 2 && cfg.budget >= 1
    ensures var a := Attempt(false, false, false,
                             Connected(false, Head(Line("ICY", Some(401)), [], FirstTimeout)));
            var o := CaptureRun.CaptureStream(cfg, clock, Start(cfg, sequence, false), [a]);
            && WellFormedDenial(a.dial.head.status)
            && o.Waiting? && o.run.attempts == o.run.reconnects == 1
            && Visible(o.run.transitions) == [CONNECTING, AUTHENTICATING, RECONNECTING]
  {
    hide Delay, Visible;
    var a := Attempt(false, false, false, Connected(false, Head(Line("ICY", Some(401)), [], FirstTimeout)));
    assert WellFormedDenial(a.dial.head.status) by {
      assert Upper("ICY") == "ICY";
    }
    var start := Start(cfg, sequence, false);
    var r := Enter(Enter(Enter(start.(attempts := 1), CONNECTING), AUTHENTICATING), RECONNECTING);
    assert Try(cfg, clock, start, a) == Again(Retry(cfg, r));
    var none: seq<Attempt> := [];
    assert [a][1..] == none;
    assert Loop(cfg, clock, Retry(cfg, r), none) == Waiting(Retry(cfg, r));
    VisibleEnter(start.(attempts := 1), CONNECTING);
    VisibleEnter(Enter(start.(attempts := 1), CONNECTING), AUTHENTICATING);
    VisibleEnter(Enter(Enter(start.(attempts := 1), CONNECTING), AUTHENTICATING), RECONNECTING);
    NothingVisible();
  }

  lemma NothingVisible()
    ensures Visible([]) == []
  {}

  const EMPTY_FRAME: seq<byte> := [0xD3, 0x00, 0x00, 0x00, 0x00, 0x00]

  lemma EmptyFrameIsFed(t: Framing.Transport)
    requires t.lengthOf(0, 0) == 0
    ensures FeedOnce(t, FRESH, EMPTY_FRAME).frames == [Framing.FrameAt(t, 0, EMPTY_FRAME)]
  {
    hide FeedOnce;
    FeedIsParse(t, FRESH, EMPTY_FRAME);
    Framing.ParseComplete(t, EMPTY_FRAME, [], 0);
    assert FRESH.buffer + EMPTY_FRAME == EMPTY_FRAME + [] == EMPTY_FRAME;
    Framing.ParseOnlyJunk(t, [], 6);
  }

  lemma EmptyFrameIsAccepted()
    ensures ValidateStreamResponse(Line("ICY", Some(200)), EMPTY_FRAME).Accepted?
  {
    hide ValidateStreamResponse;
    assert Upper("ICY") == "ICY";
    FramesAreNotMistakenForPages("ICY", EMPTY_FRAME);
  }

  function Quiet(): Tick { Tick(false, false, false) }

  /** One connection that delivers one empty frame and ends. */
  function OneFrame(): Attempt {
    Attempt(false, false, false,
            Connected(false, Head(Line("ICY", Some(200)), [], First(EMPTY_FRAME, [Quiet(), Quiet()], [Data([])], false))))
  }

  lemma OneFrameIsCaptured(cfg: Config, clock: nat -> int, run: Run)
    requires cfg.transport.lengthOf(0, 0) == 0 && run.writer.bytes == 0 && cfg.budget >= 7
    ensures var (r, stop) := StreamLoop(cfg, clock, run, FRESH, EMPTY_FRAME, [Quiet(), Quiet()], [Data([])]);
            stop.EndOfStream? && r.writer.bytes == 6 && r.status == run.status && r.shutdown == run.shutdown
  {
    hide FeedOnce, PassFrames;
    var t := cfg.transport;
    EmptyFrameIsFed(t);
    assert Take(EMPTY_FRAME) == EMPTY_FRAME && Leave(EMPTY_FRAME) == [];
    var r := Digest(cfg, clock, run, FRESH, EMPTY_FRAME);
    OneFramePasses(NoteFed(run, EMPTY_FRAME), clock, Framing.FrameAt(t, 0, EMPTY_FRAME));
    var m := FeedOnce(t, FRESH, EMPTY_FRAME).memory;
    var later: seq<Tick> := [Quiet()];
    assert [Quiet(), Quiet()][1..] == later;
    assert StreamLoop(cfg, clock, r, m, [], later, [Data([])]) == (r, EndOfStream);
  }

  lemma OneFramePasses(run: Run, clock: nat -> int, f: Framing.Frame)
    ensures PassFrames(run, clock, [f]).writer.bytes == run.writer.bytes + |f.raw|
  {
    var next := PassFrame(run, clock, f);
    var none: seq<Framing.Frame> := [];
    assert [f][1..] == none;
    assert PassFrames(next, clock, none) == next;
  }

  /** One frame is captured, the stream ends, the second dial fails: the run ends FAILED with six bytes. */
  lemma FailedWithCapturedBytes(cfg: Config, clock: nat -> int, sequence: nat)
    requires cfg.transport.lengthOf(0, 0) == 0 && cfg.maxReconnects == 2 && cfg.budget >= 7
    ensures var script := [OneFrame(), Attempt(false, false, false, DialFailed)];
            var o := CaptureRun.CaptureStream(cfg, clock, Start(cfg, sequence, false), script);
            && o.Finished? && o.run.status.FAILED? && o.run.writer.bytes == 6
            && o.run.attempts == 2 && o.run.reconnects == 1
  {
    hide Delay, StreamLoop, ValidateStreamResponse;
    var first, second := OneFrame(), Attempt(false, false, false, DialFailed);
    var start := Start(cfg, sequence, false);
    var run := Enter(Enter(start.(attempts := 1), CONNECTING), AUTHENTICATING);
    EmptyFrameIsAccepted();
    assert [] + EMPTY_FRAME == EMPTY_FRAME;
    OneFrameIsCaptured(cfg, clock, Opened(run));
    var r := StreamLoop(cfg, clock, Opened(run), FRESH, EMPTY_FRAME, [Quiet(), Quiet()], [Data([])]).0;
    assert Try(cfg, clock, start, first) == Again(Retry(cfg, Enter(r, RECONNECTING)));
    var next := Retry(cfg, Enter(r, RECONNECTING));
    assert [first, second][1..] == [second];
    var failed := Try(cfg, clock, next, second);
    assert failed.Finished? && failed.run.status.FAILED? && failed.run.attempts == 2 && failed.run.reconnects == 1;
    assert Loop(cfg, clock, next, [second]) == failed;
  }
}
