/**
 * The client as it is written: nested loops over objects that are updated in place. Every method
 * is proved to compute what module CaptureRun says; the locals of the capture loop are fields here.
 */
module LiveClient {
  import opened Wire
  import opened Framing
  import opened StreamingFraming
  import opened Handshake
  import opened BoundedBuffering
  import opened CaptureWriting
  import Model = CaptureRun
  import opened CaptureRun

  /** How a turn of the connection loop ends. */
  datatype Turn = GoOn | Done | Raise | Pend

  function OutcomeOf(turn: Turn, run: Run): Outcome {
    match turn
    case GoOn => Again(run)
    case Done => Finished(run)
    case Raise => Raised(run)
    case Pend => Waiting(run)
  }

  class NtripClient {
    const config: Config
    var transitions: seq<ConnState>
    var globalSequence: nat
    var shutdownRequested: bool
    var writer: CaptureWriter
    var buffer: BoundedBuffer<Live>
    var forwarded: seq<Live>
    var attempts: nat
    var reconnects: nat
    var sleeps: seq<real>
    var status: Status
    ghost var runStart: nat
    ghost var fed: seq<seq<byte>>

    constructor (cfg: Config)
      requires ValidConfig(cfg)
      ensures config == cfg && Valid() && transitions == [DISCONNECTED]
      ensures globalSequence == 0 && !shutdownRequested && fresh(writer) && fresh(buffer)
    {
      config, transitions, globalSequence, shutdownRequested := cfg, [DISCONNECTED], 0, false;
      writer := new CaptureWriter();
      buffer := new BoundedBuffer<Live>(cfg.capacity, Block);
      forwarded, attempts, reconnects, sleeps, status := [], 0, 0, [], COMPLETE;
      runStart, fed := 1, [];
    }

    ghost predicate Valid()
      reads this, buffer
    {
      && ValidConfig(config) && runStart <= |transitions|
      && buffer.policy == Block && 1 <= buffer.capacity && |buffer.items| <= buffer.capacity
    }

    ghost function State(): Run
      reads this, writer, buffer
      requires runStart <= |transitions|
    {
      Run(writer.State(), buffer.State(), forwarded, globalSequence, attempts, reconnects, sleeps,
          transitions[runStart..], shutdownRequested, status, fed)
    }

    method SetState(state: ConnState)
      requires Valid()
      modifies this`transitions
      ensures Valid() && State() == Enter(old(State()), state)
      ensures transitions == old(transitions) + [state]
    {
      transitions := transitions + [state];
      assert transitions[runStart..] == old(transitions)[runStart..] + [state];
    }

    method RequestShutdown()
      requires Valid()
      modifies this`transitions, this`shutdownRequested
      ensures Valid() && State() == Interrupt(old(State()), true)
      ensures transitions == old(transitions) + [STOPPED]
    {
      shutdownRequested := true;
      SetState(STOPPED);
    }

    /** A shutdown request that comes, or not, while the client waits for the environment. */
    method Listen(requested: bool)
      requires Valid()
      modifies this`transitions, this`shutdownRequested
      ensures Valid() && State() == Interrupt(old(State()), requested)
      ensures old(transitions) <= transitions
    {
      if requested {
        RequestShutdown();
      }
    }

    method EnterAndListen(state: ConnState, requested: bool)
      requires Valid()
      modifies this`transitions, this`shutdownRequested
      ensures Valid() && State() == Interrupt(Enter(old(State()), state), requested)
      ensures old(transitions) <= transitions
    {
      SetState(state);
      Listen(requested);
    }

    method SetPartialOrFailed()
      requires Valid()
      modifies this`status
      ensures Valid() && State() == PartialOrFailed(old(State()))
    {
      status := if writer.bytes > 0 then PARTIAL else FAILED;
    }

    method ForwardOrQueue(live: Live)
      requires Valid()
      modifies this`forwarded, buffer
      ensures Valid() && State() == Offer(old(State()), live)
    {
      var accepted := buffer.Put(live);
      if !accepted {
        buffer.CountWait();
        var drained := buffer.Take();
        if drained.Some? {
          forwarded := forwarded + [drained.value];
        }
        var inserted := buffer.ForcePut(live);
        assert inserted;
      }
    }

    method HandleFrame(f: Frame, clock: nat -> int)
      requires Valid()
      modifies this`globalSequence, this`forwarded, writer, buffer
      ensures Valid() && State() == PassFrame(old(State()), clock, f)
    {
      var sequence := globalSequence;
      globalSequence := globalSequence + 1;
      writer.WriteFrame(f.raw, RowOf(f, sequence, clock));
      if f.crcOk {
        ForwardOrQueue(Live(sequence, f.message, f.raw));
      }
    }

    method HandleChunk(framer: StreamingFramer, chunk: seq<byte>, clock: nat -> int)
      requires Valid() && framer.transport == config.transport
      modifies this`globalSequence, this`forwarded, this`fed, writer, buffer, framer
      ensures Valid() && State() == Digest(config, clock, old(State()), old(framer.State()), chunk)
      ensures framer.State() == FeedOnce(config.transport, old(framer.State()), chunk).memory
    {
      if fed != [] {
        fed := fed[|fed| - 1 := fed[|fed| - 1] + chunk];
      }
      ghost var noted := State();
      assert noted == NoteFed(old(State()), chunk);
      var frames := framer.Feed(chunk);
      for i := 0 to |frames|
        invariant Valid()
        invariant framer.State() == FeedOnce(config.transport, old(framer.State()), chunk).memory
        invariant PassFrames(State(), clock, frames[i..]) == PassFrames(noted, clock, frames)
      {
        assert frames[i..][0] == frames[i] && frames[i..][1..] == frames[i + 1..];
        HandleFrame(frames[i], clock);
      }
    }

    /** One turn of the read loop: it ends the loop, or leaves what to go on with. */
    method ReadTurn(framer: StreamingFramer, data: seq<byte>, tick: Tick, recvs: seq<Recv>, clock: nat -> int,
                    ghost later: seq<Tick>)
        returns (stop: Option<Stop>, left: seq<byte>, answers: seq<Recv>)
      requires Valid() && framer.transport == config.transport
      modifies this`transitions, this`globalSequence, this`shutdownRequested, this`forwarded,
               this`status, this`fed, writer, buffer, framer
      ensures Valid() && old(transitions) <= transitions
      ensures StreamLoop(config, clock, old(State()), old(framer.State()), data, [tick] + later, recvs)
              == if stop.Some? then (State(), stop.value)
                 else StreamLoop(config, clock, State(), framer.State(), left, later, answers)
    {
      hide StreamLoop, PartialOrFailed, Enter, Interrupt, FeedOnce, Digest;
      assert ([tick] + later)[1..] == later;
      StreamLoopUnfold(config, clock, State(), framer.State(), data, [tick] + later, recvs);
      stop, left, answers := None, data, recvs;
      Listen(tick.shutdown);
      if tick.timeUp {
        stop := Some(TimeUp);
      } else if writer.bytes >= config.budget {
        stop := Some(BudgetUsed);
      } else if tick.idle {
        SetState(RECONNECTING);
        stop := Some(Stalled);
      } else if data != [] {
        left := Leave(data);
        HandleChunk(framer, Model.Take(data), clock);
      } else if recvs == [] {
        stop := Some(StillOpen);
      } else {
        answers := recvs[1..];
        match recvs[0]
        case RecvTimeout =>
        case RecvError =>
          if shutdownRequested {
            SetPartialOrFailed();
          }
          stop := Some(if shutdownRequested then ClosedByShutdown else Crashed);
        case Data(bytes) =>
          if bytes == [] {
            stop := Some(EndOfStream);
          } else {
            HandleChunk(framer, bytes, clock);
          }
      }
    }

    method ReadLoop(framer: StreamingFramer, received: seq<byte>, ticks: seq<Tick>, answers: seq<Recv>, clock: nat -> int)
        returns (stop: Stop)
      requires Valid() && framer.transport == config.transport
      modifies this`transitions, this`globalSequence, this`shutdownRequested, this`forwarded,
               this`status, this`fed, writer, buffer, framer
      ensures Valid() && old(transitions) <= transitions
      ensures (State(), stop) == StreamLoop(config, clock, old(State()), old(framer.State()), received, ticks, answers)
    {
      hide StreamLoop;
      var data, recvs := received, answers;
      ghost var goal := StreamLoop(config, clock, State(), framer.State(), data, ticks, recvs);
      for i := 0 to |ticks|
        invariant Valid() && old(transitions) <= transitions
        invariant StreamLoop(config, clock, State(), framer.State(), data, ticks[i..], recvs) == goal
      {
        assert ticks[i..] == [ticks[i]] + ticks[i + 1..];
        var ended;
        ended, data, recvs := ReadTurn(framer, data, ticks[i], recvs, clock, ticks[i + 1..]);
        if ended.Some? {
          return ended.value;
        }
      }
      NoTicksLeft(config, clock, State(), framer.State(), data, recvs);
      return StillOpen;
    }

    /** One reconnect: the wait is logged, the capture notes it, and the loop goes round again. */
    method WaitAndRetry()
      requires Valid() && attempts >= 1
      modifies this`sleeps, this`reconnects, writer
      ensures Valid() && State() == Retry(config, old(State()))
    {
      sleeps := sleeps + [Delay(config, attempts)];
      reconnects := reconnects + 1;
      writer.RecordReconnect();
    }

    method ServeStream(received: seq<byte>, ticks: seq<Tick>, recvs: seq<Recv>, timeUp: bool, clock: nat -> int)
        returns (turn: Turn)
      requires Valid() && attempts >= 1
      modifies this`transitions, this`globalSequence, this`shutdownRequested, this`forwarded, this`attempts,
               this`reconnects, this`sleeps, this`status, this`fed, writer, buffer
      ensures Valid() && old(transitions) <= transitions
      ensures var (r, stop) := StreamLoop(config, clock, Opened(old(State())), FRESH, received, ticks, recvs);
              OutcomeOf(turn, State()) == AfterStream(config, r, stop, timeUp)
    {
      hide StreamLoop, AfterStream;
      SetState(STREAMING);
      var framer := new StreamingFramer(config.transport);
      fed := fed + [[]];
      assert State() == Opened(old(State()));
      var stop := ReadLoop(framer, received, ticks, recvs, clock);
      turn := JudgeStream(stop, timeUp);
    }

    /** What follows a read loop that ended with `stop`. */
    method JudgeStream(stop: Stop, timeUp: bool) returns (turn: Turn)
      requires Valid() && attempts >= 1
      modifies this`transitions, this`status, this`sleeps, this`reconnects, writer
      ensures Valid() && old(transitions) <= transitions
      ensures OutcomeOf(turn, State()) == AfterStream(config, old(State()), stop, timeUp)
    {
      if stop == Crashed {
        return Raise;
      }
      if stop == StillOpen {
        return Pend;
      }
      if stop == TimeUp || timeUp || writer.bytes >= config.budget {
        return Done;
      }
      if attempts >= config.maxReconnects {
        if stop == Stalled || writer.bytes == 0 {
          SetPartialOrFailed();
        }
        return Done;
      }
      SetState(RECONNECTING);
      WaitAndRetry();
      return GoOn;
    }

    method Talk(head: Head, clock: nat -> int) returns (turn: Turn)
      requires Valid() && attempts >= 1
      modifies this`transitions, this`globalSequence, this`shutdownRequested, this`forwarded, this`attempts,
               this`reconnects, this`sleeps, this`status, this`fed, writer, buffer
      ensures Valid() && old(transitions) <= transitions
      ensures OutcomeOf(turn, State()) == Converse(config, clock, old(State()), head)
    {
      hide StreamLoop, AfterStream, Delay, ValidateStreamResponse;
      match head
      case HeadError => return Raise;
      case HeadTimeout =>
        turn := RetryOrGiveUp(true);
      case Head(statusLine, rest, first) =>
        match first
        case FirstError => return Raise;
        case FirstTimeout =>
          turn := RetryOrGiveUp(false);
        case First(bytes, ticks, recvs, timeUp) =>
          var check := ValidateStreamResponse(statusLine, rest + bytes);
          match check
          case Accepted =>
            turn := ServeStream(rest + bytes, ticks, recvs, timeUp, clock);
          case Refused(failure) =>
            if IsTerminal(failure) {
              SetState(BLOCKED);
              SetPartialOrFailed();
              return Done;
            }
            turn := RetryOrGiveUp(false);
    }

    /** Retry, or stop when the attempts are used up: FAILED without a response, else by what was captured. */
    method RetryOrGiveUp(noResponse: bool) returns (turn: Turn)
      requires Valid() && attempts >= 1
      modifies this`transitions, this`status, this`sleeps, this`reconnects, writer
      ensures Valid() && old(transitions) <= transitions
      ensures var r := Enter(old(State()), RECONNECTING);
              OutcomeOf(turn, State())
              == RetryUnlessExhausted(config, r, if noResponse then r.(status := FAILED) else PartialOrFailed(r))
    {
      SetState(RECONNECTING);
      if attempts >= config.maxReconnects {
        if noResponse {
          status := FAILED;
        } else {
          SetPartialOrFailed();
        }
        return Done;
      }
      WaitAndRetry();
      return GoOn;
    }

    method TryOnce(a: Attempt, clock: nat -> int) returns (turn: Turn)
      requires Valid()
      modifies this`transitions, this`globalSequence, this`shutdownRequested, this`forwarded, this`attempts,
               this`reconnects, this`sleeps, this`status, this`fed, writer, buffer
      ensures Valid() && old(transitions) <= transitions
      ensures OutcomeOf(turn, State()) == Try(config, clock, old(State()), a)
    {
      hide Converse, RetryUnlessExhausted, Enter, Interrupt, ValidConfig, Delay;
      attempts := attempts + 1;
      EnterAndListen(CONNECTING, a.shutdownDialing);
      match a.dial
      case DialFailed =>
        turn := RetryOrGiveUp(true);
      case Connected(shutdown, head) =>
        EnterAndListen(AUTHENTICATING, shutdown);
        turn := Talk(head, clock);
    }

    /** The connection loop up to where it breaks. */
    method Connect(script: seq<Attempt>, clock: nat -> int) returns (turn: Turn)
      requires Valid()
      modifies this`transitions, this`globalSequence, this`shutdownRequested, this`forwarded, this`attempts,
               this`reconnects, this`sleeps, this`status, this`fed, writer, buffer
      ensures Valid() && old(transitions) <= transitions
      ensures OutcomeOf(turn, State()) == Loop(config, clock, old(State()), script)
    {
      hide Try;
      ghost var goal := Loop(config, clock, State(), script);
      for i := 0 to |script|
        invariant Valid() && old(transitions) <= transitions
        invariant Loop(config, clock, State(), script[i..]) == goal
      {
        assert script[i..][0] == script[i] && script[i..][1..] == script[i + 1..];
        Listen(script[i].shutdown);
        if shutdownRequested {
          SetPartialOrFailed();
          return Done;
        }
        if script[i].timeUp || writer.bytes >= config.budget {
          return Done;
        }
        turn := TryOnce(script[i], clock);
        if turn != GoOn {
          return turn;
        }
      }
      return Pend;
    }

    /**
     * A whole capture. The result is that of the model, started with this client's sequence number
     * and shutdown flag; the states entered are added behind those of earlier runs.
     */
    method CaptureStream(script: seq<Attempt>, clock: nat -> int) returns (turn: Turn)
      requires Valid()
      modifies this
      ensures Valid() && fresh(writer) && fresh(buffer)
      ensures runStart == |old(transitions)| && old(transitions) <= transitions
      ensures OutcomeOf(turn, State())
              == Model.CaptureStream(config, clock, Start(config, old(globalSequence), old(shutdownRequested)), script)
      ensures turn == Done ==> buffer.items == []
    {
      hide Loop;
      Reset();
      turn := Connect(script, clock);
      if turn == Done {
        Drain();
        SetState(STOPPED);
      }
    }

    method Reset()
      requires Valid()
      modifies this
      ensures Valid() && fresh(writer) && fresh(buffer)
      ensures runStart == |transitions| && transitions == old(transitions)
      ensures State() == Start(config, old(globalSequence), old(shutdownRequested))
    {
      ClearCounts();
      var freshWriter := new CaptureWriter();
      var freshBuffer := new BoundedBuffer<Live>(config.capacity, Block);
      Begin(freshWriter, freshBuffer);
    }

    method ClearCounts()
      modifies this`forwarded, this`attempts, this`reconnects, this`sleeps, this`status, this`fed
      ensures forwarded == [] && attempts == reconnects == 0 && sleeps == [] && status == COMPLETE && fed == []
    {
      forwarded, attempts, reconnects, sleeps, status, fed := [], 0, 0, [], COMPLETE, [];
    }

    /** A run begins at the end of the transitions of earlier ones. */
    method Begin(emptyWriter: CaptureWriter, emptyBuffer: BoundedBuffer<Live>)
      requires ValidConfig(config) && emptyWriter.State() == EMPTY_CAPTURE
      requires emptyBuffer.State() == Queue(config.capacity, Block, [], 0, 0, 0)
      requires forwarded == [] && attempts == reconnects == 0 && sleeps == [] && status == COMPLETE && fed == []
      modifies this`writer, this`buffer, this`runStart
      ensures Valid() && writer == emptyWriter && buffer == emptyBuffer && runStart == |transitions|
      ensures State() == Start(config, globalSequence, shutdownRequested)
    {
      writer, buffer, runStart := emptyWriter, emptyBuffer, |transitions|;
      assert transitions[runStart..] == [];
    }

    method Drain()
      requires Valid()
      modifies this`forwarded, buffer
      ensures Valid() && State() == old(State()).(
                forwarded := old(forwarded) + old(buffer.items), buffer := old(buffer.State()).(items := []))
    {
      ghost var all := forwarded + buffer.items;
      ghost var queue := buffer.State();
      while buffer.items != []
        invariant Valid() && forwarded + buffer.items == all
        invariant buffer.State().(items := []) == queue.(items := [])
        decreases |buffer.items|
      {
        ghost var items := buffer.items;
        var item := buffer.Take();
        forwarded := forwarded + [item.value];
        assert [items[0]] + items[1..] == items;
      }
      assert forwarded == all;
    }
  }
}
