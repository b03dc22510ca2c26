/**
 * The advance driver `run_advance` (src/lib.rs:33-180): it binds the lambda
 * state, checks the machine's first request, delivers the encoded input, then
 * resumes the machine and classifies each yield until a terminal outcome or an
 * error ends the advance.
 *
 * The functions Handle, Loop, Drive and AdvanceTranscript state what one
 * advance does as a transcript of events; RunAdvance performs it step by step
 * on a Machine and is proved to produce exactly that transcript.
 */
module Driver {
  import opened Wrappers
  import opened Abi
  import opened Cmio

  /** Where the lambda state's backing file is mapped into the machine (src/lib.rs:22). */
  const MEMORY_RANGE_CONFIG_START: nat := 0x90000000000000

  /** `YieldManualReason`: the three terminal outcomes of an advance. */
  datatype YieldManualReason = Accepted | Rejected | Exception

  /** Every way an advance can fail. */
  datatype AdvanceError =
    | LambdaStateIo(message: string)           // reflink_or_copy failed
    | FirstRequestNotAccepted(reason: u16)     // the first request is not a manual RX_ACCEPTED
    | UnknownAutomaticReason(reason: u16)      // an automatic yield other than report or output
    | HandlerFailed(message: string)           // a handler or callback returned an error
    | UnknownCmioReason                        // a callback ran for a reason with no response category
    | NoCallbackFound                          // no callback is registered for a GIO reason

  /** Report, output and finish handlers: `FnMut(u16, &[u8]) -> Result<(u16, Vec<u8>), _>`. */
  type Handler = (u16, seq<byte>) -> Result<(u16, seq<byte>), string>

  /** The function behind a registered callback. */
  type CallbackFn = (u16, seq<byte>) -> Result<seq<byte>, string>

  /** `Callback` (src/lib.rs:181-186): a synchronous or an asynchronous handler. */
  datatype Callback = Sync(run: CallbackFn) | Async(run: CallbackFn)

  /** Invoking a callback: an asynchronous one is awaited at once, so both are one call. */
  function Dispatch(cb: Callback, reason: u16, data: seq<byte>): Result<seq<byte>, string> {
    match cb
    case Sync(f) => f(reason, data)
    case Async(f) => f(reason, data)
  }

  /** Everything the caller plugs into an advance. */
  datatype Handlers = Handlers(report: Handler, output: Handler, finish: Handler, callbacks: map<u32, Callback>)

  /** The outcome of the I/O that prepares the lambda state's working copy. */
  datatype LambdaStateFiles =
    | Prepared(previousSize: nat)   // the copy exists; the previous file has this many bytes
    | CopyFailed(message: string)   // reflink_or_copy returned an error

  /** What handling one yield did, and the advance's result if it ended there. */
  datatype Step = Step(events: seq<Event>, stop: Option<Result<YieldManualReason, AdvanceError>>)

  /** An advance, or a part of one: the events, the number of runs, the result. */
  datatype Transcript = Transcript(events: seq<Event>, consumed: nat, result: Result<YieldManualReason, AdvanceError>)

  /** A report or output handler ran: the loop continues unless it failed. */
  function Notified(call: Call, r: Result<(u16, seq<byte>), string>): Step {
    Step([Called(call)], if r.Err? then Some(Err(HandlerFailed(r.error))) else None)
  }

  /** The finish handler ran: the advance ends with `outcome` unless it failed. */
  function Finished(call: Call, r: Result<(u16, seq<byte>), string>, outcome: YieldManualReason): Step {
    Step([Called(call)], Some(if r.Err? then Err(HandlerFailed(r.error)) else Ok(outcome)))
  }

  /** The classification of one yield (src/lib.rs:111-177). */
  function Handle(req: CmioRequest, hs: Handlers): (st: Step)
    ensures req.IsTerminal() ==> st.stop.Some?
  {
    var reason := req.Reason();
    match req
    case Automatic(TxReport(data)) =>
      Notified(Call(ReportHandler, reason, data), hs.report(reason, data))
    case Automatic(TxOutput(data)) =>
      Notified(Call(OutputHandler, reason, data), hs.output(reason, data))
    case Automatic(OtherAutomatic(_, _)) =>
      Step([], Some(Err(UnknownAutomaticReason(reason))))
    case Manual(RxAccepted(hash)) =>
      Finished(Call(FinishHandler, reason, hash), hs.finish(reason, hash), Accepted)
    case Manual(RxRejected) =>
      Finished(Call(FinishHandler, reason, []), hs.finish(reason, []), Rejected)
    case Manual(TxException(message)) =>
      Finished(Call(FinishHandler, reason, message), hs.finish(reason, message), Exception)
    case Manual(Gio(_, data)) =>
      var key := reason as u32;
      if key !in hs.callbacks then Step([], Some(Err(NoCallbackFound)))
      else
        var called := Called(Call(GioCallback, reason, data));
        match Dispatch(hs.callbacks[key], reason, data)
        case Err(e) => Step([called], Some(Err(HandlerFailed(e))))
        case Ok(out) =>
          if key == YIELD_REASON_ADVANCE_STATE then Step([called, Sent(Response(Advance, out))], None)
          else if key == YIELD_REASON_INSPECT_STATE then Step([called, Sent(Response(Inspect, out))], None)
          else Step([called], Some(Err(UnknownCmioReason)))
  }

  /**
   * The driver loop (src/lib.rs:107-179) from the top of an iteration, with the
   * flag clear: run, receive, classify; clear the flag and go round again
   * unless the yield ended the advance.
   */
  function Loop(script: seq<CmioRequest>, hs: Handlers): (t: Transcript)
    requires HasTerminal(script)
    ensures 1 <= t.consumed <= |script|
    decreases |script|
  {
    var st := Handle(script[0], hs);
    var head := [Ran, Received(script[0])] + st.events;
    match st.stop
    case Some(res) => Transcript(head, 1, res)
    case None =>
      var rest := Loop(script[1..], hs);
      Transcript(head + [FlagCleared] + rest.events, 1 + rest.consumed, rest.result)
  }

  /** An iteration of Loop after which the loop goes on. */
  lemma LoopGoesOn(script: seq<CmioRequest>, hs: Handlers)
    requires HasTerminal(script) && Handle(script[0], hs).stop.None?
    ensures HasTerminal(script[1..])
    ensures var rest := Loop(script[1..], hs);
      && Loop(script, hs).events
         == [Ran, Received(script[0])] + Handle(script[0], hs).events + [FlagCleared] + rest.events
      && Loop(script, hs).consumed == 1 + rest.consumed
      && Loop(script, hs).result == rest.result
  {
  }

  /** An iteration of Loop that ends the advance. */
  lemma LoopEnds(script: seq<CmioRequest>, hs: Handlers)
    requires HasTerminal(script) && Handle(script[0], hs).stop.Some?
    ensures Loop(script, hs)
      == Transcript([Ran, Received(script[0])] + Handle(script[0], hs).events, 1, Handle(script[0], hs).stop.value)
  {
  }

  /** Drive on an accepted first request: the handshake, then Loop. */
  lemma DriveAccepted(first: CmioRequest, script: seq<CmioRequest>, payload: seq<byte>, hs: Handlers)
    requires IsU256(|payload|) && AcceptsFirst(first) && HasTerminal(script)
    ensures var greeting := [Received(first), Sent(Response(Advance, EncodeEvmAdvance(payload))), FlagCleared];
      var d := Drive(first, script, payload, hs);
      var loop := Loop(script, hs);
      d.events == greeting + loop.events && d.consumed == loop.consumed && d.result == loop.result
  {
  }

  /** The check on the first request (src/lib.rs:90). */
  predicate AcceptsFirst(req: CmioRequest) {
    req.Manual? && req.Reason() == RX_ACCEPTED
  }

  /** Handshake and loop (src/lib.rs:88-179) for a machine stopped at `first`. */
  function Drive(first: CmioRequest, script: seq<CmioRequest>, payload: seq<byte>, hs: Handlers): (t: Transcript)
    requires IsU256(|payload|)
    requires AcceptsFirst(first) ==> HasTerminal(script)
    ensures t.consumed <= |script|
  {
    if !AcceptsFirst(first) then
      Transcript([Received(first)], 0, Err(FirstRequestNotAccepted(first.Reason())))
    else
      var loop := Loop(script, hs);
      Transcript([Received(first), Sent(Response(Advance, EncodeEvmAdvance(payload))), FlagCleared] + loop.events,
                 loop.consumed, loop.result)
  }

  /** The whole of run_advance, lambda state included (src/lib.rs:44-55, 73-86). */
  function AdvanceTranscript(lambdaState: Option<LambdaStateFiles>, first: CmioRequest,
                             script: seq<CmioRequest>, payload: seq<byte>, hs: Handlers): (t: Transcript)
    requires IsU256(|payload|)
    requires AcceptsFirst(first) ==> HasTerminal(script)
    ensures t.consumed <= |script|
  {
    match lambdaState
    case Some(CopyFailed(message)) => Transcript([], 0, Err(LambdaStateIo(message)))
    case Some(Prepared(size)) =>
      var d := Drive(first, script, payload, hs);
      Transcript([MemoryRangeBound(MEMORY_RANGE_CONFIG_START, size)] + d.events, d.consumed, d.result)
    case None => Drive(first, script, payload, hs)
  }

  /**
   * run_advance on a loaded machine `m`. Loading the snapshot is not modelled;
   * the filesystem work on the lambda state arrives as its outcome.
   * `metadata` is accepted and, as in the source, not used.
   */
  method RunAdvance(m: Machine, lambdaState: Option<LambdaStateFiles>, payload: seq<byte>,
                    metadata: map<seq<byte>, seq<byte>>,
                    report: Handler, output: Handler, finish: Handler, callbacks: map<u32, Callback>)
    returns (result: Result<YieldManualReason, AdvanceError>)
    requires m.Valid()
    requires IsU256(|payload|)
    requires AcceptsFirst(m.current) ==> HasTerminal(m.script)
    modifies m
    ensures m.Valid()
    ensures var t := AdvanceTranscript(lambdaState, old(m.current), old(m.script), payload,
                                       Handlers(report, output, finish, callbacks));
      && result == t.result
      && m.history == old(m.history) + t.events
      && m.script == old(m.script)[t.consumed..]
  {
    var hs := Handlers(report, output, finish, callbacks);
    match lambdaState {
      case Some(CopyFailed(message)) =>
        return Err(LambdaStateIo(message));
      case Some(Prepared(size)) =>
        m.ReplaceMemoryRange(MEMORY_RANGE_CONFIG_START, size);
        result := DriveAdvance(m, payload, hs);
        AdvancePrepared(size, old(m.current), old(m.script), payload, hs, old(m.history));
      case None =>
        result := DriveAdvance(m, payload, hs);
    }
  }

  /** With the lambda state prepared, the advance is Drive after binding its memory range. */
  lemma AdvancePrepared(size: nat, first: CmioRequest, script: seq<CmioRequest>, payload: seq<byte>,
                        hs: Handlers, base: seq<Event>)
    requires IsU256(|payload|)
    requires AcceptsFirst(first) ==> HasTerminal(script)
    ensures var d := Drive(first, script, payload, hs);
      var t := AdvanceTranscript(Some(Prepared(size)), first, script, payload, hs);
      && base + [MemoryRangeBound(MEMORY_RANGE_CONFIG_START, size)] + d.events == base + t.events
      && t.result == d.result && t.consumed == d.consumed
  {
    var d := Drive(first, script, payload, hs);
    assert base + [MemoryRangeBound(MEMORY_RANGE_CONFIG_START, size)] + d.events
        == base + ([MemoryRangeBound(MEMORY_RANGE_CONFIG_START, size)] + d.events);
  }

  /** The handshake and the loop of run_advance (src/lib.rs:88-179). */
  method DriveAdvance(m: Machine, payload: seq<byte>, hs: Handlers)
    returns (result: Result<YieldManualReason, AdvanceError>)
    requires m.Valid()
    requires IsU256(|payload|)
    requires AcceptsFirst(m.current) ==> HasTerminal(m.script)
    modifies m
    ensures m.Valid()
    ensures var t := Drive(old(m.current), old(m.script), payload, hs);
      && result == t.result
      && m.history == old(m.history) + t.events
      && m.script == old(m.script)[t.consumed..]
  {
    var first := m.ReceiveCmioRequest();
    if !(first.Manual? && first.Reason() == RX_ACCEPTED) {
      return Err(FirstRequestNotAccepted(first.Reason()));
    }
    m.SendCmioResponse(Response(Advance, EncodeEvmAdvance(payload)));
    m.ClearYieldFlag();

    ghost var s0 := m.script;
    ghost var target := Drive(old(m.current), old(m.script), payload, hs);
    LoopStarts(first, s0, payload, hs, old(m.history));
    ghost var k := 0;
    while true
      invariant m.Valid() && !m.iflagsY
      invariant LoopAt(m.history, m.script, k, old(m.history), s0, target, hs)
      decreases |m.script|
    {
      ghost var s := m.script;
      ghost var h := m.history;
      if !m.iflagsY {
        m.Run();
      }
      var req := m.ReceiveCmioRequest();
      var stop := HandleYield(m, req, hs);
      if stop.Some? {
        LoopStops(h, s, k, old(m.history), s0, target, hs);
        return stop.value;
      }
      m.ClearYieldFlag();
      LoopContinues(h, s, k, old(m.history), s0, target, hs);
      k := k + 1;
    }
  }

  /**
   * The loop invariant of DriveAdvance: the machine has run k times since the
   * handshake, and what is left of Loop from here completes the advance
   * `target` that began with history `base`.
   */
  ghost predicate LoopAt(h: seq<Event>, s: seq<CmioRequest>, k: nat,
                         base: seq<Event>, s0: seq<CmioRequest>, target: Transcript, hs: Handlers)
  {
    && HasTerminal(s)
    && k <= |s0| && s == s0[k..]
    && h + Loop(s, hs).events == base + target.events
    && Loop(s, hs).result == target.result
    && k + Loop(s, hs).consumed == target.consumed
  }

  lemma LoopStarts(first: CmioRequest, s0: seq<CmioRequest>, payload: seq<byte>, hs: Handlers, base: seq<Event>)
    requires IsU256(|payload|) && AcceptsFirst(first) && HasTerminal(s0)
    ensures LoopAt(base + [Received(first)] + [Sent(Response(Advance, EncodeEvmAdvance(payload)))] + [FlagCleared],
                   s0, 0, base, s0, Drive(first, s0, payload, hs), hs)
  {
    DriveAccepted(first, s0, payload, hs);
    var greeting := [Received(first), Sent(Response(Advance, EncodeEvmAdvance(payload))), FlagCleared];
    assert base + [Received(first)] + [Sent(Response(Advance, EncodeEvmAdvance(payload)))] + [FlagCleared]
        == base + greeting;
  }

  lemma LoopContinues(h: seq<Event>, s: seq<CmioRequest>, k: nat,
                      base: seq<Event>, s0: seq<CmioRequest>, target: Transcript, hs: Handlers)
    requires LoopAt(h, s, k, base, s0, target, hs)
    requires Handle(s[0], hs).stop.None?
    ensures LoopAt(h + [Ran] + [Received(s[0])] + Handle(s[0], hs).events + [FlagCleared], s[1..], k + 1,
                   base, s0, target, hs)
  {
    LoopGoesOn(s, hs);
    var iteration := [Ran, Received(s[0])] + Handle(s[0], hs).events + [FlagCleared];
    assert Loop(s, hs).events == iteration + Loop(s[1..], hs).events;
    assert h + [Ran] + [Received(s[0])] + Handle(s[0], hs).events + [FlagCleared] == h + iteration;
    assert s[1..] == s0[k + 1..];
  }

  lemma LoopStops(h: seq<Event>, s: seq<CmioRequest>, k: nat,
                  base: seq<Event>, s0: seq<CmioRequest>, target: Transcript, hs: Handlers)
    requires LoopAt(h, s, k, base, s0, target, hs)
    requires Handle(s[0], hs).stop.Some?
    ensures h + [Ran] + [Received(s[0])] + Handle(s[0], hs).events == base + target.events
    ensures Handle(s[0], hs).stop == Some(target.result)
    ensures s[1..] == s0[target.consumed..]
  {
    LoopEnds(s, hs);
    assert h + [Ran] + [Received(s[0])] + Handle(s[0], hs).events == h + ([Ran, Received(s[0])] + Handle(s[0], hs).events);
  }

  /** One arm of the classification (src/lib.rs:111-177), on the machine. */
  method HandleYield(m: Machine, req: CmioRequest, hs: Handlers)
    returns (stop: Option<Result<YieldManualReason, AdvanceError>>)
    requires m.Valid()
    modifies m`responses, m`history
    ensures m.Valid()
    ensures stop == Handle(req, hs).stop
    ensures m.history == old(m.history) + Handle(req, hs).events
  {
    var reason := req.Reason();
    match req {
      case Automatic(automatic) =>
        match automatic {
          case TxReport(data) =>
            var r := hs.report(reason, data);
            m.NoteCall(Call(ReportHandler, reason, data));
            if r.Err? {
              return Some(Err(HandlerFailed(r.error)));
            }
          case TxOutput(data) =>
            var r := hs.output(reason, data);
            m.NoteCall(Call(OutputHandler, reason, data));
            if r.Err? {
              return Some(Err(HandlerFailed(r.error)));
            }
          case OtherAutomatic(_, _) =>
            return Some(Err(UnknownAutomaticReason(reason)));
        }
      case Manual(manual) =>
        match manual {
          case RxAccepted(hash) =>
            var r := hs.finish(reason, hash);
            m.NoteCall(Call(FinishHandler, reason, hash));
            if r.Err? {
              return Some(Err(HandlerFailed(r.error)));
            }
            return Some(Ok(Accepted));
          case RxRejected =>
            var r := hs.finish(reason, []);
            m.NoteCall(Call(FinishHandler, reason, []));
            if r.Err? {
              return Some(Err(HandlerFailed(r.error)));
            }
            return Some(Ok(Rejected));
          case TxException(message) =>
            var r := hs.finish(reason, message);
            m.NoteCall(Call(FinishHandler, reason, message));
            if r.Err? {
              return Some(Err(HandlerFailed(r.error)));
            }
            return Some(Ok(Exception));
          case Gio(_, data) =>
            var key := reason as u32;
            if key !in hs.callbacks {
              return Some(Err(NoCallbackFound));
            }
            var out := Dispatch(hs.callbacks[key], reason, data);
            m.NoteCall(Call(GioCallback, reason, data));
            if out.Err? {
              return Some(Err(HandlerFailed(out.error)));
            }
            var tag: ResponseReason;
            if key == YIELD_REASON_ADVANCE_STATE {
              tag := Advance;
            } else if key == YIELD_REASON_INSPECT_STATE {
              tag := Inspect;
            } else {
              return Some(Err(UnknownCmioReason));
            }
            m.SendCmioResponse(Response(tag, out.value));
        }
    }
    return None;
  }
}
