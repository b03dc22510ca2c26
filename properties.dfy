/**
 * What one advance does, stated against the transcript functions of Driver:
 * the gate on the first request, the handshake, the run/clear discipline of
 * the yield flag, the classification of each yield, the order of handler
 * calls, and the single call to the finish handler that ends an accepted,
 * rejected or excepted advance (src/lib.rs:88-179).
 */
module AdvanceProperties {
  import opened Wrappers
  import opened Abi
  import opened Cmio
  import opened Driver

  // ---------------------------------------------------------------------------
  // Reference tables, written independently of Handle
  // ---------------------------------------------------------------------------

  function Opt<T>(o: Option<T>): seq<T> {
    match o
    case Some(x) => [x]
    case None => []
  }

  /** The handler call a yield is routed to, if any (src/lib.rs:113-177). */
  function CallFor(req: CmioRequest, hs: Handlers): Option<Call> {
    match req
    case Automatic(TxReport(data)) => Some(Call(ReportHandler, AUTOMATIC_REASON_TX_REPORT, data))
    case Automatic(TxOutput(data)) => Some(Call(OutputHandler, AUTOMATIC_REASON_TX_OUTPUT, data))
    case Automatic(OtherAutomatic(_, _)) => None
    case Manual(RxAccepted(hash)) => Some(Call(FinishHandler, MANUAL_REASON_RX_ACCEPTED, hash))
    case Manual(RxRejected) => Some(Call(FinishHandler, MANUAL_REASON_RX_REJECTED, []))
    case Manual(TxException(message)) => Some(Call(FinishHandler, MANUAL_REASON_TX_EXCEPTION, message))
    case Manual(Gio(domain, data)) =>
      if domain as u32 in hs.callbacks then Some(Call(GioCallback, domain, data)) else None
  }

  /** The handler calls a sequence of yields is routed to, in order. */
  function CallsFor(reqs: seq<CmioRequest>, hs: Handlers): seq<Call> {
    if reqs == [] then [] else Opt(CallFor(reqs[0], hs)) + CallsFor(reqs[1..], hs)
  }

  /** The response category of a GIO reason, if it has one (src/lib.rs:152-161). */
  function Category(key: u32): Option<ResponseReason> {
    if key == YIELD_REASON_ADVANCE_STATE then Some(Advance)
    else if key == YIELD_REASON_INSPECT_STATE then Some(Inspect)
    else None
  }

  /** The driver goes on to the next yield after this one. */
  predicate Continues(req: CmioRequest, hs: Handlers) {
    match req
    case Automatic(TxReport(data)) => hs.report(AUTOMATIC_REASON_TX_REPORT, data).Ok?
    case Automatic(TxOutput(data)) => hs.output(AUTOMATIC_REASON_TX_OUTPUT, data).Ok?
    case Manual(Gio(domain, data)) =>
      var key := domain as u32;
      key in hs.callbacks && Dispatch(hs.callbacks[key], domain, data).Ok? && Category(key).Some?
    case _ => false
  }

  /** The outcome a terminal yield reports (src/lib.rs:133, 137, 141). */
  function OutcomeOf(req: CmioRequest): YieldManualReason
    requires req.IsTerminal()
  {
    match req.manual
    case RxAccepted(_) => Accepted
    case RxRejected => Rejected
    case TxException(_) => Exception
  }

  /** The bytes a terminal yield hands to the finish handler. */
  function FinishData(req: CmioRequest): seq<byte>
    requires req.IsTerminal()
  {
    match req.manual
    case RxAccepted(hash) => hash
    case RxRejected => []
    case TxException(message) => message
  }

  predicate FinishSucceeds(req: CmioRequest, hs: Handlers)
    requires req.IsTerminal()
  {
    hs.finish(req.Reason(), FinishData(req)).Ok?
  }

  // ---------------------------------------------------------------------------
  // One yield
  // ---------------------------------------------------------------------------

  /** Handling a yield only calls a handler and sends responses; it never runs or receives. */
  lemma HandleOnlyCallsAndSends(req: CmioRequest, hs: Handlers)
    ensures var e := Handle(req, hs).events;
      forall i | 0 <= i < |e| :: e[i].Called? || e[i].Sent?
  {
  }

  /** Each yield goes to the handler the routing table names, once, or to none. */
  lemma HandleCalls(req: CmioRequest, hs: Handlers)
    ensures Pick(Handle(req, hs).events, CallOf) == Opt(CallFor(req, hs))
  {
  }

  /** The loop goes on after a yield exactly when the table says it does. */
  lemma HandleContinues(req: CmioRequest, hs: Handlers)
    ensures Handle(req, hs).stop.None? <==> Continues(req, hs)
  {
  }

  /**
   * A yield that neither continues the loop nor is terminal ends the advance
   * with the error its class calls for: a failed handler or callback, an
   * unknown automatic reason, a GIO reason without a callback or without a
   * response category (src/lib.rs:116-126, 144-173).
   */
  lemma HandleErrors(req: CmioRequest, hs: Handlers)
    requires !req.IsTerminal() && !Continues(req, hs)
    ensures Handle(req, hs).stop.Some? && Handle(req, hs).stop.value.Err?
    ensures req.Automatic? && req.automatic.OtherAutomatic? ==>
      Handle(req, hs).stop == Some(Err(UnknownAutomaticReason(req.Reason())))
    ensures req.Manual? && req.manual.Gio? && req.Reason() as u32 !in hs.callbacks ==>
      Handle(req, hs).stop == Some(Err(NoCallbackFound)) && Handle(req, hs).events == []
    ensures req.Automatic? && req.automatic.TxReport? ==>
      Handle(req, hs).stop
        == Some(Err(HandlerFailed(hs.report(AUTOMATIC_REASON_TX_REPORT, req.automatic.data).error)))
    ensures req.Automatic? && req.automatic.TxOutput? ==>
      Handle(req, hs).stop
        == Some(Err(HandlerFailed(hs.output(AUTOMATIC_REASON_TX_OUTPUT, req.automatic.data).error)))
    ensures req.Manual? && req.manual.Gio? && req.Reason() as u32 in hs.callbacks ==>
      var out := Dispatch(hs.callbacks[req.Reason() as u32], req.Reason(), req.manual.data);
      && Handle(req, hs).events == [Called(Call(GioCallback, req.Reason(), req.manual.data))]
      && Handle(req, hs).stop
         == Some(Err(if out.Err? then HandlerFailed(out.error) else UnknownCmioReason))
  {
  }

  /** An advance ends successfully exactly at a terminal yield whose finish handler succeeds. */
  lemma HandleSucceeds(req: CmioRequest, hs: Handlers, v: YieldManualReason)
    ensures Handle(req, hs).stop == Some(Ok(v))
        <==> req.IsTerminal() && FinishSucceeds(req, hs) && v == OutcomeOf(req)
  {
  }

  /**
   * The terminal yields call the finish handler once, with the root hash, no
   * data or the exception message, and never send a response; the advance
   * ends with their outcome unless the finish handler fails.
   */
  lemma HandleTerminal(req: CmioRequest, hs: Handlers)
    requires req.IsTerminal()
    ensures Handle(req, hs).events == [Called(Call(FinishHandler, req.Reason(), FinishData(req)))]
    ensures var r := hs.finish(req.Reason(), FinishData(req));
      Handle(req, hs).stop == Some(if r.Err? then Err(HandlerFailed(r.error)) else Ok(OutcomeOf(req)))
  {
  }

  /**
   * A GIO yield with a registered callback sends the callback's output as one
   * response, in the category the reason names, or none at all
   * (src/lib.rs:143-165).
   */
  lemma HandleGioResponse(req: CmioRequest, hs: Handlers)
    requires req.Manual? && req.manual.Gio?
    ensures var key := req.Reason() as u32;
      var e := Handle(req, hs).events;
      Pick(e, SentOf)
        == if Continues(req, hs)
           then [Response(Category(key).value, Dispatch(hs.callbacks[key], req.Reason(), req.manual.data).value)]
           else []
  {
  }

  /** Only a GIO yield sends a response during the loop, and at most one. */
  lemma HandleSendsAtMostOnce(req: CmioRequest, hs: Handlers)
    ensures |Pick(Handle(req, hs).events, SentOf)| <= 1
    ensures !(req.Manual? && req.manual.Gio?) ==> Pick(Handle(req, hs).events, SentOf) == []
  {
  }

  /** The finish handler runs only for terminal yields. */
  lemma HandleFinishes(req: CmioRequest, hs: Handlers)
    ensures Pick(Handle(req, hs).events, FinishOf) == if req.IsTerminal() then Opt(CallFor(req, hs)) else []
  {
  }

  // ---------------------------------------------------------------------------
  // The loop
  // ---------------------------------------------------------------------------

  /** Picking from an event sequence one event at a time. */
  lemma PickCons<T>(x: Event, t: seq<Event>, f: Event -> Option<T>)
    ensures Pick([x] + t, f) == Opt(f(x)) + Pick(t, f)
  {
    assert ([x] + t)[1..] == t;
  }

  /** Picking from the events of one loop iteration. */
  lemma PickIteration<T>(run: Event, received: Event, handled: seq<Event>, f: Event -> Option<T>)
    ensures Pick([run, received] + handled, f) == Opt(f(run)) + Opt(f(received)) + Pick(handled, f)
  {
    assert [run, received] + handled == [run] + ([received] + handled);
    PickCons(run, [received] + handled, f);
    PickCons(received, handled, f);
  }

  /** Picking from one loop iteration after which the loop goes on. */
  lemma PickIterationThen<T>(run: Event, received: Event, handled: seq<Event>, cleared: Event,
                             rest: seq<Event>, f: Event -> Option<T>)
    ensures Pick([run, received] + handled + [cleared] + rest, f)
         == Opt(f(run)) + Opt(f(received)) + Pick(handled, f) + Opt(f(cleared)) + Pick(rest, f)
  {
    assert [run, received] + handled + [cleared] + rest == ([run, received] + handled) + ([cleared] + rest);
    PickAppend([run, received] + handled, [cleared] + rest, f);
    PickIteration(run, received, handled, f);
    PickCons(cleared, rest, f);
  }

  /** Anything picked from a loop transcript that ends at its first yield. */
  lemma PickLoopEnds<T>(s: seq<CmioRequest>, hs: Handlers, f: Event -> Option<T>)
    requires HasTerminal(s) && Handle(s[0], hs).stop.Some?
    ensures Pick(Loop(s, hs).events, f)
         == Opt(f(Ran)) + Opt(f(Received(s[0]))) + Pick(Handle(s[0], hs).events, f)
  {
    LoopEnds(s, hs);
    PickIteration(Ran, Received(s[0]), Handle(s[0], hs).events, f);
  }

  /** Anything picked from a loop transcript that goes on after its first yield. */
  lemma PickLoopGoesOn<T>(s: seq<CmioRequest>, hs: Handlers, f: Event -> Option<T>)
    requires HasTerminal(s) && Handle(s[0], hs).stop.None?
    ensures HasTerminal(s[1..])
    ensures Pick(Loop(s, hs).events, f)
         == Opt(f(Ran)) + Opt(f(Received(s[0]))) + Pick(Handle(s[0], hs).events, f)
            + Opt(f(FlagCleared)) + Pick(Loop(s[1..], hs).events, f)
  {
    LoopGoesOn(s, hs);
    PickIterationThen(Ran, Received(s[0]), Handle(s[0], hs).events, FlagCleared, Loop(s[1..], hs).events, f);
  }

  /** Handling a yield neither receives a request nor runs the machine. */
  lemma HandleNeitherReceivesNorRuns(req: CmioRequest, hs: Handlers)
    ensures Pick(Handle(req, hs).events, ReceivedOf) == []
    ensures Pick(Handle(req, hs).events, RanOf) == []
  {
    HandleOnlyCallsAndSends(req, hs);
    PickNone(Handle(req, hs).events, ReceivedOf);
    PickNone(Handle(req, hs).events, RanOf);
  }

  /** The loop receives the scripted yields in order, and no others. */
  lemma {:induction false} LoopReceivesInOrder(s: seq<CmioRequest>, hs: Handlers)
    requires HasTerminal(s)
    ensures Pick(Loop(s, hs).events, ReceivedOf) == s[..Loop(s, hs).consumed]
    decreases |s|
  {
    HandleNeitherReceivesNorRuns(s[0], hs);
    if Handle(s[0], hs).stop.None? {
      PickLoopGoesOn(s, hs, ReceivedOf);
      LoopGoesOn(s, hs);
      LoopReceivesInOrder(s[1..], hs);
      var k := Loop(s[1..], hs).consumed;
      assert s[..1 + k] == [s[0]] + s[1..][..k];
    } else {
      PickLoopEnds(s, hs, ReceivedOf);
      LoopEnds(s, hs);
    }
  }

  /** The loop runs the machine once per yield it handles. */
  lemma {:induction false} LoopRunsOncePerYield(s: seq<CmioRequest>, hs: Handlers)
    requires HasTerminal(s)
    ensures |Pick(Loop(s, hs).events, RanOf)| == Loop(s, hs).consumed
    decreases |s|
  {
    HandleNeitherReceivesNorRuns(s[0], hs);
    if Handle(s[0], hs).stop.None? {
      PickLoopGoesOn(s, hs, RanOf);
      LoopGoesOn(s, hs);
      LoopRunsOncePerYield(s[1..], hs);
    } else {
      PickLoopEnds(s, hs, RanOf);
      LoopEnds(s, hs);
    }
  }

  /** Nothing is picked from events that are all handler calls and responses. */
  lemma {:induction false} PickNone<T>(e: seq<Event>, f: Event -> Option<T>)
    requires forall i | 0 <= i < |e| :: e[i].Called? || e[i].Sent?
    requires forall x: Event | x.Called? || x.Sent? :: f(x).None?
    ensures Pick(e, f) == []
  {
    if e != [] {
      PickNone(e[1..], f);
    }
  }

  /**
   * Handlers are called in the order the machine raises its yields, once per
   * yield, and no yield after the one that stopped the loop is handled.
   */
  lemma {:induction false} LoopCallsInOrder(s: seq<CmioRequest>, hs: Handlers)
    requires HasTerminal(s)
    ensures Pick(Loop(s, hs).events, CallOf) == CallsFor(s[..Loop(s, hs).consumed], hs)
    decreases |s|
  {
    CallsForCons(s, Loop(s, hs).consumed, hs);
    if Handle(s[0], hs).stop.None? {
      LoopCallsGoOn(s, hs);
      LoopCallsInOrder(s[1..], hs);
    } else {
      LoopCallsEnd(s, hs);
    }
  }

  /** The handler calls of a loop that goes on after its first yield. */
  lemma LoopCallsGoOn(s: seq<CmioRequest>, hs: Handlers)
    requires HasTerminal(s) && Handle(s[0], hs).stop.None?
    ensures HasTerminal(s[1..])
    ensures Pick(Loop(s, hs).events, CallOf) == Opt(CallFor(s[0], hs)) + Pick(Loop(s[1..], hs).events, CallOf)
    ensures Loop(s, hs).consumed == 1 + Loop(s[1..], hs).consumed
  {
    HandleCalls(s[0], hs);
    PickLoopGoesOn(s, hs, CallOf);
    LoopGoesOn(s, hs);
    var x, y := Opt(CallFor(s[0], hs)), Pick(Loop(s[1..], hs).events, CallOf);
    assert [] + [] + x + [] + y == x + y;
  }

  /** The handler calls of a loop that ends at its first yield. */
  lemma LoopCallsEnd(s: seq<CmioRequest>, hs: Handlers)
    requires HasTerminal(s) && Handle(s[0], hs).stop.Some?
    ensures Pick(Loop(s, hs).events, CallOf) == Opt(CallFor(s[0], hs))
    ensures Loop(s, hs).consumed == 1
  {
    HandleCalls(s[0], hs);
    PickLoopEnds(s, hs, CallOf);
    LoopEnds(s, hs);
    assert [] + [] + Opt(CallFor(s[0], hs)) == Opt(CallFor(s[0], hs));
  }

  /** The routing of a prefix of yields, first yield split off. */
  lemma CallsForCons(reqs: seq<CmioRequest>, k: nat, hs: Handlers)
    requires 1 <= k <= |reqs|
    ensures CallsFor(reqs[..k], hs) == Opt(CallFor(reqs[0], hs)) + CallsFor(reqs[1..][..k - 1], hs)
  {
    assert reqs[..k][0] == reqs[0];
    assert reqs[..k][1..] == reqs[1..][..k - 1];
  }

  /**
   * The loop stops at the first yield that does not continue it, and its
   * result is what handling that yield decided.
   */
  lemma {:induction false} LoopStopsAtFirstStop(s: seq<CmioRequest>, hs: Handlers)
    requires HasTerminal(s)
    ensures var t := Loop(s, hs);
      && (forall j | 0 <= j < t.consumed - 1 :: Continues(s[j], hs))
      && !Continues(s[t.consumed - 1], hs)
      && Handle(s[t.consumed - 1], hs).stop == Some(t.result)
    decreases |s|
  {
    HandleContinues(s[0], hs);
    if Handle(s[0], hs).stop.None? {
      LoopGoesOn(s, hs);
      LoopStopsAtFirstStop(s[1..], hs);
      var t := Loop(s, hs);
      forall j | 0 <= j < t.consumed - 1
        ensures Continues(s[j], hs)
      {
        if j > 0 {
          assert s[j] == s[1..][j - 1];
        }
      }
      assert s[t.consumed - 1] == s[1..][Loop(s[1..], hs).consumed - 1];
    } else {
      LoopEnds(s, hs);
    }
  }

  /** The machine runs only with the yield flag cleared just before. */
  lemma {:induction false} LoopClearsBeforeRun(s: seq<CmioRequest>, hs: Handlers)
    requires HasTerminal(s)
    ensures var e := Loop(s, hs).events;
      && |e| >= 2 && e[0] == Ran
      && forall i | 0 < i < |e| && e[i].Ran? :: e[i - 1] == FlagCleared
    decreases |s|
  {
    var st := Handle(s[0], hs);
    HandleOnlyCallsAndSends(s[0], hs);
    var head := [Ran, Received(s[0])] + st.events;
    var e := Loop(s, hs).events;
    if st.stop.None? {
      LoopGoesOn(s, hs);
      LoopClearsBeforeRun(s[1..], hs);
      var rest := Loop(s[1..], hs).events;
      assert e == head + [FlagCleared] + rest;
      forall i | 0 < i <= |head|
        ensures !e[i].Ran?
      {
        assert e[i] == (head + [FlagCleared])[i];
        if 2 <= i < |head| {
          assert head[i] == st.events[i - 2];
        }
      }
      forall i | |head| < i < |e| && e[i].Ran?
        ensures e[i - 1] == FlagCleared
      {
        assert e[i] == rest[i - |head| - 1];
        if i > |head| + 1 {
          assert e[i - 1] == rest[i - |head| - 2];
        }
      }
    } else {
      LoopEnds(s, hs);
      forall i | 0 < i < |e|
        ensures !e[i].Ran?
      {
        if i >= 2 {
          assert e[i] == st.events[i - 2];
        }
      }
    }
  }

  /**
   * The finish handler runs at most once; an advance that ends with an
   * outcome ran it exactly once, as its very last step.
   */
  lemma {:induction false} LoopFinishesOnce(s: seq<CmioRequest>, hs: Handlers)
    requires HasTerminal(s)
    ensures var t := Loop(s, hs);
      && |Pick(t.events, FinishOf)| <= 1
      && (t.result.Ok? ==>
            && |Pick(t.events, FinishOf)| == 1
            && t.events[|t.events| - 1].Called?
            && t.events[|t.events| - 1].call.handler == FinishHandler)
    decreases |s|
  {
    HandleFinishes(s[0], hs);
    var st := Handle(s[0], hs);
    if st.stop.None? {
      PickLoopGoesOn(s, hs, FinishOf);
      LoopGoesOn(s, hs);
      HandleContinues(s[0], hs);
      LoopFinishesOnce(s[1..], hs);
      var rest := Loop(s[1..], hs).events;
      var e := Loop(s, hs).events;
      assert e[|e| - 1] == rest[|rest| - 1];
    } else {
      PickLoopEnds(s, hs, FinishOf);
      LoopEnds(s, hs);
      if st.stop.value.Ok? {
        HandleSucceeds(s[0], hs, st.stop.value.value);
        HandleTerminal(s[0], hs);
      }
    }
  }

  /** At most one response per yield: a loop of k runs sends at most k responses. */
  lemma {:induction false} LoopSendsAtMostOncePerYield(s: seq<CmioRequest>, hs: Handlers)
    requires HasTerminal(s)
    ensures |Pick(Loop(s, hs).events, SentOf)| <= Loop(s, hs).consumed
    decreases |s|
  {
    HandleSendsAtMostOnce(s[0], hs);
    if Handle(s[0], hs).stop.None? {
      PickLoopGoesOn(s, hs, SentOf);
      LoopGoesOn(s, hs);
      LoopSendsAtMostOncePerYield(s[1..], hs);
    } else {
      PickLoopEnds(s, hs, SentOf);
      LoopEnds(s, hs);
    }
  }

  // ---------------------------------------------------------------------------
  // The whole advance
  // ---------------------------------------------------------------------------

  /** The first request is accepted exactly when it is a manual `RxAccepted` yield. */
  lemma AcceptsFirstIsRxAccepted(req: CmioRequest)
    requires req.WellFormed()
    ensures AcceptsFirst(req) <==> req.Manual? && req.manual.RxAccepted?
  {
  }

  /**
   * A first request other than a manual RX_ACCEPTED yield ends the advance with
   * an error naming its reason: no response is sent, the machine never runs
   * and no handler is called (src/lib.rs:88-104).
   */
  lemma FirstRequestGate(first: CmioRequest, script: seq<CmioRequest>, payload: seq<byte>, hs: Handlers)
    requires IsU256(|payload|) && !AcceptsFirst(first)
    ensures var d := Drive(first, script, payload, hs);
      && d.result == Err(FirstRequestNotAccepted(first.Reason()))
      && Pick(d.events, SentOf) == [] && Pick(d.events, RanOf) == [] && Pick(d.events, CallOf) == []
      && d.consumed == 0
  {
  }

  /**
   * On an accepted first request the driver sends the encoded input as the
   * only response before the loop, clears the flag, and only then runs the
   * machine; the response carries the payload back out (src/lib.rs:90-98).
   */
  lemma Handshake(first: CmioRequest, script: seq<CmioRequest>, payload: seq<byte>, hs: Handlers)
    requires IsU256(|payload|) && AcceptsFirst(first) && HasTerminal(script)
    ensures var d := Drive(first, script, payload, hs);
      && |d.events| > 3
      && d.events[..4] == [Received(first), Sent(Response(Advance, EncodeEvmAdvance(payload))), FlagCleared, Ran]
      && DecodeEvmAdvance(d.events[1].response.data) == Some(payload)
  {
    DriveAccepted(first, script, payload, hs);
    LoopClearsBeforeRun(script, hs);
    EvmAdvanceRoundTrip(payload);
  }

  /** Anything picked from an accepted advance: from the handshake, then from the loop. */
  lemma PickDrive<T>(first: CmioRequest, script: seq<CmioRequest>, payload: seq<byte>, hs: Handlers,
                     f: Event -> Option<T>)
    requires IsU256(|payload|) && AcceptsFirst(first) && HasTerminal(script)
    ensures Pick(Drive(first, script, payload, hs).events, f)
         == Opt(f(Received(first))) + Opt(f(Sent(Response(Advance, EncodeEvmAdvance(payload)))))
            + Opt(f(FlagCleared)) + Pick(Loop(script, hs).events, f)
  {
    DriveAccepted(first, script, payload, hs);
    var sent, e := Sent(Response(Advance, EncodeEvmAdvance(payload))), Loop(script, hs).events;
    assert [Received(first), sent, FlagCleared] + e == [Received(first)] + ([sent] + ([FlagCleared] + e));
    PickCons(Received(first), [sent] + ([FlagCleared] + e), f);
    PickCons(sent, [FlagCleared] + e, f);
    PickCons(FlagCleared, e, f);
  }

  /**
   * The driver receives the first request and then the scripted yields in
   * order, and runs the machine once per scripted yield it handles
   * (src/lib.rs:88, 108-111).
   */
  lemma DriveReceivesInOrder(first: CmioRequest, script: seq<CmioRequest>, payload: seq<byte>, hs: Handlers)
    requires IsU256(|payload|) && AcceptsFirst(first) && HasTerminal(script)
    ensures var d := Drive(first, script, payload, hs);
      && Pick(d.events, ReceivedOf) == [first] + script[..d.consumed]
      && |Pick(d.events, RanOf)| == d.consumed
  {
    DriveAccepted(first, script, payload, hs);
    PickDrive(first, script, payload, hs, ReceivedOf);
    PickDrive(first, script, payload, hs, RanOf);
    LoopReceivesInOrder(script, hs);
    LoopRunsOncePerYield(script, hs);
    var received := Pick(Loop(script, hs).events, ReceivedOf);
    assert [first] + [] + [] + received == [first] + received;
    var ran := Pick(Loop(script, hs).events, RanOf);
    assert [] + [] + [] + ran == ran;
  }

  /** The machine never runs unless the flag was cleared just before (src/lib.rs:98, 108-110, 178). */
  lemma DriveClearsBeforeRun(first: CmioRequest, script: seq<CmioRequest>, payload: seq<byte>, hs: Handlers)
    requires IsU256(|payload|) && AcceptsFirst(first) && HasTerminal(script)
    ensures var e := Drive(first, script, payload, hs).events;
      forall i | 0 <= i < |e| && e[i].Ran? :: i > 0 && e[i - 1] == FlagCleared
  {
    DriveAccepted(first, script, payload, hs);
    var e := Loop(script, hs).events;
    var d := Drive(first, script, payload, hs).events;
    LoopClearsBeforeRun(script, hs);
    assert !d[0].Ran? && !d[1].Ran? && !d[2].Ran?;
    forall i | 3 <= i < |d| && d[i].Ran?
      ensures d[i - 1] == FlagCleared
    {
      assert d[i] == e[i - 3];
      if i > 3 {
        assert d[i - 1] == e[i - 4];
      }
    }
  }

  /**
   * Handlers are invoked in yield order, once per handled yield; the
   * handshake calls none (src/lib.rs:111-177).
   */
  lemma DriveCallsInOrder(first: CmioRequest, script: seq<CmioRequest>, payload: seq<byte>, hs: Handlers)
    requires IsU256(|payload|) && AcceptsFirst(first) && HasTerminal(script)
    ensures var d := Drive(first, script, payload, hs);
      Pick(d.events, CallOf) == CallsFor(script[..d.consumed], hs)
  {
    DriveAccepted(first, script, payload, hs);
    PickDrive(first, script, payload, hs, CallOf);
    LoopCallsInOrder(script, hs);
  }

  /**
   * The finish handler runs at most once, and exactly once, as the last step,
   * when the advance ends with an outcome (src/lib.rs:128-142).
   */
  lemma DriveFinishesOnce(first: CmioRequest, script: seq<CmioRequest>, payload: seq<byte>, hs: Handlers)
    requires IsU256(|payload|) && AcceptsFirst(first) && HasTerminal(script)
    ensures var d := Drive(first, script, payload, hs);
      && |Pick(d.events, FinishOf)| <= 1
      && (d.result.Ok? ==> |Pick(d.events, FinishOf)| == 1 && d.events[|d.events| - 1].Called?
                           && d.events[|d.events| - 1].call.handler == FinishHandler)
  {
    DriveAccepted(first, script, payload, hs);
    PickDrive(first, script, payload, hs, FinishOf);
    LoopFinishesOnce(script, hs);
  }

  /** One response for the handshake, then at most one per handled yield (src/lib.rs:94-97, 162-164). */
  lemma DriveSendsAtMostOncePerYield(first: CmioRequest, script: seq<CmioRequest>, payload: seq<byte>, hs: Handlers)
    requires IsU256(|payload|) && AcceptsFirst(first) && HasTerminal(script)
    ensures var d := Drive(first, script, payload, hs);
      |Pick(d.events, SentOf)| <= 1 + d.consumed
  {
    DriveAccepted(first, script, payload, hs);
    PickDrive(first, script, payload, hs, SentOf);
    LoopSendsAtMostOncePerYield(script, hs);
  }

  /**
   * The advance ends with an outcome exactly when the last handled yield is
   * terminal and its finish handler succeeded; every earlier handled yield
   * continued the loop (src/lib.rs:128-142).
   */
  lemma DriveOutcome(first: CmioRequest, script: seq<CmioRequest>, payload: seq<byte>, hs: Handlers)
    requires IsU256(|payload|) && AcceptsFirst(first) && HasTerminal(script)
    ensures var d := Drive(first, script, payload, hs);
      && 1 <= d.consumed
      && (forall j | 0 <= j < d.consumed - 1 :: Continues(script[j], hs))
      && (d.result.Ok? <==> script[d.consumed - 1].IsTerminal() && FinishSucceeds(script[d.consumed - 1], hs))
      && (d.result.Ok? ==> d.result.value == OutcomeOf(script[d.consumed - 1]))
  {
    DriveAccepted(first, script, payload, hs);
    LoopStopsAtFirstStop(script, hs);
    var last := script[Loop(script, hs).consumed - 1];
    var r := Loop(script, hs).result;
    if r.Ok? {
      HandleSucceeds(last, hs, r.value);
    } else if last.IsTerminal() && FinishSucceeds(last, hs) {
      HandleSucceeds(last, hs, OutcomeOf(last));
    }
  }

  /**
   * The lambda state: a failed copy ends the advance before the machine is
   * touched; a prepared copy binds its memory range before the first request
   * is read (src/lib.rs:44-55, 73-86).
   */
  lemma LambdaStateFirst(lambdaState: Option<LambdaStateFiles>, first: CmioRequest,
                         script: seq<CmioRequest>, payload: seq<byte>, hs: Handlers)
    requires IsU256(|payload|) && (AcceptsFirst(first) ==> HasTerminal(script))
    ensures var t := AdvanceTranscript(lambdaState, first, script, payload, hs);
      && (lambdaState.Some? && lambdaState.value.CopyFailed? ==>
            t.events == [] && t.result == Err(LambdaStateIo(lambdaState.value.message)))
      && (lambdaState.Some? && lambdaState.value.Prepared? ==>
            t.events[0] == MemoryRangeBound(MEMORY_RANGE_CONFIG_START, lambdaState.value.previousSize)
            && t.events[1..] == Drive(first, script, payload, hs).events
            && t.result == Drive(first, script, payload, hs).result)
      && (lambdaState.None? ==> t == Drive(first, script, payload, hs))
  {
  }

  // ---------------------------------------------------------------------------
  // Two advances written out
  // ---------------------------------------------------------------------------

  /** The machine accepts at once: finish gets the root hash and the advance is accepted. */
  lemma AcceptedAtOnce(first: CmioRequest, hash: seq<byte>, payload: seq<byte>, hs: Handlers)
    requires IsU256(|payload|) && AcceptsFirst(first) && |hash| == 32
    requires hs.finish(MANUAL_REASON_RX_ACCEPTED, hash).Ok?
    ensures var d := Drive(first, [Manual(RxAccepted(hash))], payload, hs);
      && d.result == Ok(Accepted) && d.consumed == 1
      && Pick(d.events, CallOf) == [Call(FinishHandler, MANUAL_REASON_RX_ACCEPTED, hash)]
  {
    var script := [Manual(RxAccepted(hash))];
    DriveCallsInOrder(first, script, payload, hs);
    DriveOutcome(first, script, payload, hs);
    assert script[..1] == script;
  }

  /** A report "log", then a rejection: report, then finish with no data, and Rejected. */
  lemma ReportThenRejected(first: CmioRequest, payload: seq<byte>, hs: Handlers)
    requires IsU256(|payload|) && AcceptsFirst(first)
    requires hs.report(AUTOMATIC_REASON_TX_REPORT, [0x6c, 0x6f, 0x67]).Ok?
    requires hs.finish(MANUAL_REASON_RX_REJECTED, []).Ok?
    ensures var d := Drive(first, [Automatic(TxReport([0x6c, 0x6f, 0x67])), Manual(RxRejected)], payload, hs);
      && d.result == Ok(Rejected) && d.consumed == 2
      && Pick(d.events, CallOf)
         == [Call(ReportHandler, AUTOMATIC_REASON_TX_REPORT, [0x6c, 0x6f, 0x67]),
             Call(FinishHandler, MANUAL_REASON_RX_REJECTED, [])]
  {
    var script := [Automatic(TxReport([0x6c, 0x6f, 0x67])), Manual(RxRejected)];
    assert HasTerminal(script[1..]);
    DriveCallsInOrder(first, script, payload, hs);
    DriveOutcome(first, script, payload, hs);
    assert Continues(script[0], hs);
    assert script[..2] == script;
    assert CallsFor(script[1..][1..], hs) == [];
  }
}
