/**
 * The machine as the advance driver sees it (src/lib.rs:88-178): a queue of
 * CMIO requests that successive runs raise, the yield flag `iflags.Y`, the
 * responses sent to it, and a ghost history of everything that happened to it.
 *
 * The machine's own execution is not modelled: `run` takes the next request of
 * a finite script, which stands for "run until the next yield".
 */
module Cmio {
  import opened Wrappers
  import opened Abi

  newtype u16 = x: int | 0 <= x < 0x1_0000
  newtype u32 = x: int | 0 <= x < 0x1_0000_0000

  /** Reason codes of automatic yields; any other code, progress (1) among them, is an OtherAutomatic. */
  const AUTOMATIC_REASON_TX_OUTPUT: u16 := 2
  const AUTOMATIC_REASON_TX_REPORT: u16 := 4

  /** Reason codes of manual yields; any other manual reason is a generic I/O domain. */
  const MANUAL_REASON_RX_ACCEPTED: u16 := 1
  const MANUAL_REASON_RX_REJECTED: u16 := 2
  const MANUAL_REASON_TX_EXCEPTION: u16 := 4

  /** `CM_CMIO_YIELD_REASON_ADVANCE_STATE` and `CM_CMIO_YIELD_REASON_INSPECT_STATE`. */
  const YIELD_REASON_ADVANCE_STATE: u32 := 0
  const YIELD_REASON_INSPECT_STATE: u32 := 1

  /** `RX_ACCEPTED` as the driver names it when it checks the first request. */
  const RX_ACCEPTED: u16 := MANUAL_REASON_RX_ACCEPTED

  datatype AutomaticReason =
    | TxOutput(data: seq<byte>)
    | TxReport(data: seq<byte>)
    | OtherAutomatic(code: u16, data: seq<byte>)

  datatype ManualReason =
    | RxAccepted(outputHashesRootHash: seq<byte>)
    | RxRejected
    | TxException(message: seq<byte>)
    | Gio(domain: u16, data: seq<byte>)

  /** A pending CMIO request: the class and reason of the yield the machine stopped at. */
  datatype CmioRequest = Automatic(automatic: AutomaticReason) | Manual(manual: ManualReason)
  {
    /** The raw reason code of the yield. */
    function Reason(): u16 {
      match this
      case Automatic(TxOutput(_)) => AUTOMATIC_REASON_TX_OUTPUT
      case Automatic(TxReport(_)) => AUTOMATIC_REASON_TX_REPORT
      case Automatic(OtherAutomatic(code, _)) => code
      case Manual(RxAccepted(_)) => MANUAL_REASON_RX_ACCEPTED
      case Manual(RxRejected) => MANUAL_REASON_RX_REJECTED
      case Manual(TxException(_)) => MANUAL_REASON_TX_EXCEPTION
      case Manual(Gio(domain, _)) => domain
    }

    /**
     * The variant agrees with the reason code, as it does for every request
     * the machine library decodes: an `OtherAutomatic` or `Gio` never carries
     * a code that names one of the specific variants.
     */
    predicate WellFormed() {
      match this
      case Automatic(OtherAutomatic(code, _)) =>
        code != AUTOMATIC_REASON_TX_OUTPUT && code != AUTOMATIC_REASON_TX_REPORT
      case Manual(Gio(domain, _)) =>
        domain != MANUAL_REASON_RX_ACCEPTED && domain != MANUAL_REASON_RX_REJECTED
        && domain != MANUAL_REASON_TX_EXCEPTION
      case _ => true
    }

    /** A manual yield that ends the advance. */
    predicate IsTerminal() {
      Manual? && (manual.RxAccepted? || manual.RxRejected? || manual.TxException?)
    }
  }

  /** `CmioResponseReason`: the category a response is sent under. */
  datatype ResponseReason = Advance | Inspect

  datatype Response = Response(reason: ResponseReason, data: seq<byte>)

  /** The caller-supplied handler a driver call went to. */
  datatype HandlerKind = ReportHandler | OutputHandler | FinishHandler | GioCallback

  /** One handler invocation and the arguments it received. */
  datatype Call = Call(handler: HandlerKind, reason: u16, data: seq<byte>)

  /** What happened to the machine, in order, during an advance. */
  datatype Event =
    | MemoryRangeBound(start: nat, length: nat)
    | Received(request: CmioRequest)
    | Sent(response: Response)
    | FlagCleared
    | Ran
    | Called(call: Call)

  /** The subsequence of the values f selects from t. */
  function Pick<T>(t: seq<Event>, f: Event -> Option<T>): (r: seq<T>)
    ensures |r| <= |t|
  {
    if t == [] then []
    else (match f(t[0]) case Some(x) => [x] case None => []) + Pick(t[1..], f)
  }

  lemma {:induction false} PickAppend<T>(a: seq<Event>, b: seq<Event>, f: Event -> Option<T>)
    ensures Pick(a + b, f) == Pick(a, f) + Pick(b, f)
  {
    if a == [] {
      assert a + b == b;
    } else {
      assert (a + b)[1..] == a[1..] + b;
      PickAppend(a[1..], b, f);
    }
  }

  function SentOf(e: Event): Option<Response> {
    if e.Sent? then Some(e.response) else None
  }

  function ReceivedOf(e: Event): Option<CmioRequest> {
    if e.Received? then Some(e.request) else None
  }

  function CallOf(e: Event): Option<Call> {
    if e.Called? then Some(e.call) else None
  }

  function FinishOf(e: Event): Option<Call> {
    if e.Called? && e.call.handler == FinishHandler then Some(e.call) else None
  }

  function RanOf(e: Event): Option<()> {
    if e.Ran? then Some(()) else None
  }

  /** True when the script ends at (or passes through) a yield that ends the advance. */
  predicate HasTerminal(script: seq<CmioRequest>) {
    |script| > 0 && (script[0].IsTerminal() || HasTerminal(script[1..]))
  }

  class Machine {
    /** The request of the yield the machine is stopped at. */
    var current: CmioRequest
    /** The requests the machine raises on its next runs, in order. */
    var script: seq<CmioRequest>
    /** `iflags.Y`: set while the machine is held at a manual yield. */
    var iflagsY: bool
    /** Every response sent so far. */
    var responses: seq<Response>
    /** Machine operations and the driver's handler calls, interleaved in order. */
    ghost var history: seq<Event>

    ghost predicate Valid()
      reads this
    {
      responses == Pick(history, SentOf)
    }

    /** A machine stopped at `first`, whose later yields are `script`. */
    constructor (first: CmioRequest, script: seq<CmioRequest>)
      ensures Valid()
      ensures current == first && this.script == script && iflagsY == first.Manual?
      ensures responses == [] && history == []
    {
      current := first;
      this.script := script;
      iflagsY := first.Manual?;
      responses := [];
      history := [];
    }

    /** `receive_cmio_request`: the pending request, without resuming the machine. */
    method ReceiveCmioRequest() returns (req: CmioRequest)
      requires Valid()
      modifies this`history
      ensures Valid()
      ensures req == current && history == old(history) + [Received(req)]
    {
      req := current;
      PickAppend(history, [Received(req)], SentOf);
      history := history + [Received(req)];
    }

    /** `send_cmio_response`. */
    method SendCmioResponse(resp: Response)
      requires Valid()
      modifies this`responses, this`history
      ensures Valid()
      ensures responses == old(responses) + [resp] && history == old(history) + [Sent(resp)]
    {
      PickAppend(history, [Sent(resp)], SentOf);
      responses := responses + [resp];
      history := history + [Sent(resp)];
    }

    /** `write_reg(CM_REG_IFLAGS_Y, 0)`. */
    method ClearYieldFlag()
      requires Valid()
      modifies this`iflagsY, this`history
      ensures Valid()
      ensures !iflagsY && history == old(history) + [FlagCleared]
    {
      PickAppend(history, [FlagCleared], SentOf);
      iflagsY := false;
      history := history + [FlagCleared];
    }

    /**
     * `run(u64::MAX)`: execute until the next yield. The machine then stands at
     * the next scripted request; a manual yield sets the flag again.
     */
    method Run()
      requires Valid() && !iflagsY && script != []
      modifies this`current, this`script, this`iflagsY, this`history
      ensures Valid()
      ensures current == old(script)[0] && script == old(script)[1..]
      ensures iflagsY == current.Manual? && history == old(history) + [Ran]
    {
      PickAppend(history, [Ran], SentOf);
      current := script[0];
      script := script[1..];
      iflagsY := current.Manual?;
      history := history + [Ran];
    }

    /** `replace_memory_range`: bind a backing file at [start, start + length). */
    method ReplaceMemoryRange(start: nat, length: nat)
      requires Valid()
      modifies this`history
      ensures Valid()
      ensures history == old(history) + [MemoryRangeBound(start, length)]
    {
      PickAppend(history, [MemoryRangeBound(start, length)], SentOf);
      history := history + [MemoryRangeBound(start, length)];
    }

    /** Records that the driver invoked a handler (the history is the driver's log too). */
    ghost method NoteCall(call: Call)
      requires Valid()
      modifies this`history
      ensures Valid()
      ensures history == old(history) + [Called(call)]
    {
      PickAppend(history, [Called(call)], SentOf);
      history := history + [Called(call)];
    }
  }
}
