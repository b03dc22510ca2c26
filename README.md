# cartesi-advance-runner: the advance driver, modelled in Dafny

This project models `run_advance` from `src/lib.rs`. `run_advance` drives one
*advance* of a Cartesi machine:

- It binds the lambda state's working copy into the machine's memory.
- It checks that the machine stands at a manual `RX_ACCEPTED` yield.
- It answers that yield with the input, encoded as an `EvmAdvance` contract call.
- It then resumes the machine yield after yield. Each CMIO request is routed to
  the report, output or finish handler, or to a registered GIO callback.
- The loop ends with an outcome (`Accepted`, `Rejected`, `Exception`) or an error.

The project has five modules:

- `Wrappers` (`wrappers.dfy`): `Option` and `Result`.
- `Abi` (`abi.dfy`): `encode_evm_advance`. It is written as functions on bytes,
  following the Solidity Contract ABI Specification: the 4-byte function
  selector, 32-byte big-endian head words, then the dynamic `bytes` tail.
  There is also a strict decoder. Lemmas give the layout, the length and the
  round trips in both directions.
- `Cmio` (`cmio.dfy`): CMIO requests, responses and their reason codes, and a
  `Machine` class. The class keeps:
  - the request the machine stands at;
  - a finite script of the requests its next runs raise;
  - the yield flag `iflags.Y`;
  - the responses sent to it;
  - a ghost history of every event: memory range bound, request received,
    response sent, flag cleared, run, handler called.
- `Driver` (`driver.dfy`): the specification functions `Handle` (one yield),
  `Loop`, `Drive` and `AdvanceTranscript`, which give the events and result of
  an advance. It also holds the imperative `RunAdvance` / `DriveAdvance` /
  `HandleYield` methods on a `Machine`. These are proved to produce exactly that
  transcript, step by step, with a loop invariant.
- `AdvanceProperties` (`properties.dfy`): what the transcript promises. This
  covers:
  - the first-request gate and the handshake;
  - the flag is cleared before every run;
  - the classification of each yield against an independent routing table;
  - the order of handler calls;
  - the finish handler runs once;
  - at most one response per yield;
  - two advances written out.

An automatic yield other than a report or an output ends the advance with an
error, as `src/lib.rs:121-126` does. It is not dispatched to the GIO callback
registry.

## Model

| member | source | states |
|---|---|---|
| Abi.PadLenRoundsUp | src/lib.rs:211 | the zero padding after the payload brings the tail to a whole number of 32-byte words, that is the length rounded up to a multiple of 32 |
| Abi.FromToBigEndian | src/lib.rs:202-208 | a value written as `len` big-endian bytes reads back as itself |
| Abi.ToFromBigEndian | src/lib.rs:202-208 | every byte string is the big-endian encoding of the value it denotes |
| Abi.ChunksOfFlatten | src/lib.rs:211 | cutting a run of concatenated 32-byte words into words gives back those words |
| Abi.FlattenOfChunks | src/lib.rs:211 | concatenating the words of a word-aligned string gives back the string |
| Abi.AbiEncode | src/lib.rs:189-200 | an `EvmAdvance` call encodes to 292 bytes (the selector, eight head words and the length word), then the payload and fewer than 32 bytes of zero padding |
| Abi.AbiDecode | src/lib.rs:189-200 | anything the decoder accepts is a well-typed `EvmAdvance` call |
| Abi.DecodeEncode | src/lib.rs:189-211 | decoding an encoded well-typed call gives the call back |
| Abi.EncodeDecode | src/lib.rs:189-211 | the decoder accepts only canonical encodings: re-encoding what it returns gives the same bytes |
| Abi.EncodeInjective | src/lib.rs:189-211 | two different calls never encode to the same bytes |
| Abi.EncodeEvmAdvance | src/lib.rs:188-212 | the call data is 292 bytes of prefix plus the payload and its padding |
| Abi.EvmAdvanceLength | src/lib.rs:188-212 | the call data length is 292 plus the payload length rounded up to whole 32-byte words |
| Abi.DecodeEvmAdvance | src/lib.rs:201-210 | a recovered payload always fits its uint256 length word |
| Abi.EvmAdvanceLayout | src/lib.rs:201-211 | the call data is the selector 0x415bf363, seven zero words for the chain id, both addresses, the block number, the timestamp, prevRandao and the index, the offset word 0x100, the length word, the payload, then zero padding |
| Abi.EvmAdvanceHeadIndependent | src/lib.rs:201-210 | the first 260 bytes are the same for every payload |
| Abi.EvmAdvanceTail | src/lib.rs:209-211 | bytes 260-292 read back as the payload length, the payload follows, and only zeros follow the payload |
| Abi.EvmAdvanceRoundTrip | src/lib.rs:188-212 | decoding the output of encode_evm_advance gives the payload back |
| Abi.EvmAdvanceCanonical | src/lib.rs:188-212 | any call data the decoder accepts is exactly encode_evm_advance of the payload it recovers |
| Abi.EvmAdvanceInjective | src/lib.rs:188-212 | different payloads give different call data |
| Cmio.Machine.constructor | src/lib.rs:57-72 | a loaded machine stands at its first request, has sent nothing and has the flag set exactly when that request is a manual yield |
| Cmio.Machine.ReceiveCmioRequest | src/lib.rs:88 | returns the request the machine stands at, without changing it, and logs the receipt |
| Cmio.Machine.SendCmioResponse | src/lib.rs:93-95 | appends the response to those sent and to the history |
| Cmio.Machine.ClearYieldFlag | src/lib.rs:98 | the flag is clear afterwards; only the flag and the history change |
| Cmio.Machine.Run | src/lib.rs:109 | needs the flag clear; the machine moves to the next request of its script, and a manual yield sets the flag again |
| Cmio.Machine.ReplaceMemoryRange | src/lib.rs:78-85 | logs the binding of [start, start + length) |
| Driver.Handle | src/lib.rs:111-177 | a terminal yield always ends the advance |
| Driver.Loop | src/lib.rs:107-179 | the loop handles at least one yield, and no more than the script holds |
| Driver.Drive | src/lib.rs:88-179 | never consumes more yields than the script holds |
| Driver.AdvanceTranscript | src/lib.rs:33-180 | never consumes more yields than the script holds |
| Driver.RunAdvance | src/lib.rs:33-180 | returns exactly the result of AdvanceTranscript; the machine's history grows by exactly its events; exactly the yields it consumes are gone from the script; sent responses match the history |
| Driver.DriveAdvance | src/lib.rs:88-179 | the handshake and loop on the machine produce exactly Drive's result, events and consumption |
| Driver.HandleYield | src/lib.rs:111-177 | handling a yield on the machine logs exactly Handle's events and returns Handle's decision |
| AdvanceProperties.HandleOnlyCallsAndSends | src/lib.rs:111-177 | classifying a yield only calls handlers and sends responses |
| AdvanceProperties.HandleCalls | src/lib.rs:113-177 | each yield goes to the handler the routing table names, once, or to none: report to the report handler, output to the output handler, the three terminal yields to the finish handler, GIO to its registered callback |
| AdvanceProperties.HandleContinues | src/lib.rs:114-177 | the loop goes on after a yield exactly when a report or output handler succeeded, or a registered callback succeeded for reason 0 or 1 |
| AdvanceProperties.HandleErrors | src/lib.rs:116-173 | every other non-terminal yield ends the advance with an error: an unknown automatic reason with its code; a GIO reason with no callback before anything is called; a failed report, output or callback with that failure; a callback that ran for a reason with no response category with UnknownCmioReason |
| AdvanceProperties.HandleSucceeds | src/lib.rs:128-142 | a yield ends the advance successfully exactly when it is terminal and the finish handler succeeded, with the outcome the yield names |
| AdvanceProperties.HandleTerminal | src/lib.rs:129-141 | the terminal yields call the finish handler once, with the root hash, empty data or the exception message, and send nothing; the advance ends with the outcome the yield names, or with the finish handler's failure |
| AdvanceProperties.HandleGioResponse | src/lib.rs:143-165 | a GIO yield sends exactly one response, the callback's output under the category its reason names, when it continues the loop; otherwise it sends none |
| AdvanceProperties.HandleSendsAtMostOnce | src/lib.rs:111-177 | a yield sends at most one response, and only a GIO yield sends one |
| AdvanceProperties.HandleFinishes | src/lib.rs:128-142 | the finish handler runs for terminal yields only |
| AdvanceProperties.LoopReceivesInOrder | src/lib.rs:108-111 | the loop receives the scripted requests in order, one per iteration, and no others |
| AdvanceProperties.LoopRunsOncePerYield | src/lib.rs:108-110 | the machine runs once per handled yield |
| AdvanceProperties.LoopCallsInOrder | src/lib.rs:111-177 | the handler calls of the loop are the routing table applied to the handled yields, in order |
| AdvanceProperties.LoopCallsGoOn | src/lib.rs:111-178 | an iteration that goes on contributes its yield's routed call, then the rest of the loop's calls |
| AdvanceProperties.LoopCallsEnd | src/lib.rs:111-177 | an iteration that stops contributes its yield's routed call only |
| AdvanceProperties.LoopStopsAtFirstStop | src/lib.rs:111-177 | every yield before the last one continued, the last one did not, and its result is the loop's result |
| AdvanceProperties.LoopClearsBeforeRun | src/lib.rs:108-178 | the loop starts with a run, and every later run comes right after the flag was cleared |
| AdvanceProperties.LoopFinishesOnce | src/lib.rs:128-142 | the finish handler runs at most once; on an outcome it runs exactly once, as the last step |
| AdvanceProperties.LoopSendsAtMostOncePerYield | src/lib.rs:143-165 | the loop sends no more responses than the yields it handles |
| AdvanceProperties.AcceptsFirstIsRxAccepted | src/lib.rs:90 | the first request is accepted exactly when it is a manual RX_ACCEPTED yield |
| AdvanceProperties.FirstRequestGate | src/lib.rs:88-104 | any other first request ends the advance with an error naming its reason; nothing is sent, the machine never runs, no handler is called |
| AdvanceProperties.Handshake | src/lib.rs:88-109 | an advance begins by receiving the first request, sending the encoded payload under Advance, clearing the flag and running; the response decodes to the payload |
| AdvanceProperties.DriveReceivesInOrder | src/lib.rs:88-111 | the driver receives the first request and then the scripted requests, in order; it runs the machine once per scripted yield it handles |
| AdvanceProperties.DriveClearsBeforeRun | src/lib.rs:98-178 | the machine never runs unless the flag was cleared just before |
| AdvanceProperties.DriveCallsInOrder | src/lib.rs:111-177 | handlers are called in yield order, as the routing table says; the handshake calls none |
| AdvanceProperties.DriveFinishesOnce | src/lib.rs:128-142 | the finish handler runs at most once, and exactly once, as the last step, when the advance ends with an outcome |
| AdvanceProperties.DriveSendsAtMostOncePerYield | src/lib.rs:93-164 | one response for the handshake, then at most one per handled yield |
| AdvanceProperties.DriveOutcome | src/lib.rs:128-142 | an advance ends with an outcome exactly when its last handled yield is terminal and the finish handler succeeded; the outcome is the one that yield names; every earlier yield continued |
| AdvanceProperties.LambdaStateFirst | src/lib.rs:44-86 | a failed copy ends the advance before the machine is touched; a prepared copy binds the memory range at 0x90000000000000 before anything else |
| AdvanceProperties.AcceptedAtOnce | src/lib.rs:129-134 | a machine that accepts at once calls finish with the root hash and the advance is Accepted |
| AdvanceProperties.ReportThenRejected | src/lib.rs:115-138 | a report and then a rejection call the report handler, then finish with empty data; the advance is Rejected |

## Left out

- Loading the machine snapshot and its runtime configuration (src/lib.rs:57-72)
  are not modelled. `RunAdvance` takes a `Machine` that is already loaded.
  `no_console_putchar` only configures the console, so it is not a parameter.
- The file-system work on the lambda state is a parameter, `LambdaStateFiles`:
  `reflink_or_copy` and its warning, opening the previous file and reading its
  size. The model sees only the outcome: the copy failed with a message, or the
  previous file has `previousSize` bytes.
- The `unwrap()` panics are not modelled: loading, opening and sizing the
  previous file, `replace_memory_range`, `receive_cmio_request`,
  `send_cmio_response`, `iflags_y` and `run`. The machine operations always
  succeed in the model.
- The `?` failure of `write_reg` (src/lib.rs:98, 178) is not modelled.
  Clearing the flag always succeeds.
- `run(u64::MAX)` is modelled as taking the next request of a finite script.
  The machine's own execution is not modelled. `RunAdvance` therefore
  requires that the script reaches a terminal yield when the first request is
  accepted. The Rust loop has no such bound; it relies on the machine
  eventually yielding.
- Handlers and callbacks are pure functions of their arguments. The state a
  Rust `FnMut` closure keeps between calls, and the `(u16, Vec<u8>)` a handler
  returns on success, are left out; the driver ignores the latter.
- An asynchronous callback is awaited at once (src/lib.rs:148-150), so both
  kinds of `Callback` are one call. The async runtime is not modelled.
- Logging is not modelled: the reflink warning, `println!("No callback
  found")` and `drop(machine)`. Neither are the texts of the error messages.
  Errors are the constructors of `AdvanceError`.
- `metadata` is accepted and not used, as in the source.
- The function selector 0x415bf363 is a constant. The Keccak-256 hash of the
  signature is not computed.
- `EncodeEvmAdvance` requires the payload length to fit a uint256 length word.
  Every real payload does.
- `CmioRequest.WellFormed` states the agreement between a request's variant
  and its reason code. The machine library guarantees this for every request
  it decodes. Only `AcceptsFirstIsRxAccepted` relies on it.
- The modules `hash`, `merkle_tree` and `proofs` (src/lib.rs:18-20) are not
  part of this model.
