# libbladeRF libusb backend: streaming bookkeeping in Dafny

This project models the asynchronous streaming core of libbladeRF's libusb backend, as patched for Android (`android/libbladerf/src/libusb.c`). It also models the pure helpers that sit next to that core.

A bladeRF stream moves sample buffers through a fixed pool of libusb transfers:

- **The transfer-slot pool** (`struct lusb_stream_data`) is the class `Pool.StreamData`. It holds:
  - an array of transfers;
  - an array of slot statuses (UNINITIALIZED, AVAIL, IN_FLIGHT, CANCEL_PENDING);
  - the count of available slots;
  - the round-robin cursor;
  - the one-shot out-of-order flag.
- **The stream** (`struct bladerf_stream`, as far as the backend touches it) is the class `Streaming.Stream`. It holds the state (RUNNING, SHUTTING_DOWN, DONE), the error code and the pointer to the pool.
- **Operations that change state in place** are methods, with loops and loop invariants where the source has them:
  - `lusb_init_stream`;
  - `get_next_available_transfer`;
  - `submit_transfer`;
  - `cancel_all_transfers`;
  - the completion callback `lusb_stream_cb`;
  - the priming loop of `lusb_stream`;
  - `lusb_submit_stream_buffer`;
  - `lusb_deinit_stream`.
- **`transfer_idx`** is a read-only lookup: a method whose loop changes nothing.
- **These methods are proved against a pure step function** over a snapshot value (`PoolView`, `StreamView`):
  - `SubmitStep` for `submit_transfer`;
  - `CallbackStep` for the callback;
  - `PrimeFrom` for the priming loop;
  - `NextAvail` for the scan;
  - `CancelSweep` for the cancel sweep;
  - `SlotOf` for `transfer_idx`.

  What the source promises is then proved about those functions as lemmas. `InitStream`, `SubmitStreamBuffer` and `DeinitStream` instead state their outcomes directly in their contracts. The pool invariant is kept by every operation:
  - the count equals the number of AVAIL slots;
  - the cursor is a slot index;
  - every slot holds an allocated transfer;
  - no two slots hold the same transfer, so a submission and the completion of the transfer it submitted meet in the same slot (`Streaming.SubmitThenComplete`).
- **Pure code mappings** are functions with their properties in their contracts:
  - `error_conv`;
  - `bm_request_type`, checked against an independent decoder of the bmRequestType byte of section 9.3.1 (Table 9-2) of the USB 2.0 specification;
  - `lusb_get_speed`;
  - the result normalisation of the control, bulk and string-descriptor wrappers.

Everything libusb, the user callback, the clock or the condition variable would decide is a parameter. This covers:

- the submit result;
- the cancel results per slot;
- the completion status;
- the returned buffer and metadata count;
- the allocation outcomes;
- the wait results.

libusb's transfer allocator is modelled by the class `Pool.TransferAllocator`. It holds a set of live transfer identities, so that leaks and frees can be stated.

Behaviour of the code worth knowing, which the model follows:

- **Rollback in `lusb_init_stream`** (lines 877-884). It never frees the transfer of slot 0, because of the `if (--i)` test. A failed allocation for slot k > 0 leaks one transfer. `Streaming.Stream.InitStream` states this leak.
- **The first `malloc` failing** (line 835) returns BLADERF_ERR_MEM without setting `backend_data` to NULL.
- **`error_code` is not sticky.** Every faulted completion overwrites it (`Streaming.CallbackErrorCode`).
- **NO_DATA during priming** skips that buffer and priming goes on (lines 951-966). A failed priming submission records the error and cancels, but leaves the stream RUNNING.
- **DONE can be left.** A faulted completion, or a completion for a transfer the pool does not hold (lines 630-632), that arrives while slots are still out moves DONE back to SHUTTING_DOWN (`Streaming.CallbackLeavesDone`). That situation is reachable after `lusb_submit_stream_buffer` pushes a buffer once DONE was reached.
- **The priming loop's status.** The model returns the status of the last priming submission. The event loop and its return value are not modelled.

## Model

| member | source | states |
|---|---|---|
| Errors.ErrorConv | android/libbladerf/src/libusb.c:87-134 | error_conv is total and maps each libusb code to its libbladeRF code in both directions (0 iff 0, IO iff IO, INVAL iff INVALID_PARAM, NODEV iff BUSY or NO_DEVICE, TIMEOUT, MEM, UNSUPPORTED, PERMISSION); every positive value is UNEXPECTED; the result is never positive |
| Requests.BmRequestType | android/libbladerf/src/libusb.c:457-506 | the byte decodes, by Table 9-2 of USB 2.0, back to exactly the recipient, type and direction it was built from; the reserved recipient bits are clear |
| Requests.BmRequestTypeInjective | android/libbladerf/src/libusb.c:457-506 | two different requests never get the same bmRequestType byte |
| Requests.GetSpeed | android/libbladerf/src/libusb.c:427-455 | success iff high or super speed, with that speed reported; full and low speed are UNSUPPORTED; anything else is UNEXPECTED with the speed unknown |
| Requests.ControlTransferResult | android/libbladerf/src/libusb.c:526-532 | as written: the result is 0 iff libusb returned buffer_len or 0 bytes; a libusb error is translated; another positive count is UNEXPECTED |
| Requests.ZeroByteControlReplyAccepted | android/libbladerf/src/libusb.c:526-532 | a zero-byte reply to a four-byte control request is reported as success |
| Requests.ControlTransferResultStrict | android/libbladerf/src/libusb.c:526-532 | corrected: 0 iff exactly buffer_len bytes moved; any other count is UNEXPECTED; a libusb error is translated |
| Requests.ControlResultsAgree | android/libbladerf/src/libusb.c:526-532 | the code as written and the corrected version agree on every input except a zero-byte reply to a non-empty request |
| Requests.BulkTransferResult | android/libbladerf/src/libusb.c:545-550 | 0 iff libusb succeeded and the whole buffer moved; a libusb error is translated; a short successful transfer is an I/O error |
| Requests.StringDescriptorResult | android/libbladerf/src/libusb.c:565-569 | 0 iff a non-empty string shorter than the buffer came back; every failure, libusb errors included, is UNEXPECTED |
| Pool.NextAvail | android/libbladerf/src/libusb.c:735-760 | the slot the round-robin scan from the cursor picks: None iff no slot is AVAIL; otherwise an AVAIL slot, and every slot passed over on the way is not AVAIL |
| Pool.NextAvailAtCursor | android/libbladerf/src/libusb.c:739-753 | an AVAIL slot at the cursor is the one picked |
| Pool.NextAvailFound | android/libbladerf/src/libusb.c:762-775 | with at least one slot counted available, the scan always finds one |
| Pool.StreamData.GetNextAvailable | android/libbladerf/src/libusb.c:735-760 | the loop returns NextAvail of the statuses and cursor; it moves the cursor onto the slot found; it sets the out-of-order flag iff that slot is not the cursor (never clearing it); the count is unchanged and the pool invariant holds |
| Pool.CancelSweep | android/libbladerf/src/libusb.c:579-596 | only IN_FLIGHT slots change; each becomes CANCEL_PENDING iff its cancel returned success or NOT_FOUND, and otherwise stays IN_FLIGHT; the available count is unchanged |
| Pool.CancelSweepNothingInFlight | android/libbladerf/src/libusb.c:585-595 | a sweep over a pool with nothing in flight changes nothing |
| Pool.CancelSweepIdempotent | android/libbladerf/src/libusb.c:579-596 | after a sweep whose cancels were all accepted, a second sweep is a no-op whatever its cancels return |
| Pool.StreamData.CancelAll | android/libbladerf/src/libusb.c:579-596 | the loop leaves the statuses equal to CancelSweep of the old statuses; count, cursor and transfers are untouched (only the status array is modified); the pool invariant holds |
| Pool.SlotOf | android/libbladerf/src/libusb.c:598-609 | the first slot holding the transfer, or None iff no slot holds it |
| Pool.StreamData.TransferIdx | android/libbladerf/src/libusb.c:598-609 | the loop returns the SlotOf index, or UINT_MAX when the transfer is not in the pool |
| Pool.FreshPoolOk | android/libbladerf/src/libusb.c:867-891 | a pool with every slot AVAIL, a distinct allocated transfer in each, the count full and the cursor at 0 satisfies the pool invariant |
| Pool.SubmitStep | android/libbladerf/src/libusb.c:763-825 | submit_transfer on the pool keeps the pool invariant; the count drops by one on success and is restored on failure |
| Pool.SubmitStepEffect | android/libbladerf/src/libusb.c:774-824 | the scan finds an AVAIL slot k and k is filled with the buffer and length. On success exactly slot k goes IN_FLIGHT, the count drops by one and the cursor becomes (k+1) mod n. On failure the statuses and count are back as they were and the cursor is on k. The out-of-order flag records whether k was not the cursor |
| Pool.StreamData.constructor | android/libbladerf/src/libusb.c:849-865 | the freshly allocated record: every status UNINITIALIZED (calloc, 858-859) and the counters reset. The transfers array is a plain malloc (849-850); the model fills it with NULL, which cannot be observed because the allocation loop writes every entry before it is read |
| Pool.StreamData.Claim | android/libbladerf/src/libusb.c:778-791 | fills the transfer at the cursor, marks its slot IN_FLIGHT, advances the cursor modulo n, takes one from the count, keeps the pool invariant |
| Pool.StreamData.Unclaim | android/libbladerf/src/libusb.c:808-822 | the slot is AVAIL again, the count is back up by one and the cursor steps back onto the slot (from 0 to n-1 when wrapping); the pool invariant holds |
| Pool.StreamData.Release | android/libbladerf/src/libusb.c:633-636 | the completed slot is AVAIL again and the count goes up by one, nothing else changes |
| Pool.StreamData.Install | android/libbladerf/src/libusb.c:869-891 | one allocation step: the slot gets its transfer and becomes AVAIL, the count goes up by one, no other slot changes |
| Streaming.FaultCode | android/libbladerf/src/libusb.c:639-681 | the error a completion records: IO iff STALL, ERROR or OVERFLOW; TIMEOUT iff TIMED_OUT; NODEV iff NO_DEVICE; none for COMPLETED, CANCELLED and unknown statuses |
| Streaming.CompleteStep | android/libbladerf/src/libusb.c:626-681 | the slot holding the completed transfer, if any, becomes AVAIL and the available count grows by one; nothing else in the pool changes. An unknown transfer or any status but COMPLETED gives SHUTTING_DOWN, otherwise the state is kept; a fault status sets its error code, others keep it. The pool invariant holds afterwards, and a stream still RUNNING has a slot to resubmit into |
| Streaming.SubmitThenComplete | android/libbladerf/src/libusb.c:626-636 | a successful submission followed by the normal completion of the transfer it submitted finds that transfer in the slot it took, and hands back exactly that slot: the statuses and the count are those before the submission, and the state and error code are unchanged |
| Streaming.NextBufferStep | android/libbladerf/src/libusb.c:683-717 | handling the user callback's buffer keeps the pool invariant |
| Streaming.DrainStep | android/libbladerf/src/libusb.c:720-730 | the shutdown check keeps the pool invariant and the count |
| Streaming.CallbackStep | android/libbladerf/src/libusb.c:613-733 | the whole callback keeps the pool invariant |
| Streaming.CallbackErrorCode | android/libbladerf/src/libusb.c:639-681 | after a completion, error_code is FaultCode of its status if it has one, and otherwise unchanged |
| Streaming.CallbackRunning | android/libbladerf/src/libusb.c:630-717 | the stream is still RUNNING after a completion iff four things hold: it was RUNNING; the transfer was found and COMPLETED; the user callback did not return SHUTDOWN; and it returned NO_DATA or a buffer libusb accepted |
| Streaming.CallbackCount | android/libbladerf/src/libusb.c:630-717 | the count goes up by one for a found slot and down by one when a new buffer was resubmitted successfully |
| Streaming.CallbackDone | android/libbladerf/src/libusb.c:720-727 | a completion that moves the stream to DONE leaves every slot AVAIL |
| Streaming.CallbackShuttingDown | android/libbladerf/src/libusb.c:720-730 | a completion that leaves the stream SHUTTING_DOWN leaves a slot outstanding, and any slot still IN_FLIGHT had its cancel refused |
| Streaming.CallbackDoneStaysDone | android/libbladerf/src/libusb.c:683-730 | in DONE a normal completion only hands its slot back: the user callback is not consulted and nothing is submitted |
| Streaming.CallbackLeavesDone | android/libbladerf/src/libusb.c:626-642 | a faulted completion, or one for a transfer the pool does not hold, arriving in DONE with other slots still out moves the stream back to SHUTTING_DOWN |
| Streaming.Stream.StreamCallback | android/libbladerf/src/libusb.c:613-733 | the callback method leaves the stream equal to CallbackStep of the old stream; the pool invariant holds |
| Streaming.Stream.OnNextBuffer | android/libbladerf/src/libusb.c:701-716 | SHUTDOWN stops the stream, NO_DATA changes nothing, a buffer is submitted and a refused one stops the stream (NextBufferStep) |
| Streaming.Stream.Drain | android/libbladerf/src/libusb.c:722-730 | a stream shutting down becomes DONE iff every slot is back, and otherwise what is in flight is cancelled (DrainStep) |
| Streaming.Stream.SubmitTransfer | android/libbladerf/src/libusb.c:763-825 | returns error_conv of libusb's answer and leaves the pool equal to SubmitStep of the old pool; the pool invariant holds |
| Streaming.PrimeSubmitStep | android/libbladerf/src/libusb.c:951-966 | one priming submission keeps the pool invariant and the state. If libusb accepts the buffer, the slot the scan picks goes IN_FLIGHT, no other status changes, and the count drops by one. A refusal hands the slot back, records its translated error and sweeps the cancel over every slot in flight (CancelSweep), the count unchanged |
| Streaming.Stream.PrimeSubmit | android/libbladerf/src/libusb.c:951-966 | the method returns error_conv of libusb's answer and leaves the stream equal to PrimeSubmitStep |
| Streaming.PrimeFrom | android/libbladerf/src/libusb.c:923-967 | the priming loop from iteration i on keeps the pool invariant and the pool size |
| Streaming.PrimeEnd | android/libbladerf/src/libusb.c:924-946 | priming stops at the first SHUTDOWN a transmit stream gets, and otherwise handles every slot |
| Streaming.PrimeFromOutcome | android/libbladerf/src/libusb.c:920-968 | from any iteration reached, the end state is determined by the inputs: the count is n minus the buffers libusb accepted; the state, error code and final status are as stated for PrimeOutcome |
| Streaming.PrimeOutcome | android/libbladerf/src/libusb.c:920-968 | priming a full pool leaves n minus the accepted submissions available. A SHUTDOWN before the end gives SHUTTING_DOWN, or DONE if nothing went out, and otherwise the state is unchanged. The error code is that of the last refused submission, and the status is that of the last submission (0 if none) |
| Streaming.Stream.Prime | android/libbladerf/src/libusb.c:920-968 | the loop returns, with the stream, exactly PrimeFrom of the old stream from iteration 0; the pool invariant holds |
| Streaming.Stream.PrimeIteration | android/libbladerf/src/libusb.c:923-966 | one iteration of the loop, or its break, advances PrimeFrom by one step |
| Streaming.Stream.InitStream | android/libbladerf/src/libusb.c:827-903 | success iff all three mallocs and every transfer allocation succeed. On success every slot is AVAIL with a transfer of its own, the count is full, the cursor 0 and the flag clear. Every failure returns ERR_MEM. Failures after the first malloc clear backend_data. A failed transfer allocation leaks slot 0's transfer and nothing else |
| Streaming.CreateTransfers | android/libbladerf/src/libusb.c:867-892 | the allocation loop: all slots AVAIL with consecutive fresh transfers iff no allocation fails; otherwise ERR_MEM, with only slot 0's transfer left live |
| Streaming.RollBack | android/libbladerf/src/libusb.c:877-884 | the rollback frees slots k-1 down to 1, resets them to NULL and UNINITIALIZED, and leaves slot 0 and its transfer alone |
| Streaming.RollBackLeak | android/libbladerf/src/libusb.c:877-884 | what the rollback leaves live: everything live before, plus the transfer of slot 0 when there was one |
| Streaming.Stream.SubmitStreamBuffer | android/libbladerf/src/libusb.c:985-1039 | SHUTDOWN gives DONE iff nothing is out, else SHUTTING_DOWN, returning 0 and leaving the pool alone. With no slot free: nonblocking gives WOULD_BLOCK; a clock failure gives UNEXPECTED; a wait ending in ETIMEDOUT gives TIMEOUT and any other wait error UNEXPECTED, the pool untouched in each case. With a slot free, the result and the pool are those of submit_transfer |
| Streaming.Stream.DeinitStream | android/libbladerf/src/libusb.c:1041-1058 | every transfer the pool held is freed, every slot is NULL and UNINITIALIZED, backend_data is NULL and the result is 0 |

## Left out

- The stream lock and the condition variable are not modelled. Every call is one sequential step: the lock drop around `libusb_submit_transfer` (lines 804-806) and the signal at line 636 have no counterpart.
- Streaming.Stream.SubmitStreamBuffer: a wait is modelled as the sequence of results the condition wait returns. No other thread runs, so no slot frees up during a wait. The method therefore requires a nonzero result to exist whenever it would block, and the path where a callback on another thread frees a slot mid-wait is not modelled.
- Streaming.Stream.StreamCallback: requires that libusb completes only transfers it was given (IN_FLIGHT or CANCEL_PENDING). The debug `assert` at line 627, which reads the status array before the bounds check, is not modelled; the bounds check at line 630 is.
- Streaming.Stream.InitStream: requires num_transfers <= UINT_MAX. transfer_idx uses UINT_MAX as its "not found" value.
- The asserts at lines 775, 790 and 814 are replaced by preconditions or proved facts. The assert at line 777 (`bytes_per_buffer <= INT_MAX`) is dropped together with the `(int)len` cast at line 782: lengths are unbounded naturals.
- libusb_fill_bulk_transfer records only the buffer and length in the model. The handle, endpoint, callback pointer and timeout are not modelled.
- The user callback is modelled only by what it returns: the buffer and the metadata's actual_count. Its arguments (samples count, `bytes_to_samples`) are not modelled.
- The event-pump loop of `lusb_stream` (lines 970-980) and its return value are not modelled; it is foreign event handling. Prime's `layout` argument is taken to be the stream's own direction.
- The libusb allocator is modelled only as the set of live transfer identities.
- Device open, close, probe and information (`lusb_open`, `get_devinfo`, `lusb_close`, `lusb_get_vid_pid`, `lusb_get_handle`, `get_libusb_version`, the bootloader stubs) are left out: they are libusb and Android descriptor I/O.
- Logging (`log_*`, android/libbladerf/src/log.c), the Python Android bridge and the build scripts are left out: I/O and packaging with no bookkeeping to verify.

## Findings

| source | as written | input that shows it | evidently intended | confidence | as-written member | corrected member |
|---|---|---|---|---|---|---|
| android/libbladerf/src/libusb.c:526-532 | a reply that is not buffer_len bytes goes through error_conv, and error_conv maps 0 to success | libusb_control_transfer returns 0 bytes for a request with buffer_len 4; the wrapper returns 0 | success only when exactly buffer_len bytes moved; a zero-byte reply to a non-empty request is UNEXPECTED like any other short count | not executed; medium | Requests.ControlTransferResult, Requests.ZeroByteControlReplyAccepted | Requests.ControlTransferResultStrict, Requests.ControlResultsAgree |
