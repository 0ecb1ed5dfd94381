/** The stream side of the libusb backend: a bladerf_stream's state
    machine (RUNNING, SHUTTING_DOWN, DONE) and error_code, together with the
    operations of libusb.c that drive it and its transfer-slot pool --
    lusb_init_stream, submit_transfer, the completion callback
    lusb_stream_cb, the priming loop of lusb_stream,
    lusb_submit_stream_buffer and lusb_deinit_stream.

    The stream lock is not modelled: every call is one sequential step.
    What libusb, the user callback, the clock and the condition variable
    return are parameters. */
module Streaming {
  import opened Wrappers
  import opened Errors
  import opened Pool

  // libusb_transfer_status
  const LIBUSB_TRANSFER_COMPLETED: int := 0
  const LIBUSB_TRANSFER_ERROR: int := 1
  const LIBUSB_TRANSFER_TIMED_OUT: int := 2
  const LIBUSB_TRANSFER_CANCELLED: int := 3
  const LIBUSB_TRANSFER_STALL: int := 4
  const LIBUSB_TRANSFER_NO_DEVICE: int := 5
  const LIBUSB_TRANSFER_OVERFLOW: int := 6

  /** errno value pthread_cond_timedwait returns when the deadline passes. */
  const ETIMEDOUT: int := 110

  datatype StreamState = Running | ShuttingDown | Done

  /** layout & BLADERF_DIRECTION_MASK */
  datatype Direction = Rx | Tx

  /** Only BLADERF_FORMAT_PACKET_META is told apart from the sample formats. */
  datatype Format = SampleFormat | PacketMeta

  /** The error_code a completion records, by libusb transfer status; None
      where lusb_stream_cb leaves error_code alone (COMPLETED, CANCELLED and
      any status it does not know). */
  function FaultCode(transferStatus: int): (r: Option<int>)
    ensures r.Some? ==> transferStatus != LIBUSB_TRANSFER_COMPLETED && transferStatus != LIBUSB_TRANSFER_CANCELLED
    ensures r == Some(BLADERF_ERR_IO) <==>
            transferStatus in {LIBUSB_TRANSFER_STALL, LIBUSB_TRANSFER_ERROR, LIBUSB_TRANSFER_OVERFLOW}
    ensures r == Some(BLADERF_ERR_TIMEOUT) <==> transferStatus == LIBUSB_TRANSFER_TIMED_OUT
    ensures r == Some(BLADERF_ERR_NODEV) <==> transferStatus == LIBUSB_TRANSFER_NO_DEVICE
    ensures r.Some? ==> r.value in {BLADERF_ERR_IO, BLADERF_ERR_TIMEOUT, BLADERF_ERR_NODEV}
  {
    if transferStatus == LIBUSB_TRANSFER_STALL || transferStatus == LIBUSB_TRANSFER_ERROR
       || transferStatus == LIBUSB_TRANSFER_OVERFLOW then Some(BLADERF_ERR_IO)
    else if transferStatus == LIBUSB_TRANSFER_TIMED_OUT then Some(BLADERF_ERR_TIMEOUT)
    else if transferStatus == LIBUSB_TRANSFER_NO_DEVICE then Some(BLADERF_ERR_NODEV)
    else None
  }

  /** The statuses once the completed transfer's slot, if it was found, is
      back to AVAIL. */
  function Released(s: seq<TransferStatus>, slot: Option<nat>): (r: seq<TransferStatus>)
    ensures |r| == |s|
    ensures slot.Some? && slot.value < |s| ==> r[slot.value] == Avail
    ensures forall j :: 0 <= j < |s| && (slot.None? || j != slot.value) ==> r[j] == s[j]
  {
    if slot.Some? && slot.value < |s| then s[slot.value := Avail] else s
  }

  /** Index of the first false entry, or the length when there is none. */
  function FirstFalse(s: seq<bool>): (k: nat)
    ensures k <= |s|
    ensures forall j :: 0 <= j < k ==> s[j]
    ensures k < |s| ==> !s[k]
  {
    if |s| == 0 || !s[0] then 0 else 1 + FirstFalse(s[1..])
  }

  /** Index of the first nonzero entry, or the length when there is none. */
  function FirstNonzero(s: seq<int>): (k: nat)
    ensures k <= |s|
    ensures forall j :: 0 <= j < k ==> s[j] == 0
    ensures k < |s| ==> s[k] != 0
  {
    if |s| == 0 || s[0] != 0 then 0 else 1 + FirstNonzero(s[1..])
  }

  /** Index of the first shutdown sentinel (NULL), or the length. */
  function FirstShutdown(s: seq<BufferRef>): (k: nat)
    ensures k <= |s|
    ensures forall j :: 0 <= j < k ==> s[j] != Null
    ensures k < |s| ==> s[k] == Null
  {
    if |s| == 0 || s[0] == Null then 0 else 1 + FirstShutdown(s[1..])
  }

  /** Among the first k buffers fed to the priming loop, how many were
      submitted successfully (anything but NO_DATA is submitted). */
  function Submitted(feeds: seq<BufferRef>, results: seq<int>, k: nat): (c: nat)
    requires k <= |feeds| && k <= |results|
    ensures c <= k
  {
    if k == 0 then 0
    else Submitted(feeds, results, k - 1) + (if feeds[k - 1] != NoDataSentinel && results[k - 1] == 0 then 1 else 0)
  }

  /** libusb's result for the last of the first k buffers that was
      submitted, if any was. */
  function LastAttempt(feeds: seq<BufferRef>, results: seq<int>, k: nat): (r: Option<int>)
    requires k <= |feeds| && k <= |results|
    ensures r.Some? <==> exists j :: 0 <= j < k && feeds[j] != NoDataSentinel
  {
    if k == 0 then None
    else if feeds[k - 1] != NoDataSentinel then Some(results[k - 1])
    else LastAttempt(feeds, results, k - 1)
  }

  /** libusb's result for the last of the first k submissions that failed. */
  function LastFailure(feeds: seq<BufferRef>, results: seq<int>, k: nat): (r: Option<int>)
    requires k <= |feeds| && k <= |results|
    ensures r.Some? ==> r.value != 0
    ensures r.Some? <==> exists j :: 0 <= j < k && feeds[j] != NoDataSentinel && results[j] != 0
  {
    if k == 0 then None
    else if feeds[k - 1] != NoDataSentinel && results[k - 1] != 0 then Some(results[k - 1])
    else LastFailure(feeds, results, k - 1)
  }

  /** The identities lo, lo+1, ..., hi-1. */
  ghost function IdRange(lo: nat, hi: nat): (r: set<nat>)
    ensures forall x :: x in r <==> lo <= x < hi
    decreases hi - lo
  {
    if hi <= lo then {} else IdRange(lo, hi - 1) + {hi - 1}
  }

  /** The identities of the transfers a transfers array holds. */
  ghost function HandleIds(ts: seq<Transfer>): set<nat>
  {
    set j | 0 <= j < |ts| && ts[j].Allocated? :: ts[j].id
  }

  lemma HandleIdsSnoc(ts: seq<Transfer>, i: nat)
    requires i < |ts|
    ensures HandleIds(ts[..i + 1]) ==
            HandleIds(ts[..i]) + (if ts[i].Allocated? then {ts[i].id} else {})
  {
    var a := ts[..i + 1];
    var b := ts[..i];
    assert forall j :: 0 <= j < i ==> a[j] == b[j];
    forall x | x in HandleIds(a)
      ensures x in HandleIds(b) + (if ts[i].Allocated? then {ts[i].id} else {})
    {
      var j :| 0 <= j < |a| && a[j].Allocated? && a[j].id == x;
      if j < i {
        assert b[j] == a[j];
      }
    }
    forall x | x in HandleIds(b) + (if ts[i].Allocated? then {ts[i].id} else {})
      ensures x in HandleIds(a)
    {
      if x in HandleIds(b) {
        var j :| 0 <= j < |b| && b[j].Allocated? && b[j].id == x;
        assert a[j] == b[j];
      } else {
        assert a[i] == ts[i];
      }
    }
  }

  // ---------------------------------------------------------------------
  // lusb_stream_cb as a function of the stream's contents

  /** A snapshot of a stream: its state, its error code and its pool. */
  datatype StreamView = StreamView(state: StreamState, errorCode: int, pool: PoolView)

  /** The transfer a completion reports, if the pool holds it at all, is
      one libusb can be completing: in flight or being cancelled. */
  predicate Completable(p: PoolView, transfer: nat)
  {
    && |p.transfers| == |p.status|
    && (SlotOf(p.transfers, transfer).Some? ==>
          p.status[SlotOf(p.transfers, transfer).value] in {InFlight, CancelPending})
  }

  /** The first half of lusb_stream_cb: the completed transfer's slot (if
      found) is available again; an unknown transfer or a completion other
      than COMPLETED starts the shutdown, and a fault records its code. */
  function CompleteStep(v: StreamView, transfer: nat, transferStatus: int): (r: StreamView)
    requires PoolOk(v.pool) && Completable(v.pool, transfer)
    ensures PoolOk(r.pool) && |r.pool.status| == |v.pool.status|
    ensures r.state == Running ==> r.pool.numAvail > 0
    // exactly the completed transfer's slot, if found, is handed back
    ensures var slot := SlotOf(v.pool.transfers, transfer);
            r.pool == v.pool.(status := Released(v.pool.status, slot),
                              numAvail := v.pool.numAvail + (if slot.Some? then 1 else 0))
    // an unknown transfer or any status but COMPLETED starts the shutdown
    ensures r.state == if SlotOf(v.pool.transfers, transfer).None? || transferStatus != LIBUSB_TRANSFER_COMPLETED
                       then ShuttingDown else v.state
    ensures r.errorCode == if FaultCode(transferStatus).Some? then FaultCode(transferStatus).value else v.errorCode
  {
    var slot := SlotOf(v.pool.transfers, transfer);
    var pool :=
      if slot.Some? then
        CountAvailUpdate(v.pool.status, slot.value, Avail);
        v.pool.(status := v.pool.status[slot.value := Avail], numAvail := v.pool.numAvail + 1)
      else v.pool;
    var state := if slot.None? || transferStatus != LIBUSB_TRANSFER_COMPLETED then ShuttingDown else v.state;
    var fault := FaultCode(transferStatus);
    StreamView(state, if fault.Some? then fault.value else v.errorCode, pool)
  }

  /** A successful submit_transfer followed by the normal completion of
      the transfer it submitted hands back exactly the slot it took: the
      statuses and the count are those before the submission, and the
      state and error code are unchanged. */
  lemma SubmitThenComplete(v: StreamView, buffer: BufferRef, len: nat)
    requires PoolOk(v.pool) && v.pool.numAvail > 0
    ensures NextAvail(v.pool.status, v.pool.cursor).Some?
    ensures var k := NextAvail(v.pool.status, v.pool.cursor).value;
            var id := v.pool.transfers[k].id;
            var s := v.(pool := SubmitStep(v.pool, buffer, len, 0));
            && SlotOf(s.pool.transfers, id) == Some(k)
            && Completable(s.pool, id)
            && var c := CompleteStep(s, id, LIBUSB_TRANSFER_COMPLETED);
               && c.pool.status == v.pool.status
               && c.pool.numAvail == v.pool.numAvail
               && c.state == v.state
               && c.errorCode == v.errorCode
  {
    SubmitStepEffect(v.pool, buffer, len, 0);
    var k := NextAvail(v.pool.status, v.pool.cursor).value;
    var ts := SubmitStep(v.pool, buffer, len, 0).transfers;
    SlotOfFirst(ts, v.pool.transfers[k].id, k);
  }

  /** What a running stream does with the buffer the user callback
      returned: stop on the shutdown sentinel, wait on NO_DATA, otherwise
      submit it with length len and stop if that fails. */
  function NextBufferStep(v: StreamView, next: BufferRef, len: nat, submitResult: int): (r: StreamView)
    requires PoolOk(v.pool) && v.pool.numAvail > 0
    ensures PoolOk(r.pool) && |r.pool.status| == |v.pool.status|
  {
    if next == Null then v.(state := ShuttingDown)
    else if next == NoDataSentinel then v
    else
      v.(state := if ErrorConv(submitResult) != 0 then ShuttingDown else v.state,
         pool := SubmitStep(v.pool, next, len, submitResult))
  }

  /** The end of lusb_stream_cb: a stream shutting down is DONE once every
      slot is back, otherwise whatever is in flight is cancelled. */
  function DrainStep(v: StreamView, cancelResults: seq<int>): (r: StreamView)
    requires PoolOk(v.pool) && |cancelResults| == |v.pool.status|
    ensures PoolOk(r.pool) && |r.pool.status| == |v.pool.status|
    ensures r.pool.numAvail == v.pool.numAvail
  {
    if v.state != ShuttingDown then v
    else if v.pool.numAvail == |v.pool.status| then v.(state := Done)
    else v.(pool := v.pool.(status := CancelSweep(v.pool.status, cancelResults)))
  }

  /** lusb_stream_cb for the transfer with identity transfer, finished
      with transferStatus; next is what the user callback returns if it is
      consulted, len the length it is resubmitted with, submitResult
      libusb's answer to that submission and cancelResults its answers to a
      cancel sweep. */
  function CallbackStep(v: StreamView, transfer: nat, transferStatus: int, next: BufferRef, len: nat,
                        submitResult: int, cancelResults: seq<int>): (r: StreamView)
    requires PoolOk(v.pool) && Completable(v.pool, transfer) && |cancelResults| == |v.pool.status|
    ensures PoolOk(r.pool) && |r.pool.status| == |v.pool.status|
  {
    var a := CompleteStep(v, transfer, transferStatus);
    var b := if a.state == Running then NextBufferStep(a, next, len, submitResult) else a;
    DrainStep(b, cancelResults)
  }

  /** error_code is overwritten by every faulted completion and by nothing
      else; it is not sticky. */
  lemma CallbackErrorCode(v: StreamView, transfer: nat, transferStatus: int, next: BufferRef, len: nat,
                          submitResult: int, cancelResults: seq<int>)
    requires PoolOk(v.pool) && Completable(v.pool, transfer) && |cancelResults| == |v.pool.status|
    ensures CallbackStep(v, transfer, transferStatus, next, len, submitResult, cancelResults).errorCode ==
            if FaultCode(transferStatus).Some? then FaultCode(transferStatus).value else v.errorCode
  {
  }

  /** The stream keeps running exactly when it was running, the transfer
      was found and completed normally, and the user callback either had no
      data yet or supplied a buffer that libusb accepted. */
  lemma CallbackRunning(v: StreamView, transfer: nat, transferStatus: int, next: BufferRef, len: nat,
                        submitResult: int, cancelResults: seq<int>)
    requires PoolOk(v.pool) && Completable(v.pool, transfer) && |cancelResults| == |v.pool.status|
    ensures CallbackStep(v, transfer, transferStatus, next, len, submitResult, cancelResults).state == Running <==>
            && v.state == Running
            && SlotOf(v.pool.transfers, transfer).Some?
            && transferStatus == LIBUSB_TRANSFER_COMPLETED
            && next != Null
            && (next == NoDataSentinel || submitResult == 0)
  {
  }

  /** The pool's count after a completion: one more for the slot handed
      back, one fewer if a new buffer was submitted successfully. */
  lemma CallbackCount(v: StreamView, transfer: nat, transferStatus: int, next: BufferRef, len: nat,
                      submitResult: int, cancelResults: seq<int>)
    requires PoolOk(v.pool) && Completable(v.pool, transfer) && |cancelResults| == |v.pool.status|
    ensures var found := SlotOf(v.pool.transfers, transfer).Some?;
            var resubmitted := found && transferStatus == LIBUSB_TRANSFER_COMPLETED && v.state == Running &&
                               next != Null && next != NoDataSentinel && submitResult == 0;
            CallbackStep(v, transfer, transferStatus, next, len, submitResult, cancelResults).pool.numAvail ==
            v.pool.numAvail + (if found then 1 else 0) - (if resubmitted then 1 else 0)
  {
  }

  /** A completion leaves the stream DONE only with every slot available,
      unless the stream was DONE already. */
  lemma CallbackDone(v: StreamView, transfer: nat, transferStatus: int, next: BufferRef, len: nat,
                     submitResult: int, cancelResults: seq<int>)
    requires PoolOk(v.pool) && Completable(v.pool, transfer) && |cancelResults| == |v.pool.status|
    ensures var r := CallbackStep(v, transfer, transferStatus, next, len, submitResult, cancelResults);
            r.state == Done && v.state != Done ==> forall j :: 0 <= j < |r.pool.status| ==> r.pool.status[j] == Avail
  {
    var r := CallbackStep(v, transfer, transferStatus, next, len, submitResult, cancelResults);
    CountAvailFull(r.pool.status);
  }

  /** A completion that leaves the stream SHUTTING_DOWN leaves some slot
      outstanding and has asked libusb to cancel every transfer still in
      flight: a slot is IN_FLIGHT afterwards only if its cancel was
      refused. */
  lemma CallbackShuttingDown(v: StreamView, transfer: nat, transferStatus: int, next: BufferRef, len: nat,
                             submitResult: int, cancelResults: seq<int>)
    requires PoolOk(v.pool) && Completable(v.pool, transfer) && |cancelResults| == |v.pool.status|
    ensures var r := CallbackStep(v, transfer, transferStatus, next, len, submitResult, cancelResults);
            r.state == ShuttingDown ==>
              && r.pool.numAvail < |r.pool.status|
              && forall j :: 0 <= j < |r.pool.status| && r.pool.status[j] == InFlight ==> !CancelAccepted(cancelResults[j])
  {
  }

  /** Once DONE, a normal completion changes nothing but the slot it hands
      back: the user callback is not consulted and nothing is submitted. */
  lemma CallbackDoneStaysDone(v: StreamView, transfer: nat, next: BufferRef, len: nat,
                              submitResult: int, cancelResults: seq<int>)
    requires PoolOk(v.pool) && Completable(v.pool, transfer) && |cancelResults| == |v.pool.status|
    requires v.state == Done && SlotOf(v.pool.transfers, transfer).Some?
    ensures var r := CallbackStep(v, transfer, LIBUSB_TRANSFER_COMPLETED, next, len, submitResult, cancelResults);
            && r.state == Done
            && r.pool == v.pool.(status := Released(v.pool.status, SlotOf(v.pool.transfers, transfer)),
                                 numAvail := v.pool.numAvail + 1)
  {
  }

  /** DONE is not final: a faulted completion, or one for a transfer the
      pool does not hold, arriving while other slots are still out
      (possible after a buffer was pushed once DONE was reached) moves the
      stream back to SHUTTING_DOWN. */
  lemma CallbackLeavesDone(v: StreamView, transfer: nat, transferStatus: int, next: BufferRef, len: nat,
                           submitResult: int, cancelResults: seq<int>)
    requires PoolOk(v.pool) && Completable(v.pool, transfer) && |cancelResults| == |v.pool.status|
    requires v.state == Done
    requires transferStatus != LIBUSB_TRANSFER_COMPLETED || SlotOf(v.pool.transfers, transfer).None?
    requires v.pool.numAvail + 1 < |v.pool.status|
    ensures CallbackStep(v, transfer, transferStatus, next, len, submitResult, cancelResults).state == ShuttingDown
  {
  }

  // ---------------------------------------------------------------------
  // The priming loop of lusb_stream as a function

  /** One submission of the priming loop: submit_transfer, and if it
      fails, record the error and cancel whatever is in flight. */
  function PrimeSubmitStep(v: StreamView, buffer: BufferRef, len: nat, submitResult: int,
                           cancelResults: seq<int>): (r: StreamView)
    requires PoolOk(v.pool) && v.pool.numAvail > 0 && |cancelResults| == |v.pool.status|
    ensures PoolOk(r.pool) && |r.pool.status| == |v.pool.status|
    ensures r.pool.numAvail == v.pool.numAvail - (if submitResult == 0 then 1 else 0)
    ensures r.state == v.state
    ensures r.errorCode == if submitResult == 0 then v.errorCode else ErrorConv(submitResult)
    // accepted: the slot the scan picks goes in flight and nothing else changes status
    ensures NextAvail(v.pool.status, v.pool.cursor).Some?
    ensures submitResult == 0 ==>
              r.pool.status == v.pool.status[NextAvail(v.pool.status, v.pool.cursor).value := InFlight]
    // refused: the slot is handed back and everything in flight is asked to cancel
    ensures submitResult != 0 ==> r.pool.status == CancelSweep(v.pool.status, cancelResults)
  {
    SubmitStepEffect(v.pool, buffer, len, submitResult);
    var p := SubmitStep(v.pool, buffer, len, submitResult);
    var st := ErrorConv(submitResult);
    if st < 0 then StreamView(v.state, st, p.(status := CancelSweep(p.status, cancelResults)))
    else v.(pool := p)
  }

  /** What the priming loop is given: whether the stream transmits (and
      so stops at the shutdown sentinel), feeds[j] the j-th buffer, lens[j]
      its length, submitResults[j] libusb's answer to submitting it and
      cancelResults[j] the cancel answers if that fails. */
  datatype PrimeInputs = PrimeInputs(tx: bool, feeds: seq<BufferRef>, lens: seq<nat>,
                                     submitResults: seq<int>, cancelResults: seq<seq<int>>)

  /** One entry per slot of a pool of n. */
  predicate InputsFit(e: PrimeInputs, n: nat)
  {
    && |e.feeds| == n && |e.lens| == n && |e.submitResults| == n && |e.cancelResults| == n
    && forall j :: 0 <= j < n ==> |e.cancelResults[j]| == n
  }

  /** The priming loop from iteration i on, over stream contents v, with
      status the value of its status variable so far; returns the contents
      and the status at the end. */
  function PrimeFrom(v: StreamView, e: PrimeInputs, i: nat, status: int): (r: (StreamView, int))
    requires PoolOk(v.pool) && InputsFit(e, |v.pool.status|)
    requires i <= |e.feeds| && |e.feeds| - i <= v.pool.numAvail
    ensures PoolOk(r.0.pool) && |r.0.pool.status| == |v.pool.status|
    decreases |e.feeds| - i
  {
    var n := |e.feeds|;
    if i == n then (v, status)
    else if e.tx && e.feeds[i] == Null then
      (v.(state := if v.pool.numAvail != n then ShuttingDown else Done), status)
    else if e.feeds[i] == NoDataSentinel then
      PrimeFrom(v, e, i + 1, status)
    else
      PrimeFrom(PrimeSubmitStep(v, e.feeds[i], e.lens[i], e.submitResults[i], e.cancelResults[i]),
                e, i + 1, ErrorConv(e.submitResults[i]))
  }

  /** One iteration of the priming loop, unfolded. */
  lemma PrimeFromNext(v: StreamView, e: PrimeInputs, i: nat, status: int)
    requires PoolOk(v.pool) && InputsFit(e, |v.pool.status|)
    requires i < |e.feeds| && |e.feeds| - i <= v.pool.numAvail
    ensures e.tx && e.feeds[i] == Null ==>
              PrimeFrom(v, e, i, status) ==
              (v.(state := if v.pool.numAvail != |e.feeds| then ShuttingDown else Done), status)
    ensures !(e.tx && e.feeds[i] == Null) && e.feeds[i] == NoDataSentinel ==>
              PrimeFrom(v, e, i, status) == PrimeFrom(v, e, i + 1, status)
    ensures !(e.tx && e.feeds[i] == Null) && e.feeds[i] != NoDataSentinel ==>
              PrimeFrom(v, e, i, status) ==
              PrimeFrom(PrimeSubmitStep(v, e.feeds[i], e.lens[i], e.submitResults[i], e.cancelResults[i]),
                        e, i + 1, ErrorConv(e.submitResults[i]))
  {
  }

  /** Where priming stops: at the first shutdown sentinel of a transmit
      stream, after all buffers otherwise. */
  function PrimeEnd(e: PrimeInputs): (m: nat)
    ensures m <= |e.feeds|
    ensures m < |e.feeds| ==> e.tx && e.feeds[m] == Null
    ensures e.tx ==> forall j :: 0 <= j < m ==> e.feeds[j] != Null
  {
    if e.tx then FirstShutdown(e.feeds) else |e.feeds|
  }

  /** The error code once the first k submissions are made, starting
      from error0: that of the last one that failed. */
  function PrimeError(e: PrimeInputs, k: nat, error0: int): int
    requires k <= |e.feeds| && k <= |e.submitResults|
  {
    var f := LastFailure(e.feeds, e.submitResults, k);
    if f.Some? then ErrorConv(f.value) else error0
  }

  /** The status variable once the first k buffers are handled: the result
      of the last submission, 0 if there was none. */
  function PrimeStatus(e: PrimeInputs, k: nat): int
    requires k <= |e.feeds| && k <= |e.submitResults|
  {
    var a := LastAttempt(e.feeds, e.submitResults, k);
    if a.Some? then ErrorConv(a.value) else 0
  }

  /** The priming loop's effect from iteration i on, given what the
      iterations before i left. */
  lemma {:induction false} PrimeFromOutcome(v: StreamView, e: PrimeInputs, i: nat, status: int,
                                            state0: StreamState, error0: int)
    requires PoolOk(v.pool) && InputsFit(e, |v.pool.status|)
    requires i <= PrimeEnd(e)
    requires v.pool.numAvail == |e.feeds| - Submitted(e.feeds, e.submitResults, i)
    requires v.state == state0
    requires v.errorCode == PrimeError(e, i, error0)
    requires status == PrimeStatus(e, i)
    ensures |e.feeds| - i <= v.pool.numAvail
    ensures var n := |e.feeds|;
            var m := PrimeEnd(e);
            var r := PrimeFrom(v, e, i, status);
            var submitted := Submitted(e.feeds, e.submitResults, m);
            && r.0.pool.numAvail == n - submitted
            && r.0.state == (if m < n then (if submitted > 0 then ShuttingDown else Done) else state0)
            && r.0.errorCode == PrimeError(e, m, error0)
            && r.1 == PrimeStatus(e, m)
    decreases |e.feeds| - i
  {
    var n := |e.feeds|;
    if i == n {
    } else {
      PrimeFromNext(v, e, i, status);
      if e.tx && e.feeds[i] == Null {
        FirstShutdownAt(e.feeds, i);
      } else {
        PrimeEndAfter(e, i);
        PrimeTalliesNext(e, i, error0);
        if e.feeds[i] == NoDataSentinel {
          PrimeFromOutcome(v, e, i + 1, status, state0, error0);
        } else {
          var w := PrimeSubmitStep(v, e.feeds[i], e.lens[i], e.submitResults[i], e.cancelResults[i]);
          PrimeFromOutcome(w, e, i + 1, ErrorConv(e.submitResults[i]), state0, error0);
        }
      }
    }
  }

  /** A buffer before the stopping point is not the last one looked at. */
  lemma PrimeEndAfter(e: PrimeInputs, i: nat)
    requires i <= PrimeEnd(e) && i < |e.feeds| && !(e.tx && e.feeds[i] == Null)
    ensures i + 1 <= PrimeEnd(e)
  {
  }

  /** How the tallies of the priming loop move on by one buffer. */
  lemma PrimeTalliesNext(e: PrimeInputs, i: nat, error0: int)
    requires i < |e.feeds| && i < |e.submitResults|
    ensures Submitted(e.feeds, e.submitResults, i + 1) ==
            Submitted(e.feeds, e.submitResults, i) +
            (if e.feeds[i] != NoDataSentinel && e.submitResults[i] == 0 then 1 else 0)
    ensures PrimeError(e, i + 1, error0) ==
            if e.feeds[i] != NoDataSentinel && e.submitResults[i] != 0 then ErrorConv(e.submitResults[i])
            else PrimeError(e, i, error0)
    ensures PrimeStatus(e, i + 1) ==
            if e.feeds[i] != NoDataSentinel then ErrorConv(e.submitResults[i]) else PrimeStatus(e, i)
  {
  }

  /** Priming a fully available pool: each successful submission holds
      one slot; a shutdown request ends priming, in DONE if nothing went
      out yet; every failed submission records its error (the last one
      wins) but leaves the state alone; the status returned is that of the
      last submission. */
  lemma PrimeOutcome(v: StreamView, e: PrimeInputs)
    requires PoolOk(v.pool) && InputsFit(e, |v.pool.status|) && v.pool.numAvail == |e.feeds|
    ensures var n := |e.feeds|;
            var m := PrimeEnd(e);
            var r := PrimeFrom(v, e, 0, 0);
            var submitted := Submitted(e.feeds, e.submitResults, m);
            && r.0.pool.numAvail == n - submitted
            && r.0.state == (if m < n then (if submitted > 0 then ShuttingDown else Done) else v.state)
            && r.0.errorCode == PrimeError(e, m, v.errorCode)
            && r.1 == PrimeStatus(e, m)
  {
    PrimeFromOutcome(v, e, 0, 0, v.state, v.errorCode);
  }

  class Stream {
    var state: StreamState
    var errorCode: int
    /** stream->backend_data: the pool, or NULL */
    var data: StreamData?
    const direction: Direction
    const format: Format
    /** async_stream_buf_bytes(stream): the size of one sample buffer */
    const bufBytes: nat
    /** stream->buffers, the caller's ring used for priming a receive stream */
    const buffers: seq<BufferRef>

    ghost predicate Valid()
      reads this, data, if data != null then {data.status as object, data.transfers} else {}
    {
      data != null && data.Valid()
    }

    /** A stream as the layer above hands it over: running, no error, no
        backend data yet. */
    constructor (direction: Direction, format: Format, bufBytes: nat, buffers: seq<BufferRef>)
      ensures state == Running && errorCode == 0 && data == null
      ensures this.direction == direction && this.format == format
      ensures this.bufBytes == bufBytes && this.buffers == buffers
    {
      state := Running;
      errorCode := 0;
      data := null;
      this.direction := direction;
      this.format := format;
      this.bufBytes := bufBytes;
      this.buffers := buffers;
    }

    /** The length a buffer is submitted with: the metadata's actual_count
        for a transmit stream in packet format, a whole buffer otherwise. */
    function SubmitLength(metaCount: nat): (len: nat)
      ensures direction == Tx && format == PacketMeta ==> len == metaCount
      ensures !(direction == Tx && format == PacketMeta) ==> len == bufBytes
    {
      if direction == Tx && format == PacketMeta then metaCount else bufBytes
    }

    // -------------------------------------------------------------------
    // lusb_init_stream

    /** Allocate the pool. dataOk, transfersOk and statusOk are the
        outcomes of the three mallocs, allocOk[j] that of
        libusb_alloc_transfer for slot j. On a failed transfer allocation
        the rollback frees slots i-1 down to 1 but never slot 0, whose
        transfer stays allocated. */
    method InitStream(alloc: TransferAllocator, numTransfers: nat, dataOk: bool,
                      transfersOk: bool, statusOk: bool, allocOk: seq<bool>) returns (r: int)
      requires alloc.Valid() && |allocOk| == numTransfers && numTransfers <= UINT_MAX
      modifies this, alloc
      ensures alloc.Valid()
      ensures state == old(state) && errorCode == old(errorCode)
      ensures r == 0 || r == BLADERF_ERR_MEM
      ensures r == 0 <==> dataOk && transfersOk && statusOk && FirstFalse(allocOk) == numTransfers
      // the first malloc failing leaves backend_data as it was
      ensures !dataOk ==> data == old(data) && alloc.live == old(alloc.live) && alloc.nextId == old(alloc.nextId)
      ensures dataOk && r != 0 ==> data == null
      ensures dataOk && !(transfersOk && statusOk) ==>
                alloc.live == old(alloc.live) && alloc.nextId == old(alloc.nextId)
      // success: every slot AVAIL with a transfer of its own
      ensures r == 0 ==> Valid() && fresh(data) && fresh(data.status) && fresh(data.transfers)
      ensures r == 0 ==> data.numTransfers == numTransfers && data.numAvail == numTransfers &&
                         data.cursor == 0 && !data.outOfOrderEvent
      ensures r == 0 ==> forall j :: 0 <= j < numTransfers ==>
                           data.status[j] == Avail &&
                           data.transfers[j] == Allocated(old(alloc.nextId) + j, Null, 0)
      ensures r == 0 ==> alloc.live == old(alloc.live) + IdRange(old(alloc.nextId), old(alloc.nextId) + numTransfers)
      // failed transfer allocation: only slot 0's transfer survives the rollback
      ensures dataOk && transfersOk && statusOk && FirstFalse(allocOk) < numTransfers ==>
                alloc.live == old(alloc.live) +
                              (if FirstFalse(allocOk) > 0 then {old(alloc.nextId)} else {})
    {
      if !dataOk {
        return BLADERF_ERR_MEM;
      }
      var d := new StreamData(numTransfers);
      data := d;
      if !transfersOk || !statusOk {
        data := null;
        return BLADERF_ERR_MEM;
      }
      r := CreateTransfers(d, alloc, allocOk);
      if r != 0 {
        data := null;
      }
    }

    // -------------------------------------------------------------------
    // submit_transfer

    /** Fill the next available transfer with buffer and len, mark it in
        flight, and hand it to libusb, whose answer is submitResult; on
        failure undo the bookkeeping. The caller guarantees a slot is
        available. */
    method SubmitTransfer(buffer: BufferRef, len: nat, submitResult: int) returns (r: int)
      requires Valid() && data.numAvail > 0
      modifies data, data.status, data.transfers
      ensures Valid()
      ensures r == ErrorConv(submitResult)
      ensures data.View() == SubmitStep(old(data.View()), buffer, len, submitResult)
    {
      var d := data;
      SubmitStepEffect(d.View(), buffer, len, submitResult);
      var found := d.GetNextAvailable();
      var prevIdx := d.cursor;
      d.Claim(buffer, len);
      // the stream lock is dropped around libusb_submit_transfer
      var status := submitResult;
      if status != 0 {
        d.Unclaim(prevIdx);
        assert d.status[..] == old(d.status[..]);
      }
      r := ErrorConv(status);
    }

    // -------------------------------------------------------------------
    // lusb_stream_cb

    /** The contents of the stream as a value. */
    function View(): StreamView
      requires data != null
      reads this, data, data.status, data.transfers
    {
      StreamView(state, errorCode, data.View())
    }

    /** The completion callback for the transfer with identity transfer,
        which finished with transferStatus. next and metaCount are what the
        user callback returns (the buffer, and the metadata's actual_count)
        if it is consulted, submitResult what libusb_submit_transfer answers
        if next is resubmitted, and cancelResults what
        libusb_cancel_transfer answers per slot if a cancel sweep runs. */
    method StreamCallback(transfer: nat, transferStatus: int, next: BufferRef, metaCount: nat,
                          submitResult: int, cancelResults: seq<int>)
      requires Valid() && |cancelResults| == data.numTransfers
      // libusb completes only transfers it was given
      requires Completable(data.View(), transfer)
      modifies this, data, data.status, data.transfers
      ensures Valid() && data == old(data)
      ensures View() == CallbackStep(old(View()), transfer, transferStatus, next, SubmitLength(metaCount),
                                     submitResult, cancelResults)
    {
      var d := data;
      var n := d.numTransfers;
      var ti := d.TransferIdx(transfer);
      if ti >= n {
        state := ShuttingDown;
      } else {
        d.Release(ti);
        // pthread_cond_signal(&stream->can_submit_buffer): not modelled
      }
      if transferStatus != LIBUSB_TRANSFER_COMPLETED {
        state := ShuttingDown;
        var fault := FaultCode(transferStatus);
        if fault.Some? {
          errorCode := fault.value;
        }
      }
      assert View() == CompleteStep(old(View()), transfer, transferStatus);
      if state == Running {
        // the user callback has returned next
        OnNextBuffer(next, metaCount, submitResult);
      }
      Drain(cancelResults);
    }

    /** The handling of the buffer the user callback returned. */
    method OnNextBuffer(next: BufferRef, metaCount: nat, submitResult: int)
      requires Valid() && data.numAvail > 0
      modifies this, data, data.status, data.transfers
      ensures Valid() && data == old(data)
      ensures View() == NextBufferStep(old(View()), next, SubmitLength(metaCount), submitResult)
    {
      if next == Null {
        state := ShuttingDown;
      } else if next != NoDataSentinel {
        var status := SubmitTransfer(next, SubmitLength(metaCount), submitResult);
        if status != 0 {
          state := ShuttingDown;
        }
      }
    }

    /** The shutdown check at the end of the callback. */
    method Drain(cancelResults: seq<int>)
      requires Valid() && |cancelResults| == data.numTransfers
      modifies this, data.status
      ensures Valid() && data == old(data)
      ensures View() == DrainStep(old(View()), cancelResults)
    {
      if state == ShuttingDown {
        if data.numAvail == data.numTransfers {
          state := Done;
        } else {
          data.CancelAll(cancelResults);
        }
      }
    }

    // -------------------------------------------------------------------
    // the priming loop of lusb_stream

    /** The inputs of the priming loop: for a transmit stream the user
        callback's replies are submitted, for a receive stream the stream's
        own buffers; each with the length SubmitLength gives. */
    function PrimeInputsOf(replies: seq<BufferRef>, metaCounts: seq<nat>, submitResults: seq<int>,
                           cancelResults: seq<seq<int>>): (e: PrimeInputs)
      requires direction == Rx ==> |buffers| >= |replies|
      requires |metaCounts| == |replies|
      ensures e.tx == (direction == Tx)
      ensures e.feeds == if direction == Tx then replies else buffers[..|replies|]
      ensures |e.lens| == |replies| && forall j :: 0 <= j < |replies| ==> e.lens[j] == SubmitLength(metaCounts[j])
      ensures e.submitResults == submitResults && e.cancelResults == cancelResults
    {
      PrimeInputs(direction == Tx, if direction == Tx then replies else buffers[..|replies|],
                  seq(|replies|, j requires 0 <= j < |replies| => SubmitLength(metaCounts[j])),
                  submitResults, cancelResults)
    }

    /** Fill the pipeline before the event loop starts. A transmit stream
        asks the user callback for each buffer (replies[j], with the
        metadata count metaCounts[j]) and stops at the shutdown sentinel; a
        receive stream submits its own buffers. submitResults[j] is
        libusb's answer to the j-th submission, cancelResults[j] the cancel
        answers if that submission fails. The result is the status left in
        lusb_stream's local variable. */
    method Prime(replies: seq<BufferRef>, metaCounts: seq<nat>, submitResults: seq<int>,
                 cancelResults: seq<seq<int>>) returns (status: int)
      requires Valid() && data.numAvail == data.numTransfers
      requires |replies| == data.numTransfers && |metaCounts| == data.numTransfers
      requires |submitResults| == data.numTransfers && |cancelResults| == data.numTransfers
      requires forall j :: 0 <= j < |cancelResults| ==> |cancelResults[j]| == data.numTransfers
      requires direction == Rx ==> |buffers| >= data.numTransfers
      modifies this, data, data.status, data.transfers
      ensures Valid() && data == old(data)
      ensures (View(), status) == PrimeFrom(old(View()), PrimeInputsOf(replies, metaCounts, submitResults, cancelResults), 0, 0)
    {
      var d := data;
      var n := d.numTransfers;
      ghost var e := PrimeInputsOf(replies, metaCounts, submitResults, cancelResults);
      ghost var goal := PrimeFrom(View(), e, 0, 0);
      status := 0;
      var i := 0;
      while i < n
        invariant i <= n && data == d && d.Valid() && n - i <= d.numAvail
        invariant PrimeFrom(View(), e, i, status) == goal
      {
        var stop;
        stop, status := PrimeIteration(e, i, replies, metaCounts, submitResults, cancelResults, status);
        if stop {
          break;
        }
        i := i + 1;
      }
    }

    /** Iteration i of the priming loop; stop is the loop's break. */
    method PrimeIteration(ghost e: PrimeInputs, i: nat, replies: seq<BufferRef>, metaCounts: seq<nat>,
                          submitResults: seq<int>, cancelResults: seq<seq<int>>, status: int)
      returns (stop: bool, status': int)
      requires Valid() && i < data.numTransfers && data.numTransfers - i <= data.numAvail
      requires |replies| == data.numTransfers && |metaCounts| == data.numTransfers
      requires |submitResults| == data.numTransfers && |cancelResults| == data.numTransfers
      requires forall j :: 0 <= j < |cancelResults| ==> |cancelResults[j]| == data.numTransfers
      requires direction == Rx ==> |buffers| >= data.numTransfers
      requires e == PrimeInputsOf(replies, metaCounts, submitResults, cancelResults)
      modifies this, data, data.status, data.transfers
      ensures Valid() && data == old(data)
      ensures !stop ==> data.numTransfers - (i + 1) <= data.numAvail
      ensures PrimeFrom(old(View()), e, i, status) ==
              if stop then (View(), status') else PrimeFrom(View(), e, i + 1, status')
    {
      var d := data;
      var n := d.numTransfers;
      ghost var v := View();
      PrimeFromNext(v, e, i, status);
      status' := status;
      var buffer;
      if direction == Tx {
        buffer := replies[i];
      } else {
        buffer := buffers[i];
      }
      if direction == Tx && buffer == Null {
        // stop asking for buffers; no transfer out yet means done
        if d.numAvail != n {
          state := ShuttingDown;
        } else {
          state := Done;
        }
        return true, status';
      }
      if buffer != NoDataSentinel {
        status' := PrimeSubmit(buffer, SubmitLength(metaCounts[i]), submitResults[i], cancelResults[i]);
      }
      stop := false;
    }

    /** One submission of the priming loop. */
    method PrimeSubmit(buffer: BufferRef, len: nat, submitResult: int, cancelResults: seq<int>)
      returns (status: int)
      requires Valid() && data.numAvail > 0 && |cancelResults| == data.numTransfers
      modifies this, data, data.status, data.transfers
      ensures Valid() && data == old(data)
      ensures status == ErrorConv(submitResult)
      ensures View() == PrimeSubmitStep(old(View()), buffer, len, submitResult, cancelResults)
    {
      status := SubmitTransfer(buffer, len, submitResult);
      if status < 0 {
        // cancel what is in flight; the stream stays RUNNING so that the
        // cancelled completions drive it down
        errorCode := status;
        data.CancelAll(cancelResults);
      }
    }

    // -------------------------------------------------------------------
    // lusb_submit_stream_buffer

    /** Push one buffer (or the shutdown sentinel Null). clockStatus is what
        populate_abs_timeout returns; waitResults are the successive
        results of the condition wait; submitResult is libusb's answer to
        the submission. */
    method SubmitStreamBuffer(buffer: BufferRef, length: nat, timeoutMs: nat, nonblock: bool,
                              clockStatus: int, waitResults: seq<int>, submitResult: int)
      returns (r: int)
      requires Valid()
      // nothing runs beside this call, so no slot frees up while it
      // waits: a wait it enters has to end with a nonzero result
      requires buffer != Null && data.numAvail == 0 && !nonblock && (timeoutMs == 0 || clockStatus == 0) ==>
                 exists j :: 0 <= j < |waitResults| && waitResults[j] != 0
      modifies this, data, data.status, data.transfers
      ensures Valid() && data == old(data)
      ensures errorCode == old(errorCode)
      // the shutdown sentinel: DONE if nothing is in flight, else drain; the pool is untouched
      ensures buffer == Null ==>
                && r == 0
                && state == (if old(data.numAvail) == data.numTransfers then Done else ShuttingDown)
                && unchanged(data, data.status, data.transfers)
      ensures buffer != Null ==> state == old(state)
      // no slot and no waiting allowed
      ensures buffer != Null && old(data.numAvail) == 0 && nonblock ==>
                r == BLADERF_ERR_WOULD_BLOCK && unchanged(data, data.status, data.transfers)
      // no deadline could be computed
      ensures buffer != Null && old(data.numAvail) == 0 && !nonblock && timeoutMs != 0 && clockStatus != 0 ==>
                r == BLADERF_ERR_UNEXPECTED && unchanged(data, data.status, data.transfers)
      // the wait ended without a slot: timeout or unexpected
      ensures buffer != Null && old(data.numAvail) == 0 && !nonblock && (timeoutMs == 0 || clockStatus == 0) ==>
                && FirstNonzero(waitResults) < |waitResults|
                && r == (if waitResults[FirstNonzero(waitResults)] == ETIMEDOUT then BLADERF_ERR_TIMEOUT
                         else BLADERF_ERR_UNEXPECTED)
                && unchanged(data, data.status, data.transfers)
      // a slot is free: the result is submit_transfer's
      ensures buffer != Null && old(data.numAvail) > 0 ==>
                && r == ErrorConv(submitResult)
                && data.View() == SubmitStep(old(data.View()), buffer, length, submitResult)
    {
      var d := data;
      var status := 0;
      if buffer == Null {
        if d.numAvail == d.numTransfers {
          state := Done;
        } else {
          state := ShuttingDown;
        }
        return 0;
      }
      if d.numAvail == 0 {
        if nonblock {
          return BLADERF_ERR_WOULD_BLOCK;
        }
        if timeoutMs != 0 {
          status := clockStatus;
          if status != 0 {
            return BLADERF_ERR_UNEXPECTED;
          }
        }
        // pthread_cond_timedwait / pthread_cond_wait until a slot is free
        // or the wait fails
        var w := 0;
        while d.numAvail == 0 && status == 0
          invariant w <= |waitResults|
          invariant forall j :: 0 <= j < w - 1 ==> waitResults[j] == 0
          invariant status == 0 ==> forall j :: 0 <= j < w ==> waitResults[j] == 0
          invariant status != 0 ==> w > 0 && status == waitResults[w - 1]
          decreases |waitResults| - w
        {
          status := waitResults[w];
          w := w + 1;
        }
        if status != 0 {
          FirstNonzeroAt(waitResults, w - 1);
        }
      }
      if status == ETIMEDOUT {
        return BLADERF_ERR_TIMEOUT;
      } else if status != 0 {
        return BLADERF_ERR_UNEXPECTED;
      }
      r := SubmitTransfer(buffer, length, submitResult);
    }

    // -------------------------------------------------------------------
    // lusb_deinit_stream

    /** Free every slot's transfer and drop the pool. */
    method DeinitStream(alloc: TransferAllocator) returns (r: int)
      requires Valid() && alloc.Valid()
      modifies this, alloc, data.status, data.transfers
      ensures r == 0 && data == null && alloc.Valid()
      ensures state == old(state) && errorCode == old(errorCode)
      // every transfer the pool held is released
      ensures alloc.live == old(alloc.live) - HandleIds(old(data.transfers[..]))
      ensures forall j :: 0 <= j < old(data).numTransfers ==>
                old(data).transfers[j] == NullTransfer && old(data).status[j] == Uninitialized
    {
      var d := data;
      ghost var ts := d.transfers[..];
      var i := 0;
      while i < d.numTransfers
        modifies alloc, d.status, d.transfers
        invariant i <= d.numTransfers == d.transfers.Length == d.status.Length
        invariant alloc.Valid()
        invariant alloc.live == old(alloc.live) - HandleIds(ts[..i])
        invariant forall j :: 0 <= j < i ==> d.transfers[j] == NullTransfer && d.status[j] == Uninitialized
        invariant forall j :: i <= j < d.numTransfers ==> d.transfers[j] == ts[j]
      {
        alloc.Free(d.transfers[i]);
        HandleIdsSnoc(ts, i);
        d.transfers[i] := NullTransfer;
        d.status[i] := Uninitialized;
        i := i + 1;
      }
      assert ts[..d.numTransfers] == ts;
      data := null;
      r := 0;
    }
  }

  /** The loop of lusb_init_stream that creates one libusb transfer per
      slot of a freshly allocated pool d; allocOk[j] is whether
      libusb_alloc_transfer succeeds for slot j. */
  method CreateTransfers(d: StreamData, alloc: TransferAllocator, allocOk: seq<bool>) returns (r: int)
    requires alloc.Valid() && |allocOk| == d.numTransfers <= UINT_MAX
    requires d.transfers.Length == d.numTransfers && d.status.Length == d.numTransfers
    requires forall j :: 0 <= j < d.numTransfers ==> d.status[j] == Uninitialized
    requires d.numAvail == 0 && d.cursor == 0 && !d.outOfOrderEvent
    modifies alloc, d, d.status, d.transfers
    ensures alloc.Valid()
    ensures r == 0 || r == BLADERF_ERR_MEM
    ensures r == 0 <==> FirstFalse(allocOk) == d.numTransfers
    ensures r == 0 ==> d.Valid() && d.numAvail == d.numTransfers && d.cursor == 0 && !d.outOfOrderEvent
    ensures r == 0 ==> forall j :: 0 <= j < d.numTransfers ==>
                         d.status[j] == Avail && d.transfers[j] == Allocated(old(alloc.nextId) + j, Null, 0)
    ensures r == 0 ==> alloc.live == old(alloc.live) + IdRange(old(alloc.nextId), old(alloc.nextId) + d.numTransfers)
    ensures r != 0 ==> alloc.live == old(alloc.live) + (if FirstFalse(allocOk) > 0 then {old(alloc.nextId)} else {})
  {
    var n := d.numTransfers;
    ghost var live0 := alloc.live;
    assert forall x :: x in live0 ==> x < alloc.nextId;
    ghost var base := alloc.nextId;
    r := 0;
    var i := 0;
    while i < n
      modifies alloc, d, d.status, d.transfers
      invariant i <= n && r == 0
      invariant alloc.Valid() && alloc.nextId == base + i
      invariant alloc.live == live0 + IdRange(base, base + i)
      invariant forall j :: 0 <= j < i ==> allocOk[j]
      invariant forall j :: 0 <= j < i ==> d.status[j] == Avail && d.transfers[j] == Allocated(base + j, Null, 0)
      invariant forall j :: i <= j < n ==> d.status[j] == Uninitialized
      invariant d.numAvail == i && d.cursor == 0 && !d.outOfOrderEvent
    {
      var t := alloc.Alloc(allocOk[i]);
      if t == NullTransfer {
        d.transfers[i] := t;
        // start tearing down what was allocated
        ghost var k := i;
        assert FirstFalse(allocOk) == k by { FirstFalseAt(allocOk, k); }
        RollBack(d, alloc, base, i);
        i := 0;
        RollBackLeak(live0, base, k);
        r := BLADERF_ERR_MEM;
        break;
      } else {
        d.Install(i, t);
        assert IdRange(base, base + i + 1) == IdRange(base, base + i) + {base + i};
      }
      i := i + 1;
    }
    if r == 0 {
      FirstFalseAll(allocOk);
      FreshPoolOk(d.View());
    }
  }

  /** What the rollback leaves allocated: everything it found, except
      the transfers of slots 1 to k-1. */
  lemma RollBackLeak(live0: set<nat>, base: nat, k: nat)
    requires forall x :: x in live0 ==> x < base
    ensures (live0 + IdRange(base, base + k)) - IdRange(base + 1, base + k) ==
            live0 + (if k > 0 then {base} else {})
  {
  }

  /** The rollback of lusb_init_stream after the transfer for slot k could
      not be allocated: `while (i > 0) if (--i) ...` frees the transfers of
      slots k-1 down to 1 and never reaches slot 0. */
  method RollBack(d: StreamData, alloc: TransferAllocator, ghost base: nat, k: nat)
    requires alloc.Valid() && alloc.nextId == base + k
    requires k <= d.numTransfers == d.transfers.Length == d.status.Length
    requires forall j :: 0 <= j < k ==> d.transfers[j] == Allocated(base + j, Null, 0)
    requires d.numAvail == k
    modifies alloc, d, d.status, d.transfers
    ensures alloc.Valid() && alloc.nextId == old(alloc.nextId)
    ensures alloc.live == old(alloc.live) - IdRange(base + 1, base + k)
    ensures d.numAvail == if k > 0 then 1 else 0
    ensures forall j :: 1 <= j < k ==> d.transfers[j] == NullTransfer && d.status[j] == Uninitialized
    ensures forall j :: 0 <= j < d.numTransfers && (j == 0 || j >= k) ==>
              d.transfers[j] == old(d.transfers[j]) && d.status[j] == old(d.status[j])
    ensures d.cursor == old(d.cursor) && d.outOfOrderEvent == old(d.outOfOrderEvent)
  {
    var i: nat := k;
    while i > 0
      invariant i <= k <= d.numTransfers == d.transfers.Length == d.status.Length
      invariant alloc.Valid() && alloc.nextId == base + k
      invariant alloc.live == old(alloc.live) - IdRange(if i == 0 then base + 1 else base + i, base + k)
      invariant forall j :: 1 <= j < i ==> d.transfers[j] == Allocated(base + j, Null, 0)
      invariant forall j :: i <= j < k && j != 0 ==> d.transfers[j] == NullTransfer && d.status[j] == Uninitialized
      invariant forall j :: 0 <= j < d.numTransfers && (j == 0 || j >= k) ==>
                  d.transfers[j] == old(d.transfers[j]) && d.status[j] == old(d.status[j])
      invariant d.numAvail == (if i == 0 then (if k > 0 then 1 else 0) else i)
      invariant d.cursor == old(d.cursor) && d.outOfOrderEvent == old(d.outOfOrderEvent)
    {
      i := i - 1;
      if i != 0 {
        alloc.Free(d.transfers[i]);
        assert IdRange(base + i, base + k) == IdRange(base + i + 1, base + k) + {base + i};
        d.transfers[i] := NullTransfer;
        d.status[i] := Uninitialized;
        d.numAvail := d.numAvail - 1;
      }
    }
  }

  lemma FirstFalseAt(s: seq<bool>, k: nat)
    requires k < |s| && !s[k]
    requires forall j :: 0 <= j < k ==> s[j]
    ensures FirstFalse(s) == k
  {
  }

  lemma FirstFalseAll(s: seq<bool>)
    requires forall j :: 0 <= j < |s| ==> s[j]
    ensures FirstFalse(s) == |s|
  {
  }

  lemma FirstNonzeroAt(s: seq<int>, k: nat)
    requires k < |s| && s[k] != 0
    requires forall j :: 0 <= j < k ==> s[j] == 0
    ensures FirstNonzero(s) == k
  {
  }

  lemma FirstShutdownAt(s: seq<BufferRef>, k: nat)
    requires k < |s| && s[k] == Null
    requires forall j :: 0 <= j < k ==> s[j] != Null
    ensures FirstShutdown(s) == k
  {
  }
}
