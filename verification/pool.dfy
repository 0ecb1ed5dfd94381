/** The transfer-slot pool of a stream (struct lusb_stream_data in
    libusb.c): a fixed array of libusb transfers, the status of each, the
    number of available slots, the round-robin cursor and the one-shot
    out-of-order flag; with the scan for the next available slot, the
    cancel sweep and the lookup of a transfer's slot. */
module Pool {
  import opened Wrappers
  import opened Errors

  /** The largest unsigned int; transfer_idx returns it for "not found". */
  const UINT_MAX: nat := 0xFFFF_FFFF

  datatype TransferStatus = Uninitialized | Avail | InFlight | CancelPending

  /** A data-buffer pointer as the stream API sees it. Null doubles as the
      BLADERF_STREAM_SHUTDOWN sentinel, which is the null pointer;
      NoDataSentinel is BLADERF_STREAM_NO_DATA. */
  datatype BufferRef = Null | NoDataSentinel | Buffer(addr: nat)

  /** One entry of the transfers array: NULL, or a libusb transfer, known
      by its identity, carrying the buffer and length it was last filled
      with. */
  datatype Transfer = NullTransfer | Allocated(id: nat, buffer: BufferRef, length: nat)

  // ---------------------------------------------------------------------
  // Counting available slots

  function CountAvail(s: seq<TransferStatus>): (r: nat)
    ensures r <= |s|
  {
    if |s| == 0 then 0 else (if s[0] == Avail then 1 else 0) + CountAvail(s[1..])
  }

  /** Changing one slot changes the count by what that slot contributes. */
  lemma {:induction false} CountAvailUpdate(s: seq<TransferStatus>, i: nat, v: TransferStatus)
    requires i < |s|
    ensures CountAvail(s[i := v]) ==
            CountAvail(s) - (if s[i] == Avail then 1 else 0) + (if v == Avail then 1 else 0)
  {
    if i == 0 {
      assert s[i := v][1..] == s[1..];
    } else {
      assert s[i := v][1..] == s[1..][i - 1 := v];
      CountAvailUpdate(s[1..], i - 1, v);
    }
  }

  /** The count is full exactly when every slot is available. */
  lemma {:induction false} CountAvailFull(s: seq<TransferStatus>)
    ensures CountAvail(s) == |s| <==> forall j :: 0 <= j < |s| ==> s[j] == Avail
  {
    if |s| > 0 {
      CountAvailFull(s[1..]);
      assert forall j :: 1 <= j < |s| ==> s[j] == s[1..][j - 1];
    }
  }

  /** The count is zero exactly when no slot is available. */
  lemma {:induction false} CountAvailEmpty(s: seq<TransferStatus>)
    ensures CountAvail(s) == 0 <==> forall j :: 0 <= j < |s| ==> s[j] != Avail
  {
    if |s| > 0 {
      CountAvailEmpty(s[1..]);
      assert forall j :: 1 <= j < |s| ==> s[j] == s[1..][j - 1];
    }
  }

  /** Two pools whose slots agree on being available have the same count. */
  lemma {:induction false} CountAvailSameAvail(s: seq<TransferStatus>, t: seq<TransferStatus>)
    requires |s| == |t|
    requires forall j :: 0 <= j < |s| ==> (s[j] == Avail <==> t[j] == Avail)
    ensures CountAvail(s) == CountAvail(t)
  {
    if |s| > 0 {
      assert forall j :: 0 <= j < |s| - 1 ==> s[1..][j] == s[j + 1] && t[1..][j] == t[j + 1];
      CountAvailSameAvail(s[1..], t[1..]);
    }
  }

  // ---------------------------------------------------------------------
  // Round-robin scan (get_next_available_transfer)

  /** The slot reached after k steps from cursor c in a ring of n slots. */
  function Ring(c: nat, k: nat, n: nat): (r: nat)
    requires n > 0
    ensures r < n
  {
    (c + k) % n
  }

  /** How many steps from cursor c it takes to reach slot j. */
  function Distance(c: nat, j: nat, n: nat): (d: nat)
    requires c < n && j < n
    ensures d < n
  {
    if j >= c then j - c else j + n - c
  }

  lemma RingDistance(c: nat, j: nat, n: nat)
    requires c < n && j < n
    ensures Ring(c, Distance(c, j, n), n) == j
  {
    ModBelowTwice(c + Distance(c, j, n), n);
  }

  /** Reduction modulo n of a value below 2n. */
  lemma ModBelowTwice(x: nat, n: nat)
    requires 0 < n && x < 2 * n
    ensures x % n == if x < n then x else x - n
  {
  }

  /** One more step of the scan is one more slot round the ring. */
  lemma RingStep(c: nat, k: nat, n: nat)
    requires c < n && k < n
    ensures Ring(c, k + 1, n) == (Ring(c, k, n) + 1) % n
  {
    ModBelowTwice(c + k, n);
    ModBelowTwice(c + k + 1, n);
    ModBelowTwice(Ring(c, k, n) + 1, n);
  }

  lemma DistanceRing(c: nat, k: nat, n: nat)
    requires c < n && k < n
    ensures Distance(c, Ring(c, k, n), n) == k
  {
    ModBelowTwice(c + k, n);
  }

  /** Scan offsets e, e+1, ... below |s| from cursor c and return the first
      offset whose slot is available. */
  function ScanOffset(s: seq<TransferStatus>, c: nat, e: nat): (r: Option<nat>)
    requires c < |s| && e <= |s|
    decreases |s| - e
    ensures r.Some? ==> e <= r.value < |s| && s[Ring(c, r.value, |s|)] == Avail
    ensures r.Some? ==> forall k :: e <= k < r.value ==> s[Ring(c, k, |s|)] != Avail
    ensures r.None? ==> forall k :: e <= k < |s| ==> s[Ring(c, k, |s|)] != Avail
  {
    if e == |s| then None
    else if s[Ring(c, e, |s|)] == Avail then Some(e)
    else ScanOffset(s, c, e + 1)
  }

  /** The slot get_next_available_transfer picks from cursor c: the first
      available slot in the order c, c+1, ..., wrapping around, or None. */
  function NextAvail(s: seq<TransferStatus>, c: nat): (r: Option<nat>)
    requires |s| == 0 || c < |s|
    // None exactly when no slot at all is available
    ensures r.None? <==> forall j :: 0 <= j < |s| ==> s[j] != Avail
    // otherwise an available slot, and every slot passed over on the way
    // there is not available
    ensures r.Some? ==> r.value < |s| && s[r.value] == Avail
    ensures r.Some? ==> forall k :: 0 <= k < Distance(c, r.value, |s|) ==> s[Ring(c, k, |s|)] != Avail
  {
    if |s| == 0 then None
    else
      match ScanOffset(s, c, 0)
      case Some(d) =>
        DistanceRing(c, d, |s|);
        Some(Ring(c, d, |s|))
      case None =>
        assert forall j :: 0 <= j < |s| ==> s[j] != Avail by {
          forall j | 0 <= j < |s| ensures s[j] != Avail {
            RingDistance(c, j, |s|);
          }
        }
        None
  }

  /** The slot at the cursor itself is picked whenever it is available. */
  lemma NextAvailAtCursor(s: seq<TransferStatus>, c: nat)
    requires c < |s| && s[c] == Avail
    ensures NextAvail(s, c) == Some(c)
  {
    ModBelowTwice(c, |s|);
  }

  /** With at least one slot counted available, the scan finds one. */
  lemma NextAvailFound(s: seq<TransferStatus>, c: nat)
    requires |s| == 0 || c < |s|
    requires CountAvail(s) > 0
    ensures NextAvail(s, c).Some?
  {
    CountAvailEmpty(s);
  }

  // ---------------------------------------------------------------------
  // Cancel sweep (cancel_all_transfers)

  /** Whether libusb_cancel_transfer's result lets the slot be marked
      CANCEL_PENDING: success, or NOT_FOUND (the transfer already finished). */
  predicate CancelAccepted(result: int)
  {
    !(result < 0 && result != LIBUSB_ERROR_NOT_FOUND)
  }

  /** The statuses after one sweep, given the cancel result for every slot
      (consulted only for the slots that are IN_FLIGHT). */
  function CancelSweep(s: seq<TransferStatus>, results: seq<int>): (r: seq<TransferStatus>)
    requires |results| == |s|
    ensures |r| == |s|
    // only IN_FLIGHT slots change
    ensures forall j :: 0 <= j < |s| && s[j] != InFlight ==> r[j] == s[j]
    // and one changes, to CANCEL_PENDING, exactly when its cancel was accepted
    ensures forall j :: 0 <= j < |s| && s[j] == InFlight ==>
              (if CancelAccepted(results[j]) then r[j] == CancelPending else r[j] == InFlight)
    ensures CountAvail(r) == CountAvail(s)
  {
    var r := seq(|s|, j requires 0 <= j < |s| =>
                 if s[j] == InFlight && CancelAccepted(results[j]) then CancelPending else s[j]);
    CountAvailSameAvail(s, r);
    r
  }

  /** A sweep over a pool with nothing in flight changes nothing. */
  lemma CancelSweepNothingInFlight(s: seq<TransferStatus>, results: seq<int>)
    requires |results| == |s|
    requires forall j :: 0 <= j < |s| ==> s[j] != InFlight
    ensures CancelSweep(s, results) == s
  {
  }

  /** After a sweep in which every cancel was accepted, a second sweep is a
      no-op, whatever its cancels return. */
  lemma CancelSweepIdempotent(s: seq<TransferStatus>, first: seq<int>, second: seq<int>)
    requires |first| == |s| && |second| == |s|
    requires forall j :: 0 <= j < |s| ==> CancelAccepted(first[j])
    ensures CancelSweep(CancelSweep(s, first), second) == CancelSweep(s, first)
  {
    CancelSweepNothingInFlight(CancelSweep(s, first), second);
  }

  // ---------------------------------------------------------------------
  // Finding a transfer's slot (transfer_idx)

  predicate Holds(t: Transfer, id: nat)
  {
    t.Allocated? && t.id == id
  }

  /** The first slot whose transfer is the one with identity id. */
  function SlotOf(ts: seq<Transfer>, id: nat): (r: Option<nat>)
    ensures r.Some? ==> r.value < |ts| && Holds(ts[r.value], id)
    ensures r.Some? ==> forall j :: 0 <= j < r.value ==> !Holds(ts[j], id)
    ensures r.None? <==> forall j :: 0 <= j < |ts| ==> !Holds(ts[j], id)
  {
    if |ts| == 0 then None
    else if Holds(ts[0], id) then Some(0)
    else
      match SlotOf(ts[1..], id)
      case Some(k) => Some(k + 1)
      case None => None
  }

  // ---------------------------------------------------------------------
  // The pool as a value

  /** A snapshot of struct lusb_stream_data: the two arrays' contents and
      the three scalars. */
  datatype PoolView = PoolView(status: seq<TransferStatus>, transfers: seq<Transfer>,
                               numAvail: nat, cursor: nat, outOfOrder: bool)

  /** Every slot owns its transfer: no two slots hold the same one. */
  predicate DistinctIds(ts: seq<Transfer>)
  {
    forall i, j :: 0 <= i < |ts| && 0 <= j < |ts| && i != j && ts[i].Allocated? && ts[j].Allocated? ==>
      ts[i].id != ts[j].id
  }

  /** The pool invariant kept between calls: the count agrees with a scan
      of the statuses, the cursor is a slot index, and every slot holds an
      allocated transfer of its own. */
  predicate PoolOk(p: PoolView)
  {
    && |p.transfers| == |p.status| <= UINT_MAX
    && p.numAvail == CountAvail(p.status)
    && (if |p.status| == 0 then p.cursor == 0 else p.cursor < |p.status|)
    && (forall j :: 0 <= j < |p.status| ==> p.status[j] != Uninitialized)
    && (forall j :: 0 <= j < |p.transfers| ==> p.transfers[j].Allocated?)
    && DistinctIds(p.transfers)
  }

  /** A pool whose every slot holds an allocated transfer of its own and is
      available, with the cursor at 0: what lusb_init_stream builds. */
  lemma FreshPoolOk(p: PoolView)
    requires |p.transfers| == |p.status| <= UINT_MAX && p.numAvail == |p.status| && p.cursor == 0
    requires forall j :: 0 <= j < |p.status| ==> p.status[j] == Avail && p.transfers[j].Allocated?
    requires DistinctIds(p.transfers)
    ensures PoolOk(p)
  {
    CountAvailFull(p.status);
  }

  /** submit_transfer on the pool: the slot the round-robin scan picks is
      filled with buffer and len and goes in flight; if libusb refuses it
      (submitResult != 0) the status, the count and the cursor are put back,
      while the fill and the out-of-order flag stay. */
  function SubmitStep(p: PoolView, buffer: BufferRef, len: nat, submitResult: int): (r: PoolView)
    requires PoolOk(p) && p.numAvail > 0
    ensures PoolOk(r)
    ensures |r.status| == |p.status| && r.numAvail == p.numAvail - (if submitResult == 0 then 1 else 0)
  {
    NextAvailFound(p.status, p.cursor);
    var n := |p.status|;
    var k := NextAvail(p.status, p.cursor).value;
    CountAvailUpdate(p.status, k, InFlight);
    var claimed := PoolView(p.status[k := InFlight],
                            p.transfers[k := Allocated(p.transfers[k].id, buffer, len)],
                            p.numAvail - 1, (k + 1) % n, p.outOfOrder || k != p.cursor);
    if submitResult == 0 then claimed
    else
      ModBelowTwice(k + 1, n);
      claimed.(status := p.status, numAvail := p.numAvail,
               cursor := if claimed.cursor == 0 then n - 1 else claimed.cursor - 1)
  }

  /** What submit_transfer does to the pool, slot by slot. */
  lemma SubmitStepEffect(p: PoolView, buffer: BufferRef, len: nat, submitResult: int)
    requires PoolOk(p) && p.numAvail > 0
    // a slot is always found, because one is counted available
    ensures NextAvail(p.status, p.cursor).Some?
    ensures var r := SubmitStep(p, buffer, len, submitResult);
            var k := NextAvail(p.status, p.cursor).value;
            && p.status[k] == Avail
            && r.transfers == p.transfers[k := Allocated(p.transfers[k].id, buffer, len)]
            && r.outOfOrder == (p.outOfOrder || k != p.cursor)
            // success: exactly slot k is taken and the cursor moves past it
            && (submitResult == 0 ==>
                  && r.status == p.status[k := InFlight]
                  && r.numAvail == p.numAvail - 1
                  && r.cursor == (k + 1) % |p.status|)
            // failure: nothing is taken and the cursor is back on slot k
            && (submitResult != 0 ==>
                  && r.status == p.status
                  && r.numAvail == p.numAvail
                  && r.cursor == k)
  {
    NextAvailFound(p.status, p.cursor);
    var k := NextAvail(p.status, p.cursor).value;
    ModBelowTwice(k + 1, |p.status|);
  }

  // ---------------------------------------------------------------------
  // libusb's transfer allocator

  /** libusb_alloc_transfer / libusb_free_transfer: the set of transfers
      currently allocated; every allocation gets a fresh identity. */
  class TransferAllocator {
    var live: set<nat>
    var nextId: nat

    ghost predicate Valid()
      reads this
    {
      forall id :: id in live ==> id < nextId
    }

    constructor ()
      ensures Valid() && live == {} && nextId == 0
    {
      live := {};
      nextId := 0;
    }

    /** Allocate a zero-filled transfer; ok is whether the allocation
        succeeded (NULL otherwise). */
    method Alloc(ok: bool) returns (t: Transfer)
      requires Valid()
      modifies this
      ensures Valid()
      ensures ok ==> t == Allocated(old(nextId), Null, 0) &&
                     live == old(live) + {old(nextId)} && nextId == old(nextId) + 1
      ensures !ok ==> t == NullTransfer && live == old(live) && nextId == old(nextId)
    {
      if ok {
        t := Allocated(nextId, Null, 0);
        live := live + {nextId};
        nextId := nextId + 1;
      } else {
        t := NullTransfer;
      }
    }

    /** Free a transfer; freeing NULL does nothing. */
    method Free(t: Transfer)
      requires Valid()
      modifies this`live
      ensures Valid()
      ensures live == if t.Allocated? then old(live) - {t.id} else old(live)
    {
      if t.Allocated? {
        live := live - {t.id};
      }
    }
  }

  // ---------------------------------------------------------------------
  // The pool itself

  class StreamData {
    const numTransfers: nat
    const transfers: array<Transfer>
    const status: array<TransferStatus>
    var numAvail: nat
    var cursor: nat
    var outOfOrderEvent: bool

    /** The current contents as a value. */
    function View(): PoolView
      reads this, transfers, status
    {
      PoolView(status[..], transfers[..], numAvail, cursor, outOfOrderEvent)
    }

    ghost predicate Valid()
      reads this, transfers, status
    {
      && transfers.Length == numTransfers
      && status.Length == numTransfers
      && PoolOk(View())
    }

    /** The freshly allocated record with its two arrays: every status
        zeroed (calloc) to UNINITIALIZED and the counters reset. The
        transfers array comes from a plain malloc; filling it with NULL is
        a choice of the model that cannot be observed, since the allocation
        loop writes every entry before anything reads it. */
    constructor (n: nat)
      ensures numTransfers == n && numAvail == 0 && cursor == 0 && !outOfOrderEvent
      ensures transfers.Length == n && status.Length == n
      ensures fresh(transfers) && fresh(status)
      ensures forall j :: 0 <= j < n ==> transfers[j] == NullTransfer && status[j] == Uninitialized
    {
      numTransfers := n;
      transfers := new Transfer[n](_ => NullTransfer);
      status := new TransferStatus[n](_ => Uninitialized);
      numAvail := 0;
      cursor := 0;
      outOfOrderEvent := false;
    }

    /** get_next_available_transfer: scan at most numTransfers slots from
        the cursor, wrapping, for an AVAIL one; move the cursor onto it and
        note the first time it is not where the cursor was. */
    method GetNextAvailable() returns (found: Option<nat>)
      requires Valid()
      modifies this
      ensures Valid()
      ensures found == NextAvail(old(status[..]), old(cursor))
      ensures cursor == if found.Some? then found.value else old(cursor)
      ensures outOfOrderEvent == (old(outOfOrderEvent) || (found.Some? && found.value != old(cursor)))
      ensures numAvail == old(numAvail)
    {
      var n := numTransfers;
      if n == 0 {
        return None;
      }
      ghost var s := status[..];
      var k := 0;
      var i := cursor;
      ModBelowTwice(cursor, n);
      // the scan; the C code returns from inside the loop on a hit
      while k < n && status[i] != Avail
        modifies {}
        invariant k <= n && i < n && |s| == n && cursor < n
        invariant k < n ==> i == Ring(cursor, k, n)
        invariant ScanOffset(s, cursor, 0) == ScanOffset(s, cursor, k)
      {
        RingStep(cursor, k, n);
        i := (i + 1) % n;
        k := k + 1;
      }
      if k == n {
        return None;
      }
      assert ScanOffset(s, cursor, k) == Some(k);
      if cursor != i && !outOfOrderEvent {
        outOfOrderEvent := true;
      }
      cursor := i;
      return Some(i);
    }

    /** The bookkeeping of submit_transfer before libusb is called: fill the
        transfer at the cursor with buffer and len, mark its slot in flight,
        advance the cursor and take one from the count. */
    method Claim(buffer: BufferRef, len: nat)
      requires Valid() && numAvail > 0 && status[cursor] == Avail
      modifies this, status, transfers
      ensures Valid()
      ensures transfers[..] == old(transfers[..])[old(cursor) := Allocated(old(transfers[cursor].id), buffer, len)]
      ensures status[..] == old(status[..])[old(cursor) := InFlight]
      ensures numAvail == old(numAvail) - 1
      ensures cursor == (old(cursor) + 1) % numTransfers
      ensures outOfOrderEvent == old(outOfOrderEvent)
    {
      var t := transfers[cursor];
      // libusb_fill_bulk_transfer
      transfers[cursor] := Allocated(t.id, buffer, len);
      CountAvailUpdate(status[..], cursor, InFlight);
      status[cursor] := InFlight;
      cursor := (cursor + 1) % numTransfers;
      numAvail := numAvail - 1;
    }

    /** The undo of submit_transfer when libusb refuses the transfer: the
        slot prevIdx is available again and the cursor steps back onto it,
        wrapping from 0 to the last slot. */
    method Unclaim(prevIdx: nat)
      requires Valid() && prevIdx < numTransfers && status[prevIdx] == InFlight
      requires cursor == (prevIdx + 1) % numTransfers
      modifies this, status
      ensures Valid()
      ensures status[..] == old(status[..])[prevIdx := Avail]
      ensures numAvail == old(numAvail) + 1
      ensures cursor == prevIdx
      ensures outOfOrderEvent == old(outOfOrderEvent)
    {
      CountAvailUpdate(status[..], prevIdx, Avail);
      status[prevIdx] := Avail;
      numAvail := numAvail + 1;
      ModBelowTwice(prevIdx + 1, numTransfers);
      if cursor == 0 {
        cursor := numTransfers - 1;
      } else {
        cursor := cursor - 1;
      }
    }

    /** A completion hands slot k back: it is available again and the count
        goes up by one. */
    method Release(k: nat)
      requires Valid() && k < numTransfers && status[k] != Avail
      modifies this, status
      ensures Valid()
      ensures status[..] == old(status[..])[k := Avail]
      ensures numAvail == old(numAvail) + 1
      ensures cursor == old(cursor) && outOfOrderEvent == old(outOfOrderEvent)
    {
      CountAvailUpdate(status[..], k, Avail);
      status[k] := Avail;
      numAvail := numAvail + 1;
    }

    /** One step of the allocation loop of lusb_init_stream: slot i gets
        its freshly allocated transfer t and becomes available. */
    method Install(i: nat, t: Transfer)
      requires i < numTransfers == transfers.Length == status.Length && status[i] == Uninitialized
      modifies this, status, transfers
      ensures transfers[i] == t && status[i] == Avail
      ensures forall j :: 0 <= j < numTransfers && j != i ==>
                transfers[j] == old(transfers[j]) && status[j] == old(status[j])
      ensures numAvail == old(numAvail) + 1
      ensures cursor == old(cursor) && outOfOrderEvent == old(outOfOrderEvent)
    {
      transfers[i] := t;
      status[i] := Avail;
      numAvail := numAvail + 1;
    }

    /** cancel_all_transfers: ask libusb to cancel every IN_FLIGHT transfer;
        results[j] is what libusb_cancel_transfer returns for slot j. */
    method CancelAll(results: seq<int>)
      requires Valid() && |results| == numTransfers
      modifies status
      ensures Valid()
      ensures status[..] == CancelSweep(old(status[..]), results)
    {
      ghost var s := status[..];
      var i := 0;
      while i < numTransfers
        invariant i <= numTransfers
        invariant status[..i] == CancelSweep(s, results)[..i]
        invariant status[i..] == s[i..]
      {
        if status[i] == InFlight {
          if results[i] < 0 && results[i] != LIBUSB_ERROR_NOT_FOUND {
            // the error is only logged; the slot stays IN_FLIGHT
          } else {
            status[i] := CancelPending;
          }
        }
        assert status[..i + 1] == status[..i] + [status[i]];
        assert CancelSweep(s, results)[..i + 1] == CancelSweep(s, results)[..i] + [CancelSweep(s, results)[i]];
        i := i + 1;
      }
      assert status[..] == status[..numTransfers];
      assert CancelSweep(s, results) == CancelSweep(s, results)[..numTransfers];
    }

    /** transfer_idx: the slot holding the transfer with identity id, or
        UINT_MAX when there is none. */
    method TransferIdx(id: nat) returns (r: nat)
      requires transfers.Length == numTransfers
      ensures SlotOf(transfers[..], id).Some? ==> r == SlotOf(transfers[..], id).value
      ensures SlotOf(transfers[..], id).None? ==> r == UINT_MAX
    {
      var i := 0;
      while i < numTransfers
        invariant i <= numTransfers
        invariant forall j :: 0 <= j < i ==> !Holds(transfers[j], id)
      {
        if transfers[i].Allocated? && transfers[i].id == id {
          SlotOfFirst(transfers[..], id, i);
          return i;
        }
        i := i + 1;
      }
      return UINT_MAX;
    }
  }

  /** The first slot holding id is the one SlotOf names. */
  lemma SlotOfFirst(ts: seq<Transfer>, id: nat, i: nat)
    requires i < |ts| && Holds(ts[i], id)
    requires forall j :: 0 <= j < i ==> !Holds(ts[j], id)
    ensures SlotOf(ts, id) == Some(i)
  {
  }
}
