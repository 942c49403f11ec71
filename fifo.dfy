/**
 * The client's packet queue between the network thread and a peer's DTLS
 * session: a BIO whose storage is a ring of preallocated packet slots,
 * read in the order the packets were written.
 *
 * The model is sequential: a blocking wait (reading an empty queue
 * without a timeout, writing a full queue without droptail) becomes a
 * precondition, and reading an empty queue with a timeout set is the
 * timeout path.
 */
module Fifo {
  import opened Wire

  /** One slot of the ring: its buffer (data_size bytes) and the size of the packet it holds. */
  datatype Item = Item(data: seq<uint8>, size: int)

  predicate SlotOk(it: Item) {
    0 <= it.size <= |it.data|
  }

  /** The packet a slot holds. */
  function Payload(it: Item): seq<uint8>
    requires SlotOk(it)
  {
    it.data[..it.size]
  }

  predicate SlotsOk(s: seq<Item>) {
    forall k :: 0 <= k < |s| ==> SlotOk(s[k])
  }

  /** The packets held by the `n` slots of the ring `s` starting at `start`. */
  function Window(s: seq<Item>, start: nat, n: nat): (w: seq<seq<uint8>>)
    requires 0 < |s| && SlotsOk(s)
    ensures |w| == n
  {
    seq(n, k requires 0 <= k < n => Payload(s[(start + k) % |s|]))
  }

  /** The total size of a sequence of packets. */
  function TotalSize(items: seq<seq<uint8>>): (n: nat)
    ensures |items| == 0 ==> n == 0
  {
    if |items| == 0 then 0 else TotalSize(items[..|items| - 1]) + |items[|items| - 1]|
  }

  /** The size of a concatenation is the sum of the sizes. */
  lemma {:induction false} TotalSizeAppend(a: seq<seq<uint8>>, b: seq<seq<uint8>>)
    ensures TotalSize(a + b) == TotalSize(a) + TotalSize(b)
    decreases |b|
  {
    if |b| > 0 {
      assert (a + b)[..|a + b| - 1] == a + b[..|b| - 1];
      TotalSizeAppend(a, b[..|b| - 1]);
    } else {
      assert a + b == a;
    }
  }

  /** Positions `start + k` and `start + n` are different slots when `k < n < L`. */
  lemma DistinctSlots(start: nat, k: nat, n: nat, len: nat)
    requires start < len && k < n < len
    ensures (start + k) % len != (start + n) % len
  {
    Wrapped(start + k, len);
    Wrapped(start + n, len);
  }

  /** Filling the slot after the window appends its packet. */
  lemma WindowGrows(s: seq<Item>, start: nat, n: nat, it: Item)
    requires 0 < |s| && SlotsOk(s) && SlotOk(it) && start < |s| && n < |s|
    ensures SlotsOk(s[(start + n) % |s| := it])
    ensures Window(s[(start + n) % |s| := it], start, n + 1) == Window(s, start, n) + [Payload(it)]
  {
    var s' := s[(start + n) % |s| := it];
    forall k | 0 <= k < n
      ensures Window(s', start, n + 1)[k] == Window(s, start, n)[k]
    {
      DistinctSlots(start, k, n, |s|);
    }
  }

  /** The slot after `start`, as the program advances an index. */
  function Next(i: nat, len: nat): nat
    requires i < len
  {
    if i == len - 1 then 0 else i + 1
  }

  /** Taking the first packet leaves the window starting at the next slot. */
  lemma WindowShrinks(s: seq<Item>, start: nat, n: nat)
    requires 0 < |s| && SlotsOk(s) && start < |s| && 0 < n <= |s|
    ensures Window(s, Next(start, |s|), n - 1) == Window(s, start, n)[1..]
  {
    var w := Window(s, start, n);
    var w' := Window(s, Next(start, |s|), n - 1);
    forall k | 0 <= k < n - 1
      ensures w'[k] == w[1..][k]
    {
      Wrapped(Next(start, |s|) + k, |s|);
      Wrapped(start + (k + 1), |s|);
    }
  }

  /**
   * Writing after a window that is not the whole ring: the packet is
   * appended, and the slot after it is where the longer window ends.
   */
  lemma PutLast(s: seq<Item>, start: nat, n: nat, end: nat, it: Item)
    requires 0 < |s| && SlotsOk(s) && SlotOk(it) && start < |s| && n < |s| && end == (start + n) % |s|
    ensures SlotsOk(s[end := it])
    ensures Window(s[end := it], start, n + 1) == Window(s, start, n) + [Payload(it)]
    ensures end < |s| && Next(end, |s|) == (start + (n + 1)) % |s|
  {
    WindowGrows(s, start, n, it);
    Wrapped(start + n, |s|);
    Wrapped(start + n + 1, |s|);
  }

  /**
   * Reading a non-empty window: its first packet is in slot `start`, and
   * the rest is the window of one packet less after it, ending where it did.
   */
  lemma TakeFirst(s: seq<Item>, start: nat, n: nat, end: nat)
    requires 0 < |s| && SlotsOk(s) && start < |s| && 0 < n <= |s| && end == (start + n) % |s|
    ensures Window(s, start, n)[0] == Payload(s[start])
    ensures Window(s, Next(start, |s|), n - 1) == Window(s, start, n)[1..]
    ensures end == (Next(start, |s|) + (n - 1)) % |s|
  {
    Wrapped(start, |s|);
    WindowShrinks(s, start, n);
    Wrapped(start + n, |s|);
    Wrapped(Next(start, |s|) + n - 1, |s|);
  }

  /** Slot `i` of a ring of `len` slots, read from an index below `2 * len` as the program does. */
  lemma Wrapped(x: nat, len: nat)
    requires 0 < len && x < 2 * len
    ensures x % len == if x < len then x else x - len
  {
    if x >= len {
      assert x == len + (x - len);
    }
  }

  /** The BIO_CTRL commands the queue answers. */
  datatype Cmd =
    | Reset
    | Eof
    | GetClose
    | SetClose
    | WPending
    | Pending
    | Dup
    | Flush
    | SetRecvTimeout(sec: int, nsec: int)
    | GetRecvTimeout
    | GetRecvTimerExp
    | SetDroptail
    | GetDroptail
    | Other

  /** A FIFO BIO: the ring of slots and its read and write positions. */
  class FifoBio {
    const fifo: array<Item>
    var indexRead: nat
    var indexWrite: nat
    var nelem: nat
    var threshold: int
    var droptail: int
    var rcvTimeoutSec: int
    var rcvTimeoutNsec: int
    var rcvTimerExp: bool
    /** The BIO's close flag. */
    var shutdown: int

    ghost predicate Valid()
      reads this, fifo
    {
      0 < fifo.Length && indexRead < fifo.Length && nelem <= fifo.Length
      && indexWrite == (indexRead + nelem) % fifo.Length
      && SlotsOk(fifo[..])
    }

    /** The queued packets, oldest first. */
    ghost function Contents(): (c: seq<seq<uint8>>)
      reads this, fifo
      requires Valid()
      ensures |c| == nelem
    {
      Window(fifo[..], indexRead, nelem)
    }

    /**
     * BIO_new_fifo: `len` slots of `dataSize` bytes each, an empty queue,
     * and a wake-up threshold of a tenth of the slots.
     */
    constructor (len: int, dataSize: nat)
      requires len > 0
      ensures Valid() && Contents() == []
      ensures fifo.Length == len && threshold == len / 10
      ensures forall k :: 0 <= k < len ==> |fifo[k].data| == dataSize
      ensures indexRead == 0 && indexWrite == 0
      ensures droptail == 0 && rcvTimeoutSec == 0 && rcvTimeoutNsec == 0 && !rcvTimerExp && shutdown == 1
    {
      fifo := new Item[len](_ => Item(seq(dataSize, _ => 0), 0));
      indexRead, indexWrite := 0, 0;
      threshold := len / 10;
      rcvTimerExp := false;
      rcvTimeoutNsec, rcvTimeoutSec := 0, 0;
      droptail := 0;
      nelem := 0;
      shutdown := 1;
    }

    /**
     * fifo_write: queue a copy of `input`. A full queue with droptail
     * discards it but reports it written. A packet larger than its slot
     * gets a larger buffer, or is cut to the slot's size when that
     * allocation (`grows`) fails. The result is the number of bytes queued.
     */
    method Write(input: seq<uint8>, grows: bool) returns (ret: int)
      requires Valid()
      requires nelem < fifo.Length || droptail != 0
      modifies this, fifo
      ensures Valid()
      ensures old(nelem) == fifo.Length ==>
                ret == |input| && unchanged(this) && unchanged(fifo)
      ensures old(nelem) < fifo.Length ==>
                var capacity := |old(fifo[indexWrite]).data|;
                ret == (if |input| > capacity && !grows then capacity else |input|)
                && Contents() == old(Contents()) + [input[..ret]]
                && |fifo[old(indexWrite)].data| == (if |input| > capacity && grows then |input| else capacity)
                && indexRead == old(indexRead) && droptail == old(droptail) && threshold == old(threshold)
                && rcvTimeoutSec == old(rcvTimeoutSec) && rcvTimeoutNsec == old(rcvTimeoutNsec)
                && rcvTimerExp == old(rcvTimerExp) && shutdown == old(shutdown)
      ensures forall k :: 0 <= k < fifo.Length && k != old(indexWrite) ==> fifo[k] == old(fifo[k])
    {
      if nelem == fifo.Length && droptail != 0 {
        return |input|;
      }
      var item := fifo[indexWrite];
      var inl := |input|;
      if inl > |item.data| {
        if grows {
          item := Item(input, item.size);
        } else {
          inl := |item.data|;
        }
      }
      item := Item(input[..inl] + item.data[inl..], inl);
      assert Payload(item) == input[..inl];
      PutLast(fifo[..], indexRead, nelem, indexWrite, item);
      fifo[indexWrite] := item;
      assert fifo[..] == old(fifo[..])[old(indexWrite) := item];
      indexWrite := Next(indexWrite, fifo.Length);
      nelem := nelem + 1;
      ret := inl;
    }

    /**
     * fifo_read: take the oldest packet, copying at most `outl` of its
     * bytes; the result is the number copied. An empty queue with a
     * receive timeout set times out: -1, and the timer-expired flag is set.
     */
    method Read(outl: nat) returns (ret: int, out: seq<uint8>)
      requires Valid()
      requires nelem > 0 || rcvTimeoutSec != 0 || rcvTimeoutNsec != 0
      modifies this
      ensures Valid()
      ensures old(nelem) == 0 ==>
                ret == -1 && out == [] && rcvTimerExp && Contents() == old(Contents())
      ensures old(nelem) > 0 ==>
                var head := old(Contents())[0];
                ret == (if outl >= |head| then |head| else outl) && out == head[..ret]
                && Contents() == old(Contents())[1..] && rcvTimerExp == old(rcvTimerExp)
      ensures indexWrite == old(indexWrite) && droptail == old(droptail) && threshold == old(threshold)
      ensures rcvTimeoutSec == old(rcvTimeoutSec) && rcvTimeoutNsec == old(rcvTimeoutNsec)
      ensures shutdown == old(shutdown)
    {
      if nelem == 0 {
        rcvTimerExp := true;
        return -1, [];
      }
      TakeFirst(fifo[..], indexRead, nelem, indexWrite);
      var item := fifo[indexRead];
      var len := item.size;
      ret := if outl >= len then len else outl;
      out := item.data[..ret];
      indexRead := Next(indexRead, fifo.Length);
      nelem := nelem - 1;
    }

    /** BIO_CTRL_PENDING: the total size of the queued packets. */
    method PendingBytes() returns (ret: int)
      requires Valid()
      ensures ret == TotalSize(Contents())
    {
      ret := 0;
      var i := indexRead;
      var v := nelem;
      while i < indexRead + v
        invariant indexRead <= i <= indexRead + v
        invariant ret == TotalSize(Contents()[..i - indexRead])
        decreases indexRead + v - i
      {
        Wrapped(i, fifo.Length);
        var item := fifo[if i < fifo.Length then i else i - fifo.Length];
        assert Contents()[..i + 1 - indexRead] == Contents()[..i - indexRead] + [Payload(item)];
        ret := ret + item.size;
        i := i + 1;
      }
      assert Contents()[..i - indexRead] == Contents();
    }

    /** BIO_CTRL_EOF: whether the queue is empty. */
    function IsEof(): (r: bool)
      reads this, fifo
      requires Valid()
      ensures r <==> Contents() == []
    {
      nelem == 0
    }

    /**
     * fifo_ctrl: the control commands. RESET empties the queue; GET_RECV_TIMER_EXP
     * reports and clears the timer-expired flag; unknown commands return 0.
     */
    method Ctrl(cmd: Cmd, num: int) returns (ret: int, timeout: (int, int))
      requires Valid()
      modifies this
      ensures Valid()
      ensures cmd.Reset? ==> Contents() == [] && indexRead == 0 && indexWrite == 0 && ret == 1
      ensures cmd.Eof? ==> (ret == 1 <==> old(Contents()) == []) && (ret == 0 || ret == 1)
      ensures cmd.GetClose? ==> ret == shutdown
      ensures cmd.SetClose? ==> shutdown == num && ret == 1
      ensures cmd.WPending? ==> ret == 0
      ensures cmd.Pending? ==> ret == TotalSize(Contents())
      ensures cmd.Dup? || cmd.Flush? ==> ret == 1
      ensures cmd.SetRecvTimeout? ==> rcvTimeoutSec == cmd.sec && rcvTimeoutNsec == cmd.nsec && ret == 1
      ensures cmd.GetRecvTimeout? ==> timeout == (rcvTimeoutSec, rcvTimeoutNsec) && ret == 1
      ensures cmd.GetRecvTimerExp? ==> (ret == 1 <==> old(rcvTimerExp)) && (ret == 0 || ret == 1) && !rcvTimerExp
      ensures cmd.SetDroptail? ==> droptail == num && ret == 1
      ensures cmd.GetDroptail? ==> ret == droptail
      ensures cmd.Other? ==> ret == 0
      ensures !cmd.Reset? ==> Contents() == old(Contents())
      ensures !cmd.SetClose? ==> shutdown == old(shutdown)
      ensures !cmd.SetDroptail? ==> droptail == old(droptail)
      ensures !cmd.SetRecvTimeout? ==> rcvTimeoutSec == old(rcvTimeoutSec) && rcvTimeoutNsec == old(rcvTimeoutNsec)
      ensures !cmd.GetRecvTimerExp? ==> rcvTimerExp == old(rcvTimerExp)
      ensures !cmd.Reset? ==> indexRead == old(indexRead) && indexWrite == old(indexWrite) && nelem == old(nelem)
      ensures threshold == old(threshold)
    {
      ret := 1;
      timeout := (0, 0);
      match cmd {
        case Reset =>
          indexRead, indexWrite, nelem := 0, 0, 0;
        case Eof =>
          ret := if nelem == 0 then 1 else 0;
        case GetClose =>
          ret := shutdown;
        case SetClose =>
          shutdown := num;
        case WPending =>
          ret := 0;
        case Pending =>
          ret := PendingBytes();
        case Dup =>
        case Flush =>
        case SetRecvTimeout(sec, nsec) =>
          rcvTimeoutNsec, rcvTimeoutSec := nsec, sec;
        case GetRecvTimeout =>
          timeout := (rcvTimeoutSec, rcvTimeoutNsec);
        case GetRecvTimerExp =>
          if rcvTimerExp {
            ret := 1;
            rcvTimerExp := false;
          } else {
            ret := 0;
          }
        case SetDroptail =>
          droptail := num;
        case GetDroptail =>
          ret := droptail;
        case Other =>
          ret := 0;
      }
    }
  }
}
