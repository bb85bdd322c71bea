/** The UART port of one chip: the byte rings between socket and firmware, and the coalescer
    that drops repeated synchronisation requests. */
module UartStream {
  import opened Bytes
  import opened RingBuffer

  const CAP := 4096
  const WINDOW := 100_000_000

  type Batch = seq<Byte>

  /** A request of exactly two bytes. */
  predicate IsSync(b: Batch) { b == [0x30, 0x20] }

  // ----- the coalescer on values -----

  /** One receive call: its bytes and the clock, which the program reads for requests only. */
  datatype Arrival = Arrival(batch: Batch, now: int)

  predicate Dropped(last: int, a: Arrival) { IsSync(a.batch) && a.now - last < WINDOW }

  function NextLast(last: int, a: Arrival): int {
    if IsSync(a.batch) && !Dropped(last, a) then a.now else last
  }

  /** last_sync_ns after the arrivals `arr`, which follow a reset. */
  function LastSync(arr: seq<Arrival>): int {
    if arr == [] then 0 else NextLast(LastSync(arr[..|arr| - 1]), arr[|arr| - 1])
  }

  /** Whether arrival k was dropped. */
  predicate WasDropped(arr: seq<Arrival>, k: nat)
    requires k < |arr|
  {
    Dropped(LastSync(arr[..k]), arr[k])
  }

  predicate Forwarded(arr: seq<Arrival>, k: nat)
    requires k < |arr|
  {
    IsSync(arr[k].batch) && !WasDropped(arr, k)
  }

  /** The clock never goes back, and by the first request it has passed 100 ms. */
  predicate ClockRuns(arr: seq<Arrival>) {
    && (forall i, j :: 0 <= i < j < |arr| ==> arr[i].now <= arr[j].now)
    && (forall i :: 0 <= i < |arr| ==> arr[i].now >= WINDOW)
  }

  /** The forwarded request that last_sync_ns remembers. */
  lemma {:induction false} LastSyncIsForwarded(arr: seq<Arrival>) returns (k: int)
    ensures k == -1 ==> LastSync(arr) == 0 && forall i :: 0 <= i < |arr| ==> !Forwarded(arr, i)
    ensures k != -1 ==> 0 <= k < |arr| && Forwarded(arr, k) && LastSync(arr) == arr[k].now
    ensures k != -1 ==> forall i :: k < i < |arr| ==> !Forwarded(arr, i)
  {
    if arr == [] {
      k := -1;
    } else {
      var front, n := arr[..|arr| - 1], |arr| - 1;
      k := LastSyncIsForwarded(front);
      PrefixSame(arr, n);
      assert arr[..n] == front;
      if Forwarded(arr, n) {
        k := n;
      }
    }
  }

  lemma PrefixSame(arr: seq<Arrival>, n: nat)
    requires n <= |arr|
    ensures forall i :: 0 <= i < n ==> WasDropped(arr[..n], i) == WasDropped(arr, i) && Forwarded(arr[..n], i) == Forwarded(arr, i)
  {
    forall i | 0 <= i < n
      ensures WasDropped(arr[..n], i) == WasDropped(arr, i) && Forwarded(arr[..n], i) == Forwarded(arr, i)
    {
      assert arr[..n][..i] == arr[..i];
    }
  }

  /** Forwarded requests are at least 100 ms apart. */
  lemma ForwardedApart(arr: seq<Arrival>, i: nat, j: nat)
    requires ClockRuns(arr) && i < j < |arr| && Forwarded(arr, i) && Forwarded(arr, j)
    ensures arr[j].now - arr[i].now >= 100_000_000
  {
    var k := LastSyncIsForwarded(arr[..j]);
    PrefixSame(arr, j);
    assert k >= i;
  }

  /** A dropped batch is exactly a request, and comes within 100 ms after a forwarded one, with
      no other forwarded in between. */
  lemma DroppedAfterForwarded(arr: seq<Arrival>, j: nat) returns (i: nat)
    requires ClockRuns(arr) && j < |arr| && WasDropped(arr, j)
    ensures i < j && arr[j].batch == [0x30, 0x20] && arr[i].batch == [0x30, 0x20]
    ensures Forwarded(arr, i) && arr[j].now - arr[i].now < 100_000_000
    ensures forall k :: i < k < j ==> !Forwarded(arr, k)
  {
    var k := LastSyncIsForwarded(arr[..j]);
    PrefixSame(arr, j);
    i := k;
  }

  /** A batch is dropped exactly when it is the two bytes 0x30 0x20 and such a batch was
      forwarded less than 100 ms before. */
  lemma DroppedExactly(arr: seq<Arrival>, j: nat)
    requires ClockRuns(arr) && j < |arr|
    ensures WasDropped(arr, j) <==>
      && arr[j].batch == [0x30, 0x20]
      && exists i :: 0 <= i < j && arr[i].batch == [0x30, 0x20] && !WasDropped(arr, i) && arr[j].now - arr[i].now < 100_000_000
  {
    if WasDropped(arr, j) {
      var i := DroppedAfterForwarded(arr, j);
      assert arr[i].batch == [0x30, 0x20];
    } else if arr[j].batch == [0x30, 0x20] {
      forall i | 0 <= i < j && arr[i].batch == [0x30, 0x20] && !WasDropped(arr, i)
        ensures arr[j].now - arr[i].now >= 100_000_000
      {
        assert Forwarded(arr, i) && Forwarded(arr, j);
        ForwardedApart(arr, i, j);
      }
    }
  }

  /** Just after the clock's zero the first request is lost, although nothing precedes it:
      exactly when it comes before 100 ms. */
  lemma FirstRequest(arr: seq<Arrival>, j: nat)
    requires j < |arr| && arr[j].batch == [0x30, 0x20] && forall i :: 0 <= i < j ==> arr[i].batch != [0x30, 0x20]
    ensures WasDropped(arr, j) <==> arr[j].now < 100_000_000
  {
    var k := LastSyncIsForwarded(arr[..j]);
    PrefixSame(arr, j);
  }

  // ----- the port object -----

  function Room(q: seq<Byte>, b: Batch): (n: nat)
    ensures n <= |b|
  {
    if |q| + |b| <= CAP then |b| else if |q| <= CAP then CAP - |q| else 0
  }

  lemma RoomFills(q: seq<Byte>, b: Batch)
    requires |q| <= CAP
    ensures |q| + Room(q, b) <= CAP && (Room(q, b) < |b| ==> |q| + Room(q, b) == CAP)
  {
  }

  /** The first i bytes, as far as they fit. */
  function Taken(b: Batch, i: nat, fit: nat): (t: seq<Byte>)
    requires i <= |b| && fit <= |b|
    ensures |t| == if i <= fit then i else fit
  {
    b[..if i <= fit then i else fit]
  }

  lemma TakenNext(was: seq<Byte>, b: Batch, i: nat, fit: nat)
    requires i < |b| && fit <= |b|
    ensures was + Taken(b, i + 1, fit) == if i < fit then was + Taken(b, i, fit) + [b[i]] else was + Taken(b, i, fit)
  {
  }

  // ----- the receive direction over runs -----

  /** The socket thread receives, or the firmware takes a byte. */
  datatype PortEvent = In(a: Arrival) | Take

  datatype Port = Port(last: int, items: seq<Byte>, taken: seq<Byte>)

  function Next(p: Port, e: PortEvent): Port {
    match e
    case In(a) =>
      Port(NextLast(p.last, a), if Dropped(p.last, a) then p.items else p.items + a.batch[..Room(p.items, a.batch)], p.taken)
    case Take => if p.items == [] then p else p.(items := p.items[1..], taken := p.taken + [p.items[0]])
  }

  function RunPort(es: seq<PortEvent>): Port {
    if es == [] then Port(0, [], []) else Next(RunPort(es[..|es| - 1]), es[|es| - 1])
  }

  /** The bytes of all batches that were not dropped, each cut to the room it met. */
  function Accepted(es: seq<PortEvent>): seq<Byte> {
    if es == [] then []
    else
      var front, e := es[..|es| - 1], es[|es| - 1];
      Accepted(front) +
        if e.In? && !Dropped(RunPort(front).last, e.a) then e.a.batch[..Room(RunPort(front).items, e.a.batch)] else []
  }

  /** The bytes of all batches that were not dropped, whole. */
  function Offered(es: seq<PortEvent>): seq<Byte> {
    if es == [] then []
    else
      var front, e := es[..|es| - 1], es[|es| - 1];
      Offered(front) + if e.In? && !Dropped(RunPort(front).last, e.a) then e.a.batch else []
  }

  /** Every batch met enough room. */
  predicate NoOverflow(es: seq<PortEvent>) {
    es == [] || (
      var front, e := es[..|es| - 1], es[|es| - 1];
      NoOverflow(front) && (e.In? ==> |RunPort(front).items| + |e.a.batch| <= 4096))
  }

  /** Nothing is duplicated, reordered or invented: what the firmware has taken, followed by
      what the ring holds, are the accepted bytes in order; the ring stays within its size; and
      when every batch met room, the accepted bytes are all that was forwarded. */
  lemma {:induction false} StreamIntact(es: seq<PortEvent>)
    ensures RunPort(es).taken + RunPort(es).items == Accepted(es)
    ensures |RunPort(es).items| <= 4096
    ensures NoOverflow(es) ==> Accepted(es) == Offered(es)
  {
    if es != [] {
      var front, e := es[..|es| - 1], es[|es| - 1];
      StreamIntact(front);
      var p, q := RunPort(front), RunPort(es);
      if e.In? && !Dropped(p.last, e.a) {
        var b := e.a.batch;
        RoomFills(p.items, b);
        assert q.taken + q.items == (p.taken + p.items) + b[..Room(p.items, b)];
        assert Room(p.items, b) == |b| ==> b[..Room(p.items, b)] == b;
      } else if e.Take? && p.items != [] {
        assert q.taken + q.items == p.taken + ([p.items[0]] + p.items[1..]);
        assert [p.items[0]] + p.items[1..] == p.items;
      }
    }
  }

  class UartPort {
    const tx: Ring<Byte>
    const rx: Ring<Byte>
    var lastSync: int

    ghost predicate Valid()
      reads tx, rx, tx.slots, rx.slots
    {
      && tx.Valid() && rx.Valid() && tx != rx && tx.slots != rx.slots
      && tx.slots.Length == CAP && rx.slots.Length == CAP
    }

    constructor ()
      ensures Valid() && fresh(tx) && fresh(rx) && fresh(tx.slots) && fresh(rx.slots)
      ensures tx.items == [] && rx.items == [] && lastSync == 0
    {
      tx := new Ring<Byte>(CAP);
      rx := new Ring<Byte>(CAP);
      lastSync := 0;
    }

    /** A new client starts with empty rings and a fresh coalescer. */
    method ResetStreams()
      requires Valid()
      modifies this, tx, rx
      ensures Valid() && tx.items == [] && rx.items == [] && lastSync == 0
    {
      tx.Clear();
      rx.Clear();
      lastSync := 0;
    }

    /** Bytes that do not fit are lost; the others keep their order. */
    method PushBatch(b: Batch)
      requires Valid()
      modifies rx, rx.slots
      ensures Valid() && rx.items == old(rx.items) + b[..Room(old(rx.items), b)]
    {
      ghost var was := rx.items;
      ghost var fit := Room(was, b);
      CountHolds(rx.slots[..], rx.head, rx.tail, rx.count, rx.items);
      hide Holds, Room;
      assert |was| + fit <= CAP && (fit < |b| ==> |was| + fit == CAP) by {
        RoomFills(was, b);
      }
      for i := 0 to |b|
        invariant Valid() && rx.items == was + Taken(b, i, fit)
      {
        TakenNext(was, b, i, fit);
        hide Taken;
        var ok := rx.Push(b[i]);
      }
    }

    /** One batch from the client's socket at time `now`. */
    method OnReceive(b: Batch, now: int) returns (drop: bool)
      requires Valid() && b != []
      modifies this`lastSync, rx, rx.slots
      ensures Valid() && drop == Dropped(old(lastSync), Arrival(b, now))
      ensures lastSync == NextLast(old(lastSync), Arrival(b, now))
      ensures rx.items == if drop then old(rx.items) else old(rx.items) + b[..Room(old(rx.items), b)]
    {
      drop := false;
      if |b| == 2 && b[0] == 0x30 && b[1] == 0x20 {
        assert b == [0x30, 0x20];
        if now - lastSync < WINDOW {
          drop := true;
        } else {
          lastSync := now;
        }
      }
      if !drop {
        PushBatch(b);
      }
    }

    /** The firmware takes the oldest byte. */
    method PopRx() returns (ok: bool, b: Byte)
      requires Valid()
      modifies rx
      ensures Valid() && ok == (old(rx.items) != [])
      ensures if ok then old(rx.items) == [b] + rx.items else rx.items == []
    {
      ok, b := rx.Pop();
    }

    method PushTx(b: Byte)
      requires Valid()
      modifies tx, tx.slots
      ensures Valid() && tx.items == if |old(tx.items)| < CAP then old(tx.items) + [b] else old(tx.items)
    {
      var ok := tx.Push(b);
    }

    /** Empty the transmit ring; what it held goes to the client, if there is one. */
    method FlushTx(client: bool) returns (sent: seq<Byte>)
      requires Valid()
      modifies tx
      ensures Valid() && tx.items == [] && sent == if client then old(tx.items) else []
    {
      var buf := new Byte[CAP](_ => 0);
      if tx.count == 0 {
        CountHolds(tx.slots[..], tx.head, tx.tail, tx.count, tx.items);
        return [];
      }
      CountHolds(tx.slots[..], tx.head, tx.tail, tx.count, tx.items);
      var n := tx.Drain(buf, CAP);
      sent := if client then buf[..n] else [];
    }
  }
}
