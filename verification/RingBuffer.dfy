/** Bounded ring buffers. The UART rings, the command queue and the CAN receive queues all
    keep a fixed array with head, tail and count. */
module RingBuffer {

  /** Slot k places after `head` in a ring of `cap` slots. */
  function Slot(head: int, k: int, cap: int): int { if head + k < cap then head + k else head + k - cap }

  lemma SlotIsModulo(head: int, k: int, cap: int)
    requires 0 <= head < cap && 0 <= k <= cap
    ensures Slot(head, k, cap) == (head + k) % cap
  {
    if head + k >= cap {
      ModuloUnique(head + k, head + k - cap, 1, cap);
    } else {
      ModuloUnique(head + k, head + k, 0, cap);
    }
  }

  lemma ModuloUnique(a: int, r: int, q: int, cap: int)
    requires 0 <= r < cap && a == q * cap + r && 0 <= q <= 1
    ensures a % cap == r
  {
  }

  /** The ring state `slots`, `head`, `tail`, `count` stands for the queue `q`, oldest first. */
  ghost predicate Holds<T>(slots: seq<T>, head: int, tail: int, count: int, q: seq<T>) {
    && 0 <= head < |slots| && count == |q| <= |slots|
    && tail == Slot(head, count, |slots|)
    && forall k :: 0 <= k < |q| ==> slots[Slot(head, k, |slots|)] == q[k]
  }

  lemma PushHolds<T>(slots: seq<T>, head: int, tail: int, q: seq<T>, x: T)
    requires Holds(slots, head, tail, |q|, q) && |q| < |slots|
    ensures 0 <= tail < |slots|
    ensures Holds(slots[tail := x], head, (tail + 1) % |slots|, |q| + 1, q + [x])
  {
    SlotIsModulo(tail, 1, |slots|);
  }

  lemma PopHolds<T>(slots: seq<T>, head: int, tail: int, q: seq<T>)
    requires Holds(slots, head, tail, |q|, q) && q != []
    ensures 0 <= head < |slots| && slots[head] == q[0]
    ensures Holds(slots, (head + 1) % |slots|, tail, |q| - 1, q[1..])
  {
    SlotIsModulo(head, 1, |slots|);
    assert slots[Slot(head, 0, |slots|)] == q[0];
    assert forall k :: 0 <= k < |q| - 1 ==>
      Slot(Slot(head, 1, |slots|), k, |slots|) == Slot(head, k + 1, |slots|) && q[1..][k] == q[k + 1];
  }

  lemma CountHolds<T>(slots: seq<T>, head: int, tail: int, count: int, q: seq<T>)
    requires Holds(slots, head, tail, count, q)
    ensures count == |q| <= |slots|
  {
  }

  class Ring<T(0)> {
    const slots: array<T>
    var head: int
    var tail: int
    var count: int
    ghost var items: seq<T>

    ghost predicate Valid()
      reads this, slots
    {
      slots.Length > 0 && Holds(slots[..], head, tail, count, items)
    }

    constructor (capacity: nat)
      requires capacity > 0
      ensures Valid() && fresh(slots) && slots.Length == capacity && items == []
    {
      slots := new T[capacity];
      head, tail, count, items := 0, 0, 0, [];
    }

    method Clear()
      requires Valid()
      modifies this
      ensures Valid() && items == []
    {
      head, tail, count, items := 0, 0, 0, [];
    }

    /** A full ring refuses the new item. */
    method Push(x: T) returns (ok: bool)
      requires Valid()
      modifies this, slots
      ensures Valid()
      ensures ok == (|old(items)| < slots.Length)
      ensures items == if ok then old(items) + [x] else old(items)
    {
      ok := count < slots.Length;
      if ok {
        PushHolds(slots[..], head, tail, items, x);
        ghost var was := slots[..];
        slots[tail] := x;
        assert slots[..] == was[tail := x];
        tail := (tail + 1) % slots.Length;
        count := count + 1;
        items := items + [x];
      }
    }

    method Pop() returns (ok: bool, x: T)
      requires Valid()
      modifies this
      ensures Valid()
      ensures ok == (old(items) != [])
      ensures ok ==> old(items) == [x] + items
      ensures !ok ==> items == []
    {
      ok := count > 0;
      x := slots[head];
      if ok {
        PopHolds(slots[..], head, tail, items);
        head := (head + 1) % slots.Length;
        count := count - 1;
        items := items[1..];
      }
    }

    /** Move up to `max` items into `dst`, oldest first. */
    method Drain(dst: array<T>, max: int) returns (n: int)
      requires Valid() && max <= dst.Length && dst != slots
      modifies this, dst
      ensures Valid()
      ensures n == (if max < 0 then 0 else if max < |old(items)| then max else |old(items)|)
      ensures dst[..n] + items == old(items)
      ensures forall k :: n <= k < dst.Length ==> dst[k] == old(dst[k])
    {
      hide Holds;
      n := 0;
      CountHolds(slots[..], head, tail, count, items);
      while n < max && count > 0
        invariant Valid() && 0 <= n <= dst.Length && (n == 0 || n <= max)
        invariant count == |items|
        invariant dst[..n] + items == old(items)
        invariant forall k :: n <= k < dst.Length ==> dst[k] == old(dst[k])
      {
        PopHolds(slots[..], head, tail, items);
        dst[n] := slots[head];
        n := n + 1;
        head := (head + 1) % slots.Length;
        count := count - 1;
        items := items[1..];
      }
    }
  }
}
