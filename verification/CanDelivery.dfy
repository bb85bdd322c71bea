/** The threaded CAN fan-out: four ECU threads and the command thread pass frames through four
    bounded queues. Every lock operation and every assignment to a shared queue field is a
    step of its own, and the theorems hold for every interleaving. */
module CanDelivery {
  import opened Mcp2515Regs
  import opened RingBuffer

  const CAP := 32
  const FREE := -1
  const COMMAND := 4

  /** The no-th broadcast of thread `src`. The number is not in the program: it tells equal
      frames apart. */
  datatype Msg = Msg(src: nat, no: nat, frame: Frame)

  /** A message that reached a queue, and whether the queue took it. */
  datatype Arrival = Arrival(msg: Msg, kept: bool)

  datatype Stage = Want | Test | Wrote | Moved | Leave

  /** Where a thread is. Top to Drained are the drain loop of an ECU thread, Exec its
      instruction batch, Send one broadcast; Idle and Meddle belong to the command thread. */
  datatype Pc =
    | Top
    | Check
    | Took(m: Msg)
    | Advanced(m: Msg)
    | Counted(m: Msg)
    | Carry(m: Msg)
    | Deliver(m: Msg)
    | Served
    | Again
    | Drained
    | Exec
    | Send(m: Msg, at: nat, stage: Stage)
    | Idle
    | Meddle(chip: nat)

  /** One receiver: its queue with the queue lock's owner, what the queue stands for, every
      message that reached it, and what was handed to its controller. */
  datatype Target = Target(
    owner: int, slots: seq<Msg>, head: int, tail: int, count: int,
    queue: seq<Msg>, arrivals: seq<Arrival>, handed: seq<Msg>)

  datatype State = State(pcs: seq<Pc>, targets: seq<Target>, avr: seq<int>, sent: seq<seq<Frame>>)

  /** `Go` is the thread's next step; `Emit` starts a broadcast; `Rest` ends a loop iteration
      of an ECU thread; `Touch` takes a chip's lock for a command. */
  datatype Move = Go(i: nat) | Emit(i: nat, f: Frame) | Rest(i: nat) | Touch(chip: nat)

  predicate PcShape(pc: Pc, i: nat) {
    && (pc.Send? ==> pc.at <= 4 && (pc.stage != Want ==> pc.at < 4 && pc.at != i))
    && (pc.Meddle? ==> pc.chip < 4)
    && (i == COMMAND <==> pc.Idle? || pc.Meddle? || (pc.Send? && i == COMMAND))
  }

  predicate Shape(st: State) {
    && |st.pcs| == 5 && |st.targets| == 4 && |st.avr| == 4 && |st.sent| == 5
    && (forall i :: 0 <= i < 5 ==> PcShape(st.pcs[i], i))
    && (forall t :: 0 <= t < 4 ==> TargetShape(st.targets[t]))
  }

  predicate TargetShape(x: Target) {
    |x.slots| == CAP && 0 <= x.head < CAP && 0 <= x.tail < CAP
  }

  predicate Enabled(st: State, m: Move)
    requires Shape(st)
  {
    match m
    case Go(i) =>
      && i < 5
      && (match st.pcs[i]
          case Top => st.targets[i].owner == FREE
          case Again => st.targets[i].owner == FREE
          case Carry(_) => st.avr[i] == FREE
          case Drained => st.avr[i] == FREE
          case Send(_, at, Want) => at == 4 || at == i || st.targets[at].owner == FREE
          case Idle => false
          case _ => true)
    case Emit(i, f) => i < 5 && (st.pcs[i] == Exec || st.pcs[i] == Idle)
    case Rest(i) => i < 4 && st.pcs[i] == Drained
    case Touch(k) => k < 4 && st.pcs[COMMAND] == Idle && st.avr[k] == FREE
  }

  function At(st: State, i: nat, pc: Pc): State
    requires i < |st.pcs|
  {
    st.(pcs := st.pcs[i := pc])
  }

  function Put(st: State, t: nat, x: Target): State
    requires t < |st.targets|
  {
    st.(targets := st.targets[t := x])
  }

  function Own(st: State, k: nat, owner: int): State
    requires k < |st.avr|
  {
    st.(avr := st.avr[k := owner])
  }

  /** One step of thread i at the queue it is broadcasting to. */
  function Enqueue(x: Target, i: nat, m: Msg, at: nat, stage: Stage): (r: (Target, Pc))
    requires TargetShape(x)
    ensures TargetShape(r.0)
  {
    match stage
    case Want => (x.(owner := i), Send(m, at, Test))
    case Test =>
      if x.count < CAP then (x.(slots := x.slots[x.tail := m]), Send(m, at, Wrote))
      else (x.(arrivals := x.arrivals + [Arrival(m, false)]), Send(m, at, Leave))
    case Wrote => (x.(tail := (x.tail + 1) % CAP), Send(m, at, Moved))
    case Moved =>
      (x.(count := x.count + 1, queue := x.queue + [m], arrivals := x.arrivals + [Arrival(m, true)]),
       Send(m, at, Leave))
    case Leave => (x.(owner := FREE), Send(m, at + 1, Want))
  }

  function Sending(st: State, i: nat, m: Msg, at: nat, stage: Stage): State
    requires Shape(st) && i < 5 && st.pcs[i] == Send(m, at, stage)
  {
    if at == 4 then At(st, i, if i == COMMAND then Idle else Exec)
    else if at == i then At(st, i, Send(m, at + 1, Want))
    else
      var (x, pc) := Enqueue(st.targets[at], i, m, at, stage);
      At(Put(st, at, x), i, pc)
  }

  /** One step of ECU thread i outside a broadcast, as far as its own queue is concerned. */
  function Dequeue(x: Target, i: nat, pc: Pc): (r: (Target, Pc))
    requires TargetShape(x)
    ensures TargetShape(r.0)
  {
    match pc
    case Top => (x.(owner := i), Check)
    case Again => (x.(owner := i), Check)
    case Check =>
      if x.count > 0 then (x.(queue := if x.queue == [] then [] else x.queue[1..]), Took(x.slots[x.head]))
      else (x.(owner := FREE), Drained)
    case Took(m) => (x.(head := (x.head + 1) % CAP), Advanced(m))
    case Advanced(m) => (x.(count := x.count - 1), Counted(m))
    case Counted(m) => (x.(owner := FREE), Carry(m))
    case Carry(m) => (x, Deliver(m))
    case Deliver(m) => (x.(handed := x.handed + [m]), Served)
    case Served => (x, Again)
    case Drained => (x, Exec)
    case Exec => (x, Drained)
    case _ => (x, pc)
  }

  function Draining(st: State, i: nat): State
    requires Shape(st) && i < 4
  {
    var (x, pc) := Dequeue(st.targets[i], i, st.pcs[i]);
    var d := At(Put(st, i, x), i, pc);
    match st.pcs[i]
    case Carry(_) => Own(d, i, i)
    case Drained => Own(d, i, i)
    case Served => Own(d, i, FREE)
    case Exec => Own(d, i, FREE)
    case _ => d
  }

  function Step(st: State, m: Move): State
    requires Shape(st) && Enabled(st, m)
  {
    match m
    case Go(i) =>
      if st.pcs[i].Send? then Sending(st, i, st.pcs[i].m, st.pcs[i].at, st.pcs[i].stage)
      else if i == COMMAND then At(Own(st, st.pcs[i].chip, FREE), i, Idle)
      else Draining(st, i)
    case Emit(i, f) =>
      At(st, i, Send(Msg(i, |st.sent[i]|, f), 0, Want)).(sent := st.sent[i := st.sent[i] + [f]])
    case Rest(i) => At(st, i, Top)
    case Touch(k) => At(Own(st, k, COMMAND), COMMAND, Meddle(k))
  }

  // ----- histories -----

  /** The messages of `ms` that come from thread s. */
  function From(ms: seq<Msg>, s: nat): (r: seq<Msg>) {
    if ms == [] then []
    else
      var front, last := ms[..|ms| - 1], ms[|ms| - 1];
      From(front, s) + if last.src == s then [last] else []
  }

  function All(a: seq<Arrival>): (r: seq<Msg>)
    ensures |r| == |a| && forall k :: 0 <= k < |a| ==> r[k] == a[k].msg
  {
    seq(|a|, k requires 0 <= k < |a| => a[k].msg)
  }

  /** The messages that the queue took, or that it turned away. */
  function Chosen(a: seq<Arrival>, kept: bool): (r: seq<Msg>) {
    if a == [] then []
    else
      var front, last := a[..|a| - 1], a[|a| - 1];
      Chosen(front, kept) + if last.kept == kept then [last.msg] else []
  }

  /** The first d broadcasts of thread s. */
  function Numbered(s: nat, fs: seq<Frame>, d: nat): (r: seq<Msg>)
    requires d <= |fs|
    ensures |r| == d && forall k :: 0 <= k < d ==> r[k] == Msg(s, k, fs[k])
  {
    seq(d, k requires 0 <= k < d => Msg(s, k, fs[k]))
  }

  /** The message that thread t has taken out of its queue and not yet handed over. */
  function InFlight(pc: Pc): (r: seq<Msg>)
    ensures |r| <= 1
  {
    match pc
    case Took(m) => [m]
    case Advanced(m) => [m]
    case Counted(m) => [m]
    case Carry(m) => [m]
    case Deliver(m) => [m]
    case _ => []
  }

  /** How many of its n broadcasts a thread at `pc` has taken past queue t. */
  function Passed(pc: Pc, n: nat, t: nat): nat {
    if n > 0 && pc.Send? && (t > pc.at || (t == pc.at && pc.stage != Leave)) then n - 1 else n
  }

  // ----- the invariant -----

  predicate HoldsQueue(pc: Pc, i: nat, t: nat) {
    match pc
    case Send(_, at, stage) => at == t && stage != Want
    case _ => i == t && (pc.Check? || pc.Took? || pc.Advanced? || pc.Counted?)
  }

  predicate HoldsAvr(pc: Pc, i: nat, k: nat) {
    match pc
    case Meddle(chip) => k == chip
    case _ => i == k && (pc.Deliver? || pc.Served? || pc.Exec? || pc.Send?)
  }

  ghost predicate Locks(st: State)
    requires Shape(st)
  {
    && (forall t :: 0 <= t < 4 ==> FREE <= st.targets[t].owner < 5)
    && (forall k :: 0 <= k < 4 ==> FREE <= st.avr[k] < 5)
    && (forall i, t :: 0 <= i < 5 && 0 <= t < 4 ==> (st.targets[t].owner == i <==> HoldsQueue(st.pcs[i], i, t)))
    && (forall i, k :: 0 <= i < 5 && 0 <= k < 4 ==> (st.avr[k] == i <==> HoldsAvr(st.pcs[i], i, k)))
  }

  /** The queue fields, read with what the lock owner at `pc` has done so far, hold `x.queue`. */
  ghost predicate RingOk(x: Target, pc: Pc)
    requires TargetShape(x)
  {
    match pc
    case Took(_) => Holds(x.slots, (x.head + 1) % CAP, x.tail, x.count - 1, x.queue)
    case Advanced(_) => Holds(x.slots, x.head, x.tail, x.count - 1, x.queue)
    case Send(m, _, Wrote) => Holds(x.slots, x.head, x.tail, x.count, x.queue) && x.count < CAP && x.slots[x.tail] == m
    case Send(m, _, Moved) => Holds(x.slots, x.head, x.tail, x.count + 1, x.queue + [m])
    case _ => Holds(x.slots, x.head, x.tail, x.count, x.queue)
  }

  function OwnerPc(st: State, t: nat): Pc
    requires Shape(st) && t < 4
  {
    if 0 <= st.targets[t].owner < 5 then st.pcs[st.targets[t].owner] else Top
  }

  ghost predicate Rings(st: State)
    requires Shape(st)
  {
    forall t :: 0 <= t < 4 ==> RingOk(st.targets[t], OwnerPc(st, t))
  }

  ghost predicate Conserved(x: Target, pc: Pc) {
    Chosen(x.arrivals, true) == x.handed + InFlight(pc) + x.queue
  }

  ghost predicate Conservation(st: State)
    requires Shape(st)
  {
    forall t :: 0 <= t < 4 ==> Conserved(st.targets[t], st.pcs[t])
  }

  /** A thread inside a broadcast is sending its latest frame. */
  predicate Latest(pc: Pc, s: nat, fs: seq<Frame>) {
    pc.Send? ==> |fs| > 0 && pc.m == Msg(s, |fs| - 1, fs[|fs| - 1])
  }

  /** What reached a queue from thread s are exactly the broadcasts that s has taken past it. */
  ghost predicate Traced(x: Target, t: nat, s: nat, pc: Pc, fs: seq<Frame>) {
    From(All(x.arrivals), s) == if s == t then [] else Numbered(s, fs, Passed(pc, |fs|, t))
  }

  ghost predicate Provenance(st: State)
    requires Shape(st)
  {
    && (forall s :: 0 <= s < 5 ==> Latest(st.pcs[s], s, st.sent[s]))
    && (forall t, s :: 0 <= t < 4 && 0 <= s < 5 ==> Traced(st.targets[t], t, s, st.pcs[s], st.sent[s]))
    && (forall t, k :: 0 <= t < 4 && 0 <= k < |st.targets[t].arrivals| ==> st.targets[t].arrivals[k].msg.src < 5)
  }

  ghost predicate Inv(st: State) {
    Shape(st) && Locks(st) && Rings(st) && Conservation(st) && Provenance(st)
  }

  // ----- every step keeps it -----

  lemma SendingShape(st: State, i: nat)
    requires Shape(st) && i < 5 && st.pcs[i].Send?
    ensures Shape(Sending(st, i, st.pcs[i].m, st.pcs[i].at, st.pcs[i].stage))
  {
  }

  lemma DrainingShape(st: State, i: nat)
    requires Shape(st) && i < 4 && !st.pcs[i].Send?
    ensures Shape(Draining(st, i))
  {
  }

  lemma StepShape(st: State, m: Move)
    requires Shape(st) && Enabled(st, m)
    ensures Shape(Step(st, m))
  {
    hide Sending, Draining;
    if m.Go? && st.pcs[m.i].Send? {
      SendingShape(st, m.i);
    } else if m.Go? && m.i != COMMAND {
      DrainingShape(st, m.i);
    }
  }

  /** Thread i keeps a lock, takes it while it is free, or gives it back. */
  predicate Handover(before: int, after: int, i: nat, held: bool, holds: bool) {
    || (after == before && holds == held)
    || (before == FREE && after == i && holds)
    || (before == i && after == FREE && !holds)
  }

  /** Only thread i moves, and it moves its own locks. */
  ghost predicate OwnLocks(a: State, b: State, i: nat)
    requires Shape(a) && Shape(b) && i < 5
  {
    && (forall j :: 0 <= j < 5 && j != i ==> b.pcs[j] == a.pcs[j])
    && (forall t :: 0 <= t < 4 ==>
          Handover(a.targets[t].owner, b.targets[t].owner, i, HoldsQueue(a.pcs[i], i, t), HoldsQueue(b.pcs[i], i, t)))
    && (forall k :: 0 <= k < 4 ==>
          Handover(a.avr[k], b.avr[k], i, HoldsAvr(a.pcs[i], i, k), HoldsAvr(b.pcs[i], i, k)))
  }

  lemma OwnLocksKeep(a: State, b: State, i: nat)
    requires Shape(a) && Shape(b) && i < 5 && Locks(a) && OwnLocks(a, b, i)
    ensures Locks(b)
  {
    hide HoldsQueue, HoldsAvr;
    forall j, t | 0 <= j < 5 && 0 <= t < 4
      ensures b.targets[t].owner == j <==> HoldsQueue(b.pcs[j], j, t)
      ensures FREE <= b.targets[t].owner < 5
    {
      assert a.targets[t].owner == j <==> HoldsQueue(a.pcs[j], j, t);
      assert a.targets[t].owner == i <==> HoldsQueue(a.pcs[i], i, t);
    }
    forall j, k | 0 <= j < 5 && 0 <= k < 4
      ensures b.avr[k] == j <==> HoldsAvr(b.pcs[j], j, k)
      ensures FREE <= b.avr[k] < 5
    {
      assert a.avr[k] == j <==> HoldsAvr(a.pcs[j], j, k);
      assert a.avr[k] == i <==> HoldsAvr(a.pcs[i], i, k);
    }
  }

  lemma SendingLocks(st: State, i: nat)
    requires Shape(st) && Locks(st) && Enabled(st, Go(i)) && st.pcs[i].Send?
    ensures var b := Sending(st, i, st.pcs[i].m, st.pcs[i].at, st.pcs[i].stage); Shape(b) && OwnLocks(st, b, i)
  {
    SendingShape(st, i);
    assert forall t :: 0 <= t < 4 ==> (st.targets[t].owner == i <==> HoldsQueue(st.pcs[i], i, t));
  }

  lemma DrainingQueueLocks(st: State, i: nat)
    requires Shape(st) && Locks(st) && Enabled(st, Go(i)) && i < 4 && !st.pcs[i].Send?
    ensures var b := Draining(st, i);
      forall t :: 0 <= t < 4 ==>
        Handover(st.targets[t].owner, b.targets[t].owner, i, HoldsQueue(st.pcs[i], i, t), HoldsQueue(b.pcs[i], i, t))
  {
    assert forall t :: 0 <= t < 4 ==> (st.targets[t].owner == i <==> HoldsQueue(st.pcs[i], i, t));
  }

  lemma DrainingAvrLocks(st: State, i: nat)
    requires Shape(st) && Locks(st) && Enabled(st, Go(i)) && i < 4 && !st.pcs[i].Send?
    ensures var b := Draining(st, i);
      forall k :: 0 <= k < 4 ==>
        Handover(st.avr[k], b.avr[k], i, HoldsAvr(st.pcs[i], i, k), HoldsAvr(b.pcs[i], i, k))
  {
    assert forall k :: 0 <= k < 4 ==> (st.avr[k] == i <==> HoldsAvr(st.pcs[i], i, k));
  }

  lemma OtherLocks(st: State, m: Move)
    requires Shape(st) && Locks(st) && Enabled(st, m) && (m.Go? ==> m.i == COMMAND && !st.pcs[m.i].Send?)
    ensures Shape(Step(st, m)) && OwnLocks(st, Step(st, m), Mover(m))
  {
    hide Sending, Draining;
    StepShape(st, m);
    var i := Mover(m);
    assert forall t :: 0 <= t < 4 ==> (st.targets[t].owner == i <==> HoldsQueue(st.pcs[i], i, t));
    assert forall k :: 0 <= k < 4 ==> (st.avr[k] == i <==> HoldsAvr(st.pcs[i], i, k));
  }

  function Mover(m: Move): nat { if m.Touch? then COMMAND else m.i }

  lemma StepLocks(st: State, m: Move)
    requires Shape(st) && Locks(st) && Enabled(st, m)
    ensures Shape(Step(st, m)) && OwnLocks(st, Step(st, m), Mover(m)) && Locks(Step(st, m))
  {
    hide Sending, Draining, Locks, HoldsAvr, HoldsQueue, Handover;
    StepShape(st, m);
    if m.Go? && st.pcs[m.i].Send? {
      SendingLocks(st, m.i);
    } else if m.Go? && m.i != COMMAND {
      DrainingQueueLocks(st, m.i);
      DrainingAvrLocks(st, m.i);
      DrainingMoves(st, m.i);
    } else {
      OtherLocks(st, m);
    }
    OwnLocksKeep(st, Step(st, m), Mover(m));
  }

  lemma DrainingMoves(st: State, i: nat)
    requires Shape(st) && i < 4
    ensures var b := Draining(st, i);
      && (forall j :: 0 <= j < 5 && j != i && j < |b.pcs| ==> b.pcs[j] == st.pcs[j])
      && |b.targets| == 4 && (forall t :: 0 <= t < 4 && t != i ==> b.targets[t] == st.targets[t])
      && b.sent == st.sent
  {
  }

  // ----- the queue fields stand for the queue -----

  function Phase(pc: Pc): Pc { if pc.Send? && pc.stage == Want then Top else pc }

  lemma EnqueueRing(x: Target, i: nat, m: Msg, at: nat, stage: Stage)
    requires TargetShape(x) && RingOk(x, Phase(Send(m, at, stage)))
    ensures var (y, pc) := Enqueue(x, i, m, at, stage); RingOk(y, Phase(pc))
  {
    if stage == Wrote {
      PushHolds(x.slots, x.head, x.tail, x.queue, m);
      assert x.slots[x.tail := m] == x.slots;
    } else if stage == Test && x.count < CAP {
      PushHolds(x.slots, x.head, x.tail, x.queue, m);
      WriteFreeSlot(x.slots, x.head, x.tail, x.queue, m);
    }
  }

  /** Writing the slot after the last item does not disturb the queue. */
  lemma WriteFreeSlot(slots: seq<Msg>, head: int, tail: int, q: seq<Msg>, m: Msg)
    requires Holds(slots, head, tail, |q|, q) && |q| < |slots| && 0 <= tail < |slots|
    ensures Holds(slots[tail := m], head, tail, |q|, q)
  {
  }

  /** Outside the two lock-taking points the thread either owns its queue lock or leaves the
      queue alone. */
  lemma DequeueRing(x: Target, i: nat, pc: Pc)
    requires TargetShape(x) && !pc.Send? && RingOk(x, if HoldsQueue(pc, i, i) then pc else Top)
    ensures var (y, d) := Dequeue(x, i, pc); RingOk(y, if HoldsQueue(d, i, i) then d else Top)
  {
    if pc == Check && x.count > 0 {
      PopHolds(x.slots, x.head, x.tail, x.queue);
    }
  }

  predicate SameRing(x: Target, y: Target) {
    x.owner == y.owner && x.slots == y.slots && x.head == y.head && x.tail == y.tail && x.count == y.count && x.queue == y.queue
  }

  lemma DequeueElsewhere(x: Target, i: nat, pc: Pc)
    requires TargetShape(x) && !pc.Send? && !HoldsQueue(pc, i, i) && pc != Top && pc != Again
    ensures SameRing(x, Dequeue(x, i, pc).0) && !HoldsQueue(Dequeue(x, i, pc).1, i, i)
  {
  }

  lemma SendingRings(st: State, i: nat)
    requires Shape(st) && Locks(st) && Rings(st) && Enabled(st, Go(i)) && i < 5 && st.pcs[i].Send?
    ensures var b := Sending(st, i, st.pcs[i].m, st.pcs[i].at, st.pcs[i].stage); Shape(b) && Rings(b)
  {
    hide RingOk, Enqueue;
    SendingShape(st, i);
    var m, at, stage := st.pcs[i].m, st.pcs[i].at, st.pcs[i].stage;
    var b := Sending(st, i, m, at, stage);
    forall t | 0 <= t < 4 ensures RingOk(b.targets[t], OwnerPc(b, t)) {
      assert st.targets[t].owner == i <==> HoldsQueue(st.pcs[i], i, t);
      if t == at && at != i {
        EnqueueOwner(st.targets[t], i, m, at, stage);
        EnqueueRing(st.targets[t], i, m, at, stage);
      }
    }
  }

  lemma EnqueueOwner(x: Target, i: nat, m: Msg, at: nat, stage: Stage)
    requires TargetShape(x) && (if stage == Want then x.owner == FREE else x.owner == i)
    ensures var (y, pc) := Enqueue(x, i, m, at, stage);
      pc.Send? && if pc.stage == Want then y.owner == FREE else y.owner == i
  {
  }

  lemma DequeueOwner(x: Target, i: nat, pc: Pc)
    requires TargetShape(x) && !pc.Send? && (if HoldsQueue(pc, i, i) then x.owner == i else pc == Top || pc == Again ==> x.owner == FREE)
    ensures var (y, d) := Dequeue(x, i, pc);
      && !d.Send? && (HoldsQueue(d, i, i) ==> y.owner == i)
      && (HoldsQueue(pc, i, i) && !HoldsQueue(d, i, i) ==> y.owner == FREE)
      && (pc == Top || pc == Again ==> HoldsQueue(d, i, i))
  {
  }

  lemma DrainingRings(st: State, i: nat)
    requires Shape(st) && Locks(st) && Rings(st) && Enabled(st, Go(i)) && i < 4 && !st.pcs[i].Send?
    ensures Shape(Draining(st, i)) && Rings(Draining(st, i))
  {
    hide RingOk, Dequeue;
    DrainingShape(st, i);
    DrainingMoves(st, i);
    var b, x, pc := Draining(st, i), st.targets[i], st.pcs[i];
    assert b.targets[i] == Dequeue(x, i, pc).0 && b.pcs[i] == Dequeue(x, i, pc).1;
    assert forall t :: 0 <= t < 4 ==> (st.targets[t].owner == i <==> HoldsQueue(st.pcs[i], i, t));
    DequeueOwner(x, i, pc);
    if HoldsQueue(pc, i, i) || pc == Top || pc == Again {
      assert OwnerPc(st, i) == if HoldsQueue(pc, i, i) then pc else Top;
      DequeueRing(x, i, pc);
      assert OwnerPc(b, i) == if HoldsQueue(b.pcs[i], i, i) then b.pcs[i] else Top;
    } else {
      DequeueElsewhere(x, i, pc);
      SameRingOk(x, b.targets[i], OwnerPc(st, i));
    }
  }

  lemma SameRingOk(x: Target, y: Target, pc: Pc)
    requires TargetShape(x) && TargetShape(y) && SameRing(x, y) && RingOk(x, pc)
    ensures RingOk(y, pc)
  {
  }

  lemma StepRings(st: State, m: Move)
    requires Shape(st) && Locks(st) && Rings(st) && Enabled(st, m)
    ensures Shape(Step(st, m)) && Rings(Step(st, m))
  {
    hide Sending, Draining, RingOk;
    StepShape(st, m);
    if m.Go? && st.pcs[m.i].Send? {
      SendingRings(st, m.i);
    } else if m.Go? && m.i != COMMAND {
      DrainingRings(st, m.i);
    } else {
      assert forall t :: 0 <= t < 4 ==> (st.targets[t].owner == Mover(m) <==> HoldsQueue(st.pcs[Mover(m)], Mover(m), t));
    }
  }

  // ----- conservation -----

  lemma ChosenAppend(a: seq<Arrival>, r: Arrival, kept: bool)
    ensures Chosen(a + [r], kept) == Chosen(a, kept) + if r.kept == kept then [r.msg] else []
  {
    assert (a + [r])[..|a|] == a;
  }

  lemma EnqueueConserves(x: Target, i: nat, m: Msg, at: nat, stage: Stage, pc: Pc)
    requires TargetShape(x) && Conserved(x, pc)
    ensures Conserved(Enqueue(x, i, m, at, stage).0, pc)
  {
    ChosenAppend(x.arrivals, Arrival(m, false), true);
    ChosenAppend(x.arrivals, Arrival(m, true), true);
    assert x.handed + InFlight(pc) + (x.queue + [m]) == (x.handed + InFlight(pc) + x.queue) + [m];
  }

  lemma DequeueConserves(x: Target, i: nat, pc: Pc)
    requires TargetShape(x) && Conserved(x, pc) && (pc == Check ==> RingOk(x, pc))
    ensures var (y, d) := Dequeue(x, i, pc); Conserved(y, d)
  {
    hide Chosen, Holds;
    var (y, d) := Dequeue(x, i, pc);
    if pc == Check && x.count > 0 {
      CheckedHead(x);
      assert y.handed + InFlight(d) + y.queue == x.handed + [] + x.queue;
    } else if pc.Deliver? {
      assert y.handed + [] + y.queue == x.handed + [pc.m] + x.queue;
    } else {
      assert y.handed == x.handed && y.queue == x.queue && InFlight(d) == InFlight(pc) && y.arrivals == x.arrivals;
    }
  }

  lemma CheckedHead(x: Target)
    requires TargetShape(x) && x.count > 0 && RingOk(x, Check)
    ensures x.queue != [] && x.queue == [x.slots[x.head]] + x.queue[1..]
  {
    PopHolds(x.slots, x.head, x.tail, x.queue);
  }

  lemma SendingConserves(st: State, i: nat)
    requires Shape(st) && Conservation(st) && i < 5 && st.pcs[i].Send?
    ensures var b := Sending(st, i, st.pcs[i].m, st.pcs[i].at, st.pcs[i].stage); Shape(b) && Conservation(b)
  {
    hide Enqueue, Chosen;
    SendingShape(st, i);
    var pc := st.pcs[i];
    if pc.at < 4 && pc.at != i {
      EnqueueStaysSend(st.targets[pc.at], i, pc.m, pc.at, pc.stage);
      EnqueueConserves(st.targets[pc.at], i, pc.m, pc.at, pc.stage, st.pcs[pc.at]);
    }
  }

  lemma DrainingConserves(st: State, i: nat)
    requires Shape(st) && Locks(st) && Rings(st) && Conservation(st) && i < 4 && !st.pcs[i].Send?
    ensures Shape(Draining(st, i)) && Conservation(Draining(st, i))
  {
    hide Draining, RingOk, Dequeue, Chosen;
    DrainingShape(st, i);
    DrainingMoves(st, i);
    assert st.targets[i].owner == i <==> HoldsQueue(st.pcs[i], i, i);
    assert RingOk(st.targets[i], OwnerPc(st, i));
    DequeueConserves(st.targets[i], i, st.pcs[i]);
    DrainingResult(st, i);
  }

  lemma StepConserves(st: State, m: Move)
    requires Shape(st) && Locks(st) && Rings(st) && Conservation(st) && Enabled(st, m)
    ensures Shape(Step(st, m)) && Conservation(Step(st, m))
  {
    hide Sending, Draining, Locks, Rings, Chosen;
    StepShape(st, m);
    if m.Go? && st.pcs[m.i].Send? {
      SendingConserves(st, m.i);
    } else if m.Go? && m.i != COMMAND {
      DrainingConserves(st, m.i);
    }
  }

  lemma EnqueueStaysSend(x: Target, i: nat, m: Msg, at: nat, stage: Stage)
    requires TargetShape(x)
    ensures var pc := Enqueue(x, i, m, at, stage).1; pc.Send? && pc.m == m
  {
  }

  lemma DrainingResult(st: State, i: nat)
    requires Shape(st) && i < 4
    ensures var b := Draining(st, i);
      |b.targets| == 4 && |b.pcs| == 5 && (b.targets[i], b.pcs[i]) == Dequeue(st.targets[i], i, st.pcs[i])
  {
  }

  // ----- provenance -----

  lemma FromAppend(ms: seq<Msg>, m: Msg, s: nat)
    ensures From(ms + [m], s) == From(ms, s) + if m.src == s then [m] else []
  {
    assert (ms + [m])[..|ms|] == ms;
  }

  lemma AllAppend(a: seq<Arrival>, r: Arrival)
    ensures All(a + [r]) == All(a) + [r.msg]
  {
  }

  /** The trace of thread s at queue t, when thread i takes one step of a broadcast there. */
  lemma EnqueueTraces(x: Target, t: nat, s: nat, pc: Pc, fs: seq<Frame>, i: nat, m: Msg, stage: Stage)
    requires TargetShape(x) && Traced(x, t, s, pc, fs) && t != i && m.src == i
    requires s == i ==> pc == Send(m, t, stage) && Latest(pc, s, fs)
    ensures var (y, d) := Enqueue(x, i, m, t, stage); Traced(y, t, s, if s == i then d else pc, fs)
  {
    hide From, All, Numbered;
    AllAppend(x.arrivals, Arrival(m, false));
    AllAppend(x.arrivals, Arrival(m, true));
    FromAppend(All(x.arrivals), m, s);
    if s == i {
      NumberedNext(s, fs);
    }
  }

  lemma NumberedNext(s: nat, fs: seq<Frame>)
    requires |fs| > 0
    ensures Numbered(s, fs, |fs|) == Numbered(s, fs, |fs| - 1) + [Msg(s, |fs| - 1, fs[|fs| - 1])]
  {
  }

  /** Moving on to the next queue passes no other one. */
  lemma OtherQueuesPassed(x: Target, i: nat, m: Msg, at: nat, stage: Stage, n: nat, t: nat)
    requires TargetShape(x) && t != at
    ensures Passed(Enqueue(x, i, m, at, stage).1, n, t) == Passed(Send(m, at, stage), n, t)
  {
  }

  lemma SendingTraces(st: State, i: nat, t: nat, s: nat)
    requires Shape(st) && Provenance(st) && i < 5 && st.pcs[i].Send? && t < 4 && s < 5
    ensures var b := Sending(st, i, st.pcs[i].m, st.pcs[i].at, st.pcs[i].stage);
      Shape(b) && Latest(b.pcs[s], s, b.sent[s]) && Traced(b.targets[t], t, s, b.pcs[s], b.sent[s])
  {
    hide Enqueue, From, Numbered;
    SendingShape(st, i);
    var m, at, stage := st.pcs[i].m, st.pcs[i].at, st.pcs[i].stage;
    assert Latest(st.pcs[i], i, st.sent[i]) && Latest(st.pcs[s], s, st.sent[s]);
    assert Traced(st.targets[t], t, s, st.pcs[s], st.sent[s]);
    if at < 4 && at != i {
      EnqueueStaysSend(st.targets[at], i, m, at, stage);
      if t == at {
        EnqueueTraces(st.targets[t], t, s, st.pcs[s], st.sent[s], i, m, stage);
      } else {
        OtherQueuesPassed(st.targets[at], i, m, at, stage, |st.sent[i]|, t);
      }
    }
  }

  lemma DequeueTraces(x: Target, i: nat, pc: Pc)
    requires TargetShape(x) && !pc.Send?
    ensures Dequeue(x, i, pc).0.arrivals == x.arrivals && !Dequeue(x, i, pc).1.Send?
  {
  }

  lemma EmitTraces(x: Target, t: nat, s: nat, pc: Pc, fs: seq<Frame>, f: Frame)
    requires Traced(x, t, s, pc, fs) && !pc.Send?
    ensures Traced(x, t, s, Send(Msg(s, |fs|, f), 0, Want), fs + [f])
  {
    assert Numbered(s, fs + [f], |fs|) == Numbered(s, fs, |fs|);
  }

  lemma StepTraces(st: State, m: Move, t: nat, s: nat)
    requires Shape(st) && Provenance(st) && Enabled(st, m) && t < 4 && s < 5
    ensures var b := Step(st, m);
      Shape(b) && Latest(b.pcs[s], s, b.sent[s]) && Traced(b.targets[t], t, s, b.pcs[s], b.sent[s])
  {
    hide Sending, Draining, Dequeue, From, All, Numbered;
    StepShape(st, m);
    assert Latest(st.pcs[s], s, st.sent[s]) && Traced(st.targets[t], t, s, st.pcs[s], st.sent[s]);
    if m.Go? && st.pcs[m.i].Send? {
      SendingTraces(st, m.i, t, s);
    } else if m.Go? && m.i != COMMAND {
      DrainingMoves(st, m.i);
      DrainingResult(st, m.i);
      DequeueTraces(st.targets[m.i], m.i, st.pcs[m.i]);
    } else if m.Emit? && s == m.i {
      EmitTraces(st.targets[t], t, s, st.pcs[s], st.sent[s], m.f);
    }
  }

  lemma StepSources(st: State, m: Move, t: nat)
    requires Shape(st) && Provenance(st) && Enabled(st, m) && t < 4
    ensures var b := Step(st, m);
      Shape(b) && forall k :: 0 <= k < |b.targets[t].arrivals| ==> b.targets[t].arrivals[k].msg.src < 5
  {
    hide Draining, Dequeue, From, All, Numbered;
    StepShape(st, m);
    if m.Go? && st.pcs[m.i].Send? {
      assert Latest(st.pcs[m.i], m.i, st.sent[m.i]);
    } else if m.Go? && m.i != COMMAND {
      DrainingMoves(st, m.i);
      DrainingResult(st, m.i);
      DequeueTraces(st.targets[m.i], m.i, st.pcs[m.i]);
    }
  }

  lemma StepProvenance(st: State, m: Move)
    requires Shape(st) && Provenance(st) && Enabled(st, m)
    ensures Shape(Step(st, m)) && Provenance(Step(st, m))
  {
    hide Step, Traced, Latest;
    StepShape(st, m);
    forall t, s | 0 <= t < 4 && 0 <= s < 5
      ensures var b := Step(st, m); Latest(b.pcs[s], s, b.sent[s]) && Traced(b.targets[t], t, s, b.pcs[s], b.sent[s])
    {
      StepTraces(st, m, t, s);
    }
    forall s | 0 <= s < 5
      ensures var b := Step(st, m); Latest(b.pcs[s], s, b.sent[s])
    {
      StepTraces(st, m, 0, s);
    }
    forall t, k | 0 <= t < 4 && 0 <= k < |Step(st, m).targets[t].arrivals|
      ensures Step(st, m).targets[t].arrivals[k].msg.src < 5
    {
      StepSources(st, m, t);
    }
  }

  // ----- runs -----

  ghost predicate Initial(st: State) {
    && st.pcs == [Top, Top, Top, Top, Idle]
    && st.avr == [FREE, FREE, FREE, FREE]
    && st.sent == [[], [], [], [], []]
    && |st.targets| == 4
    && forall t :: 0 <= t < 4 ==>
         |st.targets[t].slots| == CAP && st.targets[t] == Target(FREE, st.targets[t].slots, 0, 0, 0, [], [], [])
  }

  ghost predicate Runnable(st: State, ms: seq<Move>)
    requires Shape(st)
    decreases |ms|
  {
    ms == [] || (Enabled(st, ms[0]) && Shape(Step(st, ms[0])) && Runnable(Step(st, ms[0]), ms[1..]))
  }

  ghost function Run(st: State, ms: seq<Move>): State
    requires Shape(st) && Runnable(st, ms)
    decreases |ms|
  {
    if ms == [] then st else Run(Step(st, ms[0]), ms[1..])
  }

  lemma InitialLocks(st: State)
    requires Initial(st)
    ensures Shape(st) && Locks(st)
  {
    assert forall i :: 0 <= i < 5 ==> st.pcs[i] == if i == COMMAND then Idle else Top;
    assert forall k :: 0 <= k < 4 ==> st.avr[k] == FREE;
  }

  lemma InitialHistories(st: State)
    requires Initial(st) && Shape(st)
    ensures Rings(st) && Conservation(st) && Provenance(st)
  {
    assert forall i :: 0 <= i < 5 ==> st.pcs[i] == if i == COMMAND then Idle else Top;
    assert forall s :: 0 <= s < 5 ==> st.sent[s] == [];
  }

  lemma InitialInv(st: State)
    requires Initial(st)
    ensures Inv(st)
  {
    hide Initial, Shape, Locks, Rings, Conservation, Provenance;
    InitialLocks(st);
    InitialHistories(st);
  }

  lemma StepKeeps(st: State, m: Move)
    requires Inv(st) && Enabled(st, m)
    ensures Inv(Step(st, m))
  {
    hide Shape, Step, Locks, Rings, Conservation, Provenance, Enabled;
    StepLocks(st, m);
    StepRings(st, m);
    StepConserves(st, m);
    StepProvenance(st, m);
  }

  /** Every interleaving of the five threads keeps the invariant. */
  lemma {:induction false} RunKeeps(st: State, ms: seq<Move>)
    requires Inv(st) && Runnable(st, ms)
    ensures Inv(Run(st, ms))
    decreases |ms|
  {
    hide Shape, Step, Locks, Rings, Conservation, Provenance, Enabled;
    if ms != [] {
      StepKeeps(st, ms[0]);
      RunKeeps(Step(st, ms[0]), ms[1..]);
    }
  }

  // ----- how one step extends the histories of sending and handing over -----

  lemma StepSent(st: State, m: Move, s: nat)
    requires Shape(st) && Enabled(st, m) && s < 5
    ensures var b := Step(st, m);
      |b.sent| == 5 && b.sent[s] == if m.Emit? && m.i == s then st.sent[s] + [m.f] else st.sent[s]
  {
    hide Enqueue, Dequeue;
  }

  lemma EnqueueHandsNothing(x: Target, i: nat, m: Msg, at: nat, stage: Stage)
    requires TargetShape(x)
    ensures Enqueue(x, i, m, at, stage).0.handed == x.handed
  {
  }

  lemma DequeueHands(x: Target, i: nat, pc: Pc)
    requires TargetShape(x)
    ensures Dequeue(x, i, pc).0.handed == if pc.Deliver? then x.handed + [pc.m] else x.handed
  {
  }

  lemma StepHanded(st: State, m: Move, t: nat)
    requires Shape(st) && Enabled(st, m) && t < 4
    ensures After(st, m, t).handed ==
      if m.Go? && m.i == t && st.pcs[t].Deliver? then st.targets[t].handed + [st.pcs[t].m] else st.targets[t].handed
  {
    hide Draining, Dequeue, Enqueue;
    if m.Go? && st.pcs[m.i].Send? {
      var pc := st.pcs[m.i];
      if pc.at < 4 {
        EnqueueHandsNothing(st.targets[pc.at], m.i, pc.m, pc.at, pc.stage);
      }
    } else if m.Go? && m.i != COMMAND {
      DrainingMoves(st, m.i);
      DrainingResult(st, m.i);
      DequeueHands(st.targets[m.i], m.i, st.pcs[m.i]);
    }
  }

  // ----- what a receiver sees -----

  /** The k-th message from every thread is its k-th broadcast. */
  ghost predicate Ranked(ms: seq<Msg>) {
    forall s, k :: 0 <= k < |From(ms, s)| ==> From(ms, s)[k].no == k
  }

  /** Messages of one thread appear in sending order, none twice. */
  ghost predicate Ordered(ms: seq<Msg>) {
    forall j, k :: 0 <= j < k < |ms| && ms[j].src == ms[k].src ==> ms[j].no < ms[k].no
  }

  lemma RankedFront(ms: seq<Msg>, m: Msg)
    requires Ranked(ms + [m])
    ensures Ranked(ms) && m.no == |From(ms, m.src)|
  {
    forall s, k | 0 <= k < |From(ms, s)| ensures From(ms, s)[k].no == k {
      FromAppend(ms, m, s);
      assert From(ms + [m], s)[k].no == k;
    }
    FromAppend(ms, m, m.src);
    assert From(ms + [m], m.src)[|From(ms, m.src)|].no == |From(ms, m.src)|;
  }

  /** What a queue keeps of a ranked history is ordered. */
  lemma {:induction false} KeptOrdered(a: seq<Arrival>)
    requires Ranked(All(a))
    ensures Ordered(Chosen(a, true))
    ensures forall k :: 0 <= k < |Chosen(a, true)| ==>
      Chosen(a, true)[k].no < |From(All(a), Chosen(a, true)[k].src)|
  {
    if a != [] {
      var front, last := a[..|a| - 1], a[|a| - 1];
      assert a == front + [last];
      AllAppend(front, last);
      RankedFront(All(front), last.msg);
      KeptOrdered(front);
      forall s: nat ensures |From(All(front), s)| <= |From(All(a), s)| {
        FromAppend(All(front), last.msg, s);
      }
      FromAppend(All(front), last.msg, last.msg.src);
      ChosenAppend(front, last, true);
    }
  }

  /** Every element that a queue keeps is one of those that arrived. */
  lemma {:induction false} KeptArrived(a: seq<Arrival>, k: nat)
    requires k < |Chosen(a, true)|
    ensures Chosen(a, true)[k] in All(a)
  {
    var front, last := a[..|a| - 1], a[|a| - 1];
    assert a == front + [last];
    AllAppend(front, last);
    ChosenAppend(front, last, true);
    if k < |Chosen(front, true)| {
      KeptArrived(front, k);
    }
  }

  lemma {:induction false} InFrom(ms: seq<Msg>, m: Msg)
    requires m in ms
    ensures m in From(ms, m.src)
  {
    var front, last := ms[..|ms| - 1], ms[|ms| - 1];
    assert ms == front + [last];
    FromAppend(front, last, m.src);
    if m != last {
      InFrom(front, m);
    }
  }

  lemma {:induction false} FromSource(ms: seq<Msg>, s: nat)
    ensures forall k :: 0 <= k < |From(ms, s)| ==> From(ms, s)[k].src == s && From(ms, s)[k] in ms
  {
    if ms != [] {
      FromSource(ms[..|ms| - 1], s);
    }
  }

  lemma HistoryRanked(st: State, t: nat)
    requires Inv(st) && t < 4
    ensures Ranked(All(st.targets[t].arrivals))
  {
    hide Locks, Rings, Conservation, From;
    var a := All(st.targets[t].arrivals);
    forall s: nat, k | 0 <= k < |From(a, s)| ensures From(a, s)[k].no == k {
      FromSource(a, s);
      assert From(a, s)[k].src == s && From(a, s)[k] in a;
      var j :| 0 <= j < |a| && a[j] == From(a, s)[k];
      assert st.targets[t].arrivals[j].msg.src < 5;
      assert Traced(st.targets[t], t, s, st.pcs[s], st.sent[s]);
    }
  }

  /** A genuine frame of another thread. */
  predicate Genuine(st: State, t: nat, m: Msg)
    requires |st.sent| == 5
  {
    m.src < 5 && m.src != t && m.no < |st.sent[m.src]| && m.frame == st.sent[m.src][m.no]
  }

  lemma ArrivalGenuine(st: State, t: nat, m: Msg)
    requires Inv(st) && t < 4
    ensures m in All(st.targets[t].arrivals) ==> Genuine(st, t, m)
  {
    hide Locks, Rings, Conservation;
    var a := All(st.targets[t].arrivals);
    if m in a {
      InFrom(a, m);
      var j :| 0 <= j < |a| && a[j] == m;
      assert st.targets[t].arrivals[j].msg.src < 5;
      assert Traced(st.targets[t], t, m.src, st.pcs[m.src], st.sent[m.src]);
    }
  }

  /** In every reachable state: the frames handed to receiver t are frames that other threads
      really sent, those of one sender in sending order and none twice; the queue holds at
      most 32; and accepted = handed over + at most one in flight + queued, in order. */
  lemma DeliveryExact(st: State, t: nat)
    requires Inv(st) && t < 4
    ensures forall k :: 0 <= k < |st.targets[t].handed| ==> Genuine(st, t, st.targets[t].handed[k])
    ensures Ordered(st.targets[t].handed)
    ensures |st.targets[t].queue| <= CAP
    ensures Chosen(st.targets[t].arrivals, true) == st.targets[t].handed + InFlight(st.pcs[t]) + st.targets[t].queue
  {
    hide Locks, Provenance, From, Chosen, Enabled;
    var x := st.targets[t];
    var kept := Chosen(x.arrivals, true);
    assert Conserved(x, st.pcs[t]);
    HistoryRanked(st, t);
    KeptOrdered(x.arrivals);
    forall k | 0 <= k < |x.handed| ensures Genuine(st, t, x.handed[k]) {
      assert kept[k] == x.handed[k];
      KeptArrived(x.arrivals, k);
      ArrivalGenuine(st, t, kept[k]);
    }
    assert forall k :: 0 <= k < |x.handed| ==> kept[k] == x.handed[k];
    QueueBound(x, OwnerPc(st, t));
  }

  /** The message in flight is genuine too. */
  lemma InFlightGenuine(st: State, t: nat)
    requires Inv(st) && t < 4
    ensures st.pcs[t].Deliver? ==> Genuine(st, t, st.pcs[t].m)
  {
    hide Locks, Rings, Provenance, From, Chosen, Genuine;
    if st.pcs[t].Deliver? {
      var x := st.targets[t];
      assert Conserved(x, st.pcs[t]);
      assert Chosen(x.arrivals, true)[|x.handed|] == st.pcs[t].m;
      KeptArrived(x.arrivals, |x.handed|);
      ArrivalGenuine(st, t, st.pcs[t].m);
    }
  }

  lemma QueueBound(x: Target, pc: Pc)
    requires TargetShape(x) && RingOk(x, pc)
    ensures |x.queue| <= CAP
  {
  }

  /** Every broadcast reaches every other queue exactly once: after a thread has taken its n
      frames past queue t, what arrived there from it are those n frames, each kept or lost. */
  lemma ArrivalsExact(st: State, t: nat, s: nat)
    requires Inv(st) && t < 4 && s < 5
    ensures From(All(st.targets[t].arrivals), s) ==
      if s == t then [] else Numbered(s, st.sent[s], Passed(st.pcs[s], |st.sent[s]|, t))
  {
    assert Traced(st.targets[t], t, s, st.pcs[s], st.sent[s]);
  }

  /** Receiver t after one step. */
  function After(st: State, m: Move, t: nat): Target
    requires Shape(st) && Enabled(st, m) && t < 4
  {
    StepShape(st, m);
    Step(st, m).targets[t]
  }

  predicate SendsTo(st: State, m: Move, t: nat)
    requires Shape(st)
  {
    m.Go? && m.i < 5 && st.pcs[m.i].Send? && st.pcs[m.i].at == t && t != m.i
  }

  lemma OnlySendersAdd(st: State, m: Move, t: nat)
    requires Shape(st) && Enabled(st, m) && t < 4 && !SendsTo(st, m, t)
    ensures After(st, m, t).arrivals == st.targets[t].arrivals
  {
    hide Draining, Dequeue, Enqueue;
    if m.Go? && m.i != COMMAND && !st.pcs[m.i].Send? {
      DrainingMoves(st, m.i);
      DrainingResult(st, m.i);
      DequeueTraces(st.targets[m.i], m.i, st.pcs[m.i]);
    }
  }

  lemma SenderAdds(st: State, m: Move, t: nat)
    requires Shape(st) && Enabled(st, m) && t < 4 && SendsTo(st, m, t)
    ensures After(st, m, t) == Enqueue(st.targets[t], m.i, st.pcs[m.i].m, t, st.pcs[m.i].stage).0
  {
    hide Enqueue;
  }

  /** A frame is lost only when the queue it was meant for holds 32. */
  lemma LossMeansFull(st: State, m: Move, t: nat)
    requires Inv(st) && Enabled(st, m) && t < 4
    ensures Chosen(After(st, m, t).arrivals, false) != Chosen(st.targets[t].arrivals, false) ==>
      SendsTo(st, m, t) && |st.targets[t].queue| == CAP
  {
    hide Step, After, Provenance, Conservation, Enqueue, Chosen, Enabled;
    if !SendsTo(st, m, t) {
      OnlySendersAdd(st, m, t);
    } else if Chosen(After(st, m, t).arrivals, false) != Chosen(st.targets[t].arrivals, false) {
      var pc := st.pcs[m.i];
      SenderAdds(st, m, t);
      EnqueueLoses(st.targets[t], m.i, pc.m, t, pc.stage);
      assert st.targets[t].owner == m.i <==> HoldsQueue(pc, m.i, t);
      assert RingOk(st.targets[t], OwnerPc(st, t));
    }
  }

  lemma EnqueueLoses(x: Target, i: nat, m: Msg, at: nat, stage: Stage)
    requires TargetShape(x)
    requires Chosen(Enqueue(x, i, m, at, stage).0.arrivals, false) != Chosen(x.arrivals, false)
    ensures stage == Test && x.count >= CAP
  {
    ChosenAppend(x.arrivals, Arrival(m, true), false);
  }

  /** Once a sender is outside its broadcasts and nothing meant for t was lost or is still on
      its way, t has been handed everything the sender sent, in order. */
  lemma NothingLostAllDelivered(st: State, t: nat, s: nat)
    requires Inv(st) && t < 4 && s < 5
    ensures Settled(st, t, s) ==> From(st.targets[t].handed, s) == Numbered(s, st.sent[s], |st.sent[s]|)
  {
    hide Locks, Rings, From, Chosen;
    if Settled(st, t, s) {
      ArrivalsExact(st, t, s);
      AllKept(st.targets[t].arrivals);
      assert Conserved(st.targets[t], st.pcs[t]);
      assert st.targets[t].handed == All(st.targets[t].arrivals);
    }
  }

  /** Nothing that thread s sent is lost or still on its way to t. */
  predicate Settled(st: State, t: nat, s: nat)
    requires Shape(st) && t < 4 && s < 5
  {
    && s != t && !st.pcs[s].Send?
    && Chosen(st.targets[t].arrivals, false) == [] && st.targets[t].queue == [] && InFlight(st.pcs[t]) == []
  }

  lemma {:induction false} AllKept(a: seq<Arrival>)
    requires Chosen(a, false) == []
    ensures Chosen(a, true) == All(a)
  {
    if a != [] {
      var front, last := a[..|a| - 1], a[|a| - 1];
      assert a == front + [last];
      ChosenAppend(front, last, true);
      AllAppend(front, last);
      AllKept(front);
    }
  }

  /** Thread i runs code that touches chip k: its instruction batch with the broadcasts made
      from it, the hand-over of a received frame, or a command. */
  predicate Operates(pc: Pc, i: nat, k: nat) { HoldsAvr(pc, i, k) && k < 4 }

  /** No two threads operate on one chip, and no two are inside one queue's critical section. */
  lemma MutualExclusion(st: State, i: nat, j: nat, k: nat)
    requires Inv(st) && i < 5 && j < 5 && i != j && k < 4
    ensures !(Operates(st.pcs[i], i, k) && Operates(st.pcs[j], j, k))
    ensures !(HoldsQueue(st.pcs[i], i, k) && HoldsQueue(st.pcs[j], j, k))
  {
    assert st.avr[k] == i <==> HoldsAvr(st.pcs[i], i, k);
    assert st.targets[k].owner == i <==> HoldsQueue(st.pcs[i], i, k);
  }

  // ----- the same over everything the five threads can do from start-up -----

  ghost predicate Started(st: State, ms: seq<Move>) { Initial(st) && Shape(st) && Runnable(st, ms) }

  lemma StartedInv(st: State, ms: seq<Move>)
    requires Started(st, ms)
    ensures Inv(Run(st, ms))
  {
    hide Initial, Inv;
    InitialInv(st);
    RunKeeps(st, ms);
  }

  /** The frames handed to receiver t are genuine, in order and handed over once; its queue stays
      within 32; and accepted = handed over + in flight + queued. */
  lemma DeliveryOverRuns(st: State, ms: seq<Move>, t: nat)
    requires Started(st, ms) && t < 4
    ensures var e := Run(st, ms);
      && Shape(e) && Ordered(e.targets[t].handed) && |e.targets[t].queue| <= 32
      && (forall k :: 0 <= k < |e.targets[t].handed| ==> Genuine(e, t, e.targets[t].handed[k]))
      && Chosen(e.targets[t].arrivals, true) == e.targets[t].handed + InFlight(e.pcs[t]) + e.targets[t].queue
  {
    hide Ordered, Genuine, Chosen, Locks, Rings, Conservation, Provenance, Run;
    StartedInv(st, ms);
    DeliveryExact(Run(st, ms), t);
  }

  /** Of every other thread's broadcasts, exactly those that the thread has taken past queue t
      have reached it, once each and in order; of thread t's own, none. */
  lemma ArrivalsOverRuns(st: State, ms: seq<Move>, t: nat, s: nat)
    requires Started(st, ms) && t < 4 && s < 5
    ensures var e := Run(st, ms);
      && Shape(e)
      && Passed(e.pcs[s], |e.sent[s]|, t) <= |e.sent[s]| <= Passed(e.pcs[s], |e.sent[s]|, t) + 1
      && From(All(e.targets[t].arrivals), s) ==
           if s == t then [] else Numbered(s, e.sent[s], Passed(e.pcs[s], |e.sent[s]|, t))
  {
    hide From, Locks, Rings, Conservation, Run;
    StartedInv(st, ms);
    ArrivalsExact(Run(st, ms), t, s);
  }

  /** A run that continues with a step that loses a frame for t has queue t holding 32. */
  lemma LossOverRuns(st: State, ms: seq<Move>, m: Move, t: nat)
    requires Started(st, ms) && t < 4 && Shape(Run(st, ms)) && Enabled(Run(st, ms), m)
    ensures var e := Run(st, ms);
      Chosen(After(e, m, t).arrivals, false) != Chosen(e.targets[t].arrivals, false) ==>
        SendsTo(e, m, t) && |e.targets[t].queue| == 32
  {
    hide Chosen, After, Locks, Rings, Conservation, Provenance, Run;
    StartedInv(st, ms);
    LossMeansFull(Run(st, ms), m, t);
  }

  /** In every state that the run passes through, queue t holds fewer than 32. */
  ghost predicate AlwaysRoom(st: State, ms: seq<Move>, t: nat)
    requires Shape(st) && Runnable(st, ms) && t < 4
    decreases |ms|
  {
    |st.targets[t].queue| < 32 && (ms == [] || AlwaysRoom(Step(st, ms[0]), ms[1..], t))
  }

  lemma {:induction false} RoomLosesNothing(st: State, ms: seq<Move>, t: nat)
    requires Inv(st) && Runnable(st, ms) && t < 4 && AlwaysRoom(st, ms, t)
    ensures Shape(Run(st, ms)) && Chosen(Run(st, ms).targets[t].arrivals, false) == Chosen(st.targets[t].arrivals, false)
    decreases |ms|
  {
    hide Step, Locks, Rings, Conservation, Provenance, Enabled, Chosen;
    if ms != [] {
      StepKeeps(st, ms[0]);
      LossMeansFull(st, ms[0], t);
      RoomLosesNothing(Step(st, ms[0]), ms[1..], t);
      assert After(st, ms[0], t) == Step(st, ms[0]).targets[t];
    }
  }

  /** If queue t never fills, and thread s is between broadcasts with nothing queued or in
      flight, receiver t has been handed everything s sent, in order. */
  lemma EverythingDelivered(st: State, ms: seq<Move>, t: nat, s: nat)
    requires Started(st, ms) && t < 4 && s < 5 && AlwaysRoom(st, ms, t)
    ensures var e := Run(st, ms);
      && Shape(e) && Chosen(e.targets[t].arrivals, false) == []
      && (s != t && !e.pcs[s].Send? && e.targets[t].queue == [] && InFlight(e.pcs[t]) == [] ==>
            From(e.targets[t].handed, s) == Numbered(s, e.sent[s], |e.sent[s]|))
  {
    hide Locks, Rings, Conservation, Provenance, From, Run, AlwaysRoom;
    InitialInv(st);
    StartedInv(st, ms);
    RoomLosesNothing(st, ms, t);
    assert st.targets[t].arrivals == [];
    NothingLostAllDelivered(Run(st, ms), t, s);
  }

  /** No two threads ever operate on one chip or work inside one queue. */
  lemma ExclusionOverRuns(st: State, ms: seq<Move>, i: nat, j: nat, k: nat)
    requires Started(st, ms) && i < 5 && j < 5 && i != j && k < 4
    ensures var e := Run(st, ms);
      && Shape(e)
      && !(Operates(e.pcs[i], i, k) && Operates(e.pcs[j], j, k))
      && !(HoldsQueue(e.pcs[i], i, k) && HoldsQueue(e.pcs[j], j, k))
  {
    hide Operates, HoldsQueue, Locks, Rings, Conservation, Provenance, Run;
    StartedInv(st, ms);
    MutualExclusion(Run(st, ms), i, j, k);
  }
}
