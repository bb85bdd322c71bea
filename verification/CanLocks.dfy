/** The locks that the delivery threads take, step by step, are those of the calls listed in
    LockHierarchy: what is proved there about calls holds of the delivery system. */
module CanLocks {
  import opened CanDelivery
  import L = LockHierarchy

  // ----- the lock operations of a step -----

  function Switch(l: L.Lock, was: bool, has: bool): seq<L.Op> {
    if was == has then [] else if has then [L.Acquire(l)] else [L.Release(l)]
  }

  /** What thread i does to the first n queue locks between two states, read off their owners. */
  function QueueOps(a: State, b: State, i: nat, n: nat): seq<L.Op>
    requires |a.targets| == |b.targets| == 4 && n <= 4
  {
    if n == 0 then []
    else QueueOps(a, b, i, n - 1) + Switch(L.CanQ(n - 1), a.targets[n - 1].owner == i, b.targets[n - 1].owner == i)
  }

  function ChipOps(a: State, b: State, i: nat, n: nat): seq<L.Op>
    requires |a.avr| == |b.avr| == 4 && n <= 4
  {
    if n == 0 then []
    else ChipOps(a, b, i, n - 1) + Switch(L.Avr(n - 1), a.avr[n - 1] == i, b.avr[n - 1] == i)
  }

  function StepOps(a: State, b: State, i: nat): seq<L.Op>
    requires Shape(a) && Shape(b)
  {
    QueueOps(a, b, i, 4) + ChipOps(a, b, i, 4)
  }

  /** All lock operations of thread i over a run. */
  ghost function Trace(st: State, ms: seq<Move>, i: nat): seq<L.Op>
    requires Shape(st) && Runnable(st, ms)
    decreases |ms|
  {
    if ms == [] then [] else StepOps(st, Step(st, ms[0]), i) + Trace(Step(st, ms[0]), ms[1..], i)
  }

  lemma {:induction false} QueueOpsAre(a: State, b: State, i: nat, n: nat, t: nat)
    requires |a.targets| == |b.targets| == 4 && n <= 4 && t < 4
    requires forall u :: 0 <= u < 4 && u != t ==> (a.targets[u].owner == i <==> b.targets[u].owner == i)
    ensures QueueOps(a, b, i, n) == if t < n then Switch(L.CanQ(t), a.targets[t].owner == i, b.targets[t].owner == i) else []
  {
    if n > 0 {
      QueueOpsAre(a, b, i, n - 1, t);
    }
  }

  lemma {:induction false} ChipOpsAre(a: State, b: State, i: nat, n: nat, k: nat)
    requires |a.avr| == |b.avr| == 4 && n <= 4 && k < 4
    requires forall u :: 0 <= u < 4 && u != k ==> (a.avr[u] == i <==> b.avr[u] == i)
    ensures ChipOps(a, b, i, n) == if k < n then Switch(L.Avr(k), a.avr[k] == i, b.avr[k] == i) else []
  {
    if n > 0 {
      ChipOpsAre(a, b, i, n - 1, k);
    }
  }

  // ----- the steps of one thread -----

  /** Thread i goes from `pc` to `d` in one step. */
  predicate Follows(pc: Pc, d: Pc, i: nat) {
    match pc
    case Top => d == Check
    case Again => d == Check
    case Check => d.Took? || d == Drained
    case Took(m) => d == Advanced(m)
    case Advanced(m) => d == Counted(m)
    case Counted(m) => d == Carry(m)
    case Carry(m) => d == Deliver(m)
    case Deliver(_) => d == Served
    case Served => d == Again
    case Drained => d == Exec || d == Top
    case Exec => d == Drained || (d.Send? && d.at == 0 && d.stage == Want)
    case Idle => d.Meddle? || (d.Send? && d.at == 0 && d.stage == Want)
    case Meddle(_) => d == Idle
    case Send(m, at, stage) =>
      match stage
      case Want =>
        if at == 4 then d == (if i == COMMAND then Idle else Exec)
        else d == (if at == i then Send(m, at + 1, Want) else Send(m, at, Test))
      case Test => d == Send(m, at, Wrote) || d == Send(m, at, Leave)
      case Wrote => d == Send(m, at, Moved)
      case Moved => d == Send(m, at, Leave)
      case Leave => d == Send(m, at + 1, Want)
  }

  lemma SendingFollows(st: State, i: nat)
    requires Shape(st) && i < 5 && st.pcs[i].Send?
    ensures Follows(st.pcs[i], Sending(st, i, st.pcs[i].m, st.pcs[i].at, st.pcs[i].stage).pcs[i], i)
  {
  }

  lemma DrainingFollows(st: State, i: nat)
    requires Shape(st) && i < 4 && !st.pcs[i].Send? && !st.pcs[i].Idle? && !st.pcs[i].Meddle?
    ensures Follows(st.pcs[i], Draining(st, i).pcs[i], i)
  {
  }

  lemma StepFollows(st: State, m: Move)
    requires Shape(st) && Enabled(st, m)
    ensures Shape(Step(st, m)) && Follows(st.pcs[Mover(m)], Step(st, m).pcs[Mover(m)], Mover(m))
  {
    hide Sending, Draining;
    StepShape(st, m);
    var i := Mover(m);
    assert PcShape(st.pcs[i], i);
    if m.Go? && st.pcs[i].Send? {
      SendingFollows(st, i);
    } else if m.Go? && i != COMMAND {
      DrainingFollows(st, i);
    }
  }

  /** The one lock operation of a step, if any. */
  function OpOf(pc: Pc, d: Pc, i: nat): seq<L.Op> {
    match pc
    case Top => [L.Acquire(L.CanQ(i))]
    case Again => [L.Acquire(L.CanQ(i))]
    case Check => if d.Took? then [] else [L.Release(L.CanQ(i))]
    case Counted(_) => [L.Release(L.CanQ(i))]
    case Carry(_) => [L.Acquire(L.Avr(i))]
    case Served => [L.Release(L.Avr(i))]
    case Drained => if d == Exec then [L.Acquire(L.Avr(i))] else []
    case Exec => if d == Drained then [L.Release(L.Avr(i))] else []
    case Idle => if d.Meddle? then [L.Acquire(L.Avr(d.chip))] else []
    case Meddle(k) => [L.Release(L.Avr(k))]
    case Send(_, at, Want) => if at != i && at < 4 then [L.Acquire(L.CanQ(at))] else []
    case Send(_, at, Leave) => [L.Release(L.CanQ(at))]
    case _ => []
  }

  /** The queue and the chip that a step of thread i concerns. */
  function QueueOf(pc: Pc, i: nat): nat { if pc.Send? && pc.at < 4 then pc.at else if i < 4 then i else 0 }

  function ChipOf(pc: Pc, d: Pc, i: nat): nat {
    if pc.Meddle? && pc.chip < 4 then pc.chip else if d.Meddle? && d.chip < 4 then d.chip else if i < 4 then i else 0
  }

  lemma FollowsLocks(pc: Pc, d: Pc, i: nat)
    requires i < 5 && PcShape(pc, i) && PcShape(d, i) && Follows(pc, d, i)
    ensures forall u :: 0 <= u < 4 && u != QueueOf(pc, i) ==> (HoldsQueue(pc, i, u) <==> HoldsQueue(d, i, u))
    ensures forall u :: 0 <= u < 4 && u != ChipOf(pc, d, i) ==> (HoldsAvr(pc, i, u) <==> HoldsAvr(d, i, u))
  {
  }

  lemma FollowsOp(pc: Pc, d: Pc, i: nat)
    requires i < 5 && PcShape(pc, i) && PcShape(d, i) && Follows(pc, d, i)
    ensures var t, k := QueueOf(pc, i), ChipOf(pc, d, i);
      Switch(L.CanQ(t), HoldsQueue(pc, i, t), HoldsQueue(d, i, t)) + Switch(L.Avr(k), HoldsAvr(pc, i, k), HoldsAvr(d, i, k))
        == OpOf(pc, d, i)
  {
  }

  /** The operations read off the lock owners are those of the step. */
  lemma MoverOps(st: State, m: Move)
    requires Shape(st) && Locks(st) && Enabled(st, m)
    ensures var b, i := Step(st, m), Mover(m); Shape(b) && StepOps(st, b, i) == OpOf(st.pcs[i], b.pcs[i], i)
  {
    hide Step, HoldsQueue, HoldsAvr, Follows, PcShape, Enabled, Mover, Switch, OpOf, QueueOf, ChipOf;
    StepLocks(st, m);
    StepFollows(st, m);
    var b, i := Step(st, m), Mover(m);
    MoverBound(st, m);
    var pc, d := st.pcs[i], b.pcs[i];
    FollowsLocks(pc, d, i);
    FollowsOp(pc, d, i);
    var t, k := QueueOf(pc, i), ChipOf(pc, d, i);
    ConcernBound(pc, d, i);
    OwnersAgree(st, b, i);
    QueueOpsAre(st, b, i, 4, t);
    ChipOpsAre(st, b, i, 4, k);
  }

  lemma ConcernBound(pc: Pc, d: Pc, i: nat)
    ensures QueueOf(pc, i) < 4 && ChipOf(pc, d, i) < 4
  {
  }

  lemma MoverBound(st: State, m: Move)
    requires Shape(st) && Enabled(st, m)
    ensures Mover(m) < 5
  {
  }

  lemma OwnersAgree(a: State, b: State, i: nat)
    requires Shape(a) && Shape(b) && Locks(a) && Locks(b) && i < 5
    ensures forall t :: 0 <= t < 4 ==> (a.targets[t].owner == i <==> HoldsQueue(a.pcs[i], i, t))
    ensures forall t :: 0 <= t < 4 ==> (b.targets[t].owner == i <==> HoldsQueue(b.pcs[i], i, t))
    ensures forall k :: 0 <= k < 4 ==> (a.avr[k] == i <==> HoldsAvr(a.pcs[i], i, k))
    ensures forall k :: 0 <= k < 4 ==> (b.avr[k] == i <==> HoldsAvr(b.pcs[i], i, k))
  {
    hide HoldsQueue, HoldsAvr;
  }

  lemma OtherOps(st: State, m: Move, j: nat)
    requires Shape(st) && Locks(st) && Enabled(st, m) && j < 5 && j != Mover(m)
    ensures var b := Step(st, m); Shape(b) && b.pcs[j] == st.pcs[j] && StepOps(st, b, j) == []
  {
    hide Step, HoldsQueue, HoldsAvr, PcShape, Enabled, Mover, Handover;
    StepLocks(st, m);
    MoverBound(st, m);
    var b := Step(st, m);
    OwnersAgree(st, b, j);
    QueueOpsAre(st, b, j, 4, 0);
    ChipOpsAre(st, b, j, 4, 0);
  }

  // ----- calls -----

  function Role(i: nat): L.Role { if i == COMMAND then L.Command else L.Chip(i) }

  function AllOps(cs: seq<L.Call>): seq<L.Op> {
    if cs == [] then [] else L.Ops(cs[0]) + AllOps(cs[1..])
  }

  /** One after the other, the operations of calls that thread i may make. */
  ghost predicate Calls(i: nat, ops: seq<L.Op>) {
    exists cs: seq<L.Call> :: (forall n :: 0 <= n < |cs| ==> L.MayCall(Role(i), cs[n])) && ops == AllOps(cs)
  }

  lemma CallsNext(i: nat, c: L.Call, rest: seq<L.Op>)
    requires L.MayCall(Role(i), c) && Calls(i, rest)
    ensures Calls(i, L.Ops(c) + rest)
  {
    hide L.MayCall, L.Ops;
    var cs: seq<L.Call> :| (forall n :: 0 <= n < |cs| ==> L.MayCall(Role(i), cs[n])) && rest == AllOps(cs);
    var more := [c] + cs;
    assert more[1..] == cs && AllOps(more) == L.Ops(c) + rest;
    assert forall n :: 0 <= n < |more| ==> L.MayCall(Role(i), more[n]);
  }

  lemma NoCalls(i: nat)
    ensures Calls(i, [])
  {
    var none: seq<L.Call> := [];
    assert AllOps(none) == [];
  }

  /** n hand-overs whose callbacks take no further lock. */
  function Frames(n: nat): (fs: seq<seq<L.Lock>>)
    ensures |fs| == n && forall k :: 0 <= k < n ==> fs[k] == []
  {
    seq(n, k => [])
  }

  function Drain(i: nat, n: nat): seq<L.Op> { L.DrainOps(i, Frames(n)) }

  /** What is left of a drain once the queue lock is to be released for the first time. */
  function AfterLook(i: nat, n: nat): seq<L.Op> {
    if n == 0 then [] else L.GuardedOps(i, []) + Drain(i, n - 1)
  }

  lemma DrainLooks(i: nat, n: nat)
    ensures Drain(i, n) == [L.Acquire(L.CanQ(i)), L.Release(L.CanQ(i))] + AfterLook(i, n)
  {
    if n > 0 {
      assert Frames(n)[1..] == Frames(n - 1);
    }
  }

  function QueuesFrom(at: nat): seq<L.Lock>
    requires at <= 4
    decreases 4 - at
  {
    if at == 4 then [] else [L.CanQ(at)] + QueuesFrom(at + 1)
  }

  /** `rest` is a way to finish the current call of thread i from `pc` and go on with others. */
  ghost predicate Onward(pc: Pc, i: nat, rest: seq<L.Op>) {
    match pc
    case Top => Calls(i, rest)
    case Drained => Calls(i, rest)
    case Idle => Calls(i, rest)
    case Check => exists n: nat, t :: Calls(i, t) && rest == [L.Release(L.CanQ(i))] + (AfterLook(i, n) + t)
    case Took(_) => Holding(i, rest)
    case Advanced(_) => Holding(i, rest)
    case Counted(_) => Holding(i, rest)
    case Carry(_) => exists n: nat, t :: Calls(i, t) && rest == L.GuardedOps(i, []) + (Drain(i, n) + t)
    case Deliver(_) => Serving(i, rest)
    case Served => Serving(i, rest)
    case Again => exists n: nat, t :: Calls(i, t) && rest == Drain(i, n) + t
    case Exec => Inside(i, rest)
    case Meddle(k) => exists t :: Calls(i, t) && rest == [L.Release(L.Avr(k))] + t
    case Send(_, at, Want) => Sends(i, at, rest)
    case Send(_, at, _) => at < 4 && exists t :: Sends(i, at + 1, t) && rest == [L.Release(L.CanQ(at))] + t
  }

  /** Thread i has seen a frame and holds its queue lock. */
  ghost predicate Holding(i: nat, rest: seq<L.Op>) {
    exists n: nat, t :: Calls(i, t) && rest == [L.Release(L.CanQ(i))] + (L.GuardedOps(i, []) + (Drain(i, n) + t))
  }

  ghost predicate Serving(i: nat, rest: seq<L.Op>) {
    exists n: nat, t :: Calls(i, t) && rest == [L.Release(L.Avr(i))] + (Drain(i, n) + t)
  }

  /** Inside an instruction batch: any further callbacks, then the end of the batch. */
  ghost predicate Inside(i: nat, rest: seq<L.Op>) {
    exists inside, t :: L.AllInner(i, inside) && Calls(i, t) && rest == L.Pairs(inside) + ([L.Release(L.Avr(i))] + t)
  }

  /** Before queue `at` of a broadcast: the command thread visits the rest of the four, an ECU
      thread is still inside its batch. */
  ghost predicate Sends(i: nat, at: nat, rest: seq<L.Op>) {
    if i == COMMAND then at <= 4 && exists t :: Calls(i, t) && rest == L.Pairs(QueuesFrom(at)) + t
    else Inside(i, rest)
  }

  // ----- one step back -----

  lemma QuietCall(i: nat, n: nat)
    requires i < 4
    ensures L.MayCall(Role(i), L.DrainCanRx(i, Frames(n))) && L.Ops(L.DrainCanRx(i, Frames(n))) == Drain(i, n)
  {
    assert forall k :: 0 <= k < n ==> L.AllInner(i, Frames(n)[k]);
  }

  lemma BackTop(i: nat, rest: seq<L.Op>)
    requires i < 4 && Onward(Check, i, rest)
    ensures Onward(Top, i, [L.Acquire(L.CanQ(i))] + rest) && Onward(Again, i, [L.Acquire(L.CanQ(i))] + rest)
  {
    hide L.MayCall, L.Ops, Drain, Calls, AfterLook;
    var n: nat, t :| Calls(i, t) && rest == [L.Release(L.CanQ(i))] + (AfterLook(i, n) + t);
    DrainLooks(i, n);
    assert [L.Acquire(L.CanQ(i))] + rest == Drain(i, n) + t;
    QuietCall(i, n);
    CallsNext(i, L.DrainCanRx(i, Frames(n)), t);
  }

  lemma BackCheck(pc: Pc, d: Pc, i: nat, rest: seq<L.Op>)
    requires i < 4 && pc == Check && (d.Took? || d == Drained) && Onward(d, i, rest)
    ensures Onward(pc, i, OpOf(pc, d, i) + rest)
  {
    hide Drain, Calls;
    if d == Drained {
      var zero: nat := 0;
      assert OpOf(pc, d, i) + rest == [L.Release(L.CanQ(i))] + (AfterLook(i, zero) + rest);
    } else {
      var n: nat, t :| Calls(i, t) && rest == [L.Release(L.CanQ(i))] + (L.GuardedOps(i, []) + (Drain(i, n) + t));
      assert AfterLook(i, n + 1) + t == L.GuardedOps(i, []) + (Drain(i, n) + t);
      assert OpOf(pc, d, i) + rest == [L.Release(L.CanQ(i))] + (AfterLook(i, n + 1) + t);
    }
  }

  /** From taking a frame to looking for the next one. */
  lemma BackDrain(pc: Pc, d: Pc, i: nat, rest: seq<L.Op>)
    requires i < 4 && (pc.Took? || pc.Advanced? || pc.Counted? || pc.Carry? || pc.Deliver? || pc.Served?)
    requires Follows(pc, d, i) && Onward(d, i, rest)
    ensures Onward(pc, i, OpOf(pc, d, i) + rest)
  {
    hide Drain, Calls;
    if pc.Counted? {
      var n: nat, t :| Calls(i, t) && rest == L.GuardedOps(i, []) + (Drain(i, n) + t);
      assert OpOf(pc, d, i) + rest == [L.Release(L.CanQ(i))] + (L.GuardedOps(i, []) + (Drain(i, n) + t));
    } else if pc.Carry? {
      var n: nat, t :| Calls(i, t) && rest == [L.Release(L.Avr(i))] + (Drain(i, n) + t);
      assert OpOf(pc, d, i) + rest == L.GuardedOps(i, []) + (Drain(i, n) + t);
    } else if pc.Served? {
      var n: nat, t :| Calls(i, t) && rest == Drain(i, n) + t;
      assert OpOf(pc, d, i) + rest == [L.Release(L.Avr(i))] + (Drain(i, n) + t);
    } else {
      assert OpOf(pc, d, i) + rest == rest;
    }
  }

  lemma BackDrained(d: Pc, i: nat, rest: seq<L.Op>)
    requires i < 4 && (d == Exec || d == Top) && Onward(d, i, rest)
    ensures Onward(Drained, i, OpOf(Drained, d, i) + rest)
  {
    hide L.MayCall, L.Ops, Calls, L.AllInner, L.Pairs;
    if d == Exec {
      var inside, t :| L.AllInner(i, inside) && Calls(i, t) && rest == L.Pairs(inside) + ([L.Release(L.Avr(i))] + t);
      BatchCall(i, inside);
      CallsNext(i, L.Guarded(i, inside), t);
      assert OpOf(Drained, d, i) + rest == L.GuardedOps(i, inside) + t;
    } else {
      assert OpOf(Drained, d, i) + rest == rest;
    }
  }

  lemma BatchCall(i: nat, inside: seq<L.Lock>)
    requires i < 4 && L.AllInner(i, inside)
    ensures L.MayCall(Role(i), L.Guarded(i, inside)) && L.Ops(L.Guarded(i, inside)) == L.GuardedOps(i, inside)
  {
  }

  lemma BackExec(d: Pc, i: nat, rest: seq<L.Op>)
    requires i < 4 && Follows(Exec, d, i) && Onward(d, i, rest)
    ensures Onward(Exec, i, OpOf(Exec, d, i) + rest)
  {
    hide Calls;
    if d == Drained {
      var none: seq<L.Lock> := [];
      assert OpOf(Exec, d, i) + rest == L.Pairs(none) + ([L.Release(L.Avr(i))] + rest);
    } else {
      assert OpOf(Exec, d, i) + rest == rest;
    }
  }

  /** A queue visited from inside a batch is one more callback. */
  lemma InsideNext(i: nat, at: nat, rest: seq<L.Op>)
    requires Inside(i, rest) && at != i
    ensures Inside(i, [L.Acquire(L.CanQ(at)), L.Release(L.CanQ(at))] + rest)
  {
    hide Calls;
    var inside, t :| L.AllInner(i, inside) && Calls(i, t) && rest == L.Pairs(inside) + ([L.Release(L.Avr(i))] + t);
    var more := [L.CanQ(at)] + inside;
    assert more[1..] == inside;
    assert L.AllInner(i, more);
    assert [L.Acquire(L.CanQ(at)), L.Release(L.CanQ(at))] + rest == L.Pairs(more) + ([L.Release(L.Avr(i))] + t);
  }

  /** Visiting queue `at` and then the later ones is visiting those from `at` on. */
  lemma SendsNext(i: nat, at: nat, rest: seq<L.Op>)
    requires i < 5 && at < 4 && at != i && Sends(i, at + 1, rest)
    ensures Sends(i, at, [L.Acquire(L.CanQ(at)), L.Release(L.CanQ(at))] + rest)
  {
    hide Calls, Inside;
    if i == COMMAND {
      var t :| Calls(i, t) && rest == L.Pairs(QueuesFrom(at + 1)) + t;
      assert QueuesFrom(at)[1..] == QueuesFrom(at + 1);
      assert [L.Acquire(L.CanQ(at)), L.Release(L.CanQ(at))] + rest == L.Pairs(QueuesFrom(at)) + t;
    } else {
      InsideNext(i, at, rest);
    }
  }

  lemma BackSkip(m: Msg, at: nat, d: Pc, i: nat, rest: seq<L.Op>)
    requires i < 5 && at <= 4 && (at == 4 || at == i) && Follows(Send(m, at, Want), d, i) && Onward(d, i, rest)
    ensures Onward(Send(m, at, Want), i, rest)
  {
    hide Calls, Inside;
    if i == COMMAND {
      assert L.Pairs(QueuesFrom(4)) + rest == rest;
    }
  }

  lemma BackTake(m: Msg, at: nat, i: nat, rest: seq<L.Op>)
    requires i < 5 && at < 4 && at != i && Onward(Send(m, at, Test), i, rest)
    ensures Onward(Send(m, at, Want), i, [L.Acquire(L.CanQ(at))] + rest)
  {
    hide Calls, Sends;
    var t :| Sends(i, at + 1, t) && rest == [L.Release(L.CanQ(at))] + t;
    SendsNext(i, at, t);
    assert [L.Acquire(L.CanQ(at))] + rest == [L.Acquire(L.CanQ(at)), L.Release(L.CanQ(at))] + t;
  }

  /** Between taking and releasing the lock of queue `at`. */
  lemma BackStore(m: Msg, at: nat, stage: Stage, d: Pc, i: nat, rest: seq<L.Op>)
    requires at < 4 && stage != Want && Follows(Send(m, at, stage), d, i) && Onward(d, i, rest)
    ensures Onward(Send(m, at, stage), i, OpOf(Send(m, at, stage), d, i) + rest)
  {
    hide Calls, Sends;
    if stage != Leave {
      assert OpOf(Send(m, at, stage), d, i) + rest == rest;
    }
  }

  lemma BackSend(m: Msg, at: nat, stage: Stage, d: Pc, i: nat, rest: seq<L.Op>)
    requires i < 5 && PcShape(Send(m, at, stage), i) && Follows(Send(m, at, stage), d, i) && Onward(d, i, rest)
    ensures Onward(Send(m, at, stage), i, OpOf(Send(m, at, stage), d, i) + rest)
  {
    hide Onward;
    if stage != Want {
      BackStore(m, at, stage, d, i, rest);
    } else if at == 4 || at == i {
      BackSkip(m, at, d, i, rest);
      assert [] + rest == rest;
    } else {
      BackTake(m, at, i, rest);
    }
  }

  lemma BackIdle(d: Pc, i: nat, rest: seq<L.Op>)
    requires i == COMMAND && Follows(Idle, d, i) && Onward(d, i, rest)
    ensures Onward(Idle, i, OpOf(Idle, d, i) + rest)
  {
    hide L.MayCall, L.Ops, Calls;
    CommandCalls(if d.Meddle? then d.chip else 0);
    if d.Meddle? {
      var t :| Calls(i, t) && rest == [L.Release(L.Avr(d.chip))] + t;
      CallsNext(i, L.Guarded(d.chip, []), t);
      assert OpOf(Idle, d, i) + rest == L.GuardedOps(d.chip, []) + t;
    } else {
      var t :| Calls(i, t) && rest == L.Pairs(QueuesFrom(0)) + t;
      CallsNext(i, L.CanInject, t);
      assert OpOf(Idle, d, i) + rest == rest;
    }
  }

  lemma CommandCalls(k: nat)
    ensures L.MayCall(Role(COMMAND), L.Guarded(k, [])) && L.Ops(L.Guarded(k, [])) == L.GuardedOps(k, [])
    ensures L.MayCall(Role(COMMAND), L.CanInject) && L.Ops(L.CanInject) == L.Pairs(QueuesFrom(0))
  {
    assert QueuesFrom(0) == [L.CanQ(0), L.CanQ(1), L.CanQ(2), L.CanQ(3)] by {
      assert QueuesFrom(3) == [L.CanQ(3)];
      assert QueuesFrom(2) == [L.CanQ(2), L.CanQ(3)];
    }
  }

  lemma BackMeddle(k: nat, i: nat, rest: seq<L.Op>)
    requires Onward(Idle, i, rest)
    ensures Onward(Meddle(k), i, OpOf(Meddle(k), Idle, i) + rest)
  {
    hide Calls;
  }

  /** Putting a step's lock operation in front of a way to go on after the step gives a way to
      go on before it. */
  lemma StepBack(pc: Pc, d: Pc, i: nat, rest: seq<L.Op>)
    requires i < 5 && PcShape(pc, i) && PcShape(d, i) && Follows(pc, d, i) && Onward(d, i, rest)
    ensures Onward(pc, i, OpOf(pc, d, i) + rest)
  {
    hide Onward;
    match pc
    case Top => BackTop(i, rest);
    case Again => BackTop(i, rest);
    case Check => BackCheck(pc, d, i, rest);
    case Drained => BackDrained(d, i, rest);
    case Exec => BackExec(d, i, rest);
    case Send(m, at, stage) => BackSend(m, at, stage, d, i, rest);
    case Idle => BackIdle(d, i, rest);
    case Meddle(k) => BackMeddle(k, i, rest);
    case _ => BackDrain(pc, d, i, rest);
  }

  // ----- runs -----

  lemma {:induction false} RunBack(st: State, ms: seq<Move>, i: nat, rest: seq<L.Op>)
    requires Inv(st) && Runnable(st, ms) && i < 5 && Shape(Run(st, ms)) && Onward(Run(st, ms).pcs[i], i, rest)
    ensures Onward(st.pcs[i], i, Trace(st, ms, i) + rest)
    decreases |ms|
  {
    hide Step, Locks, Rings, Conservation, Provenance, Enabled, Onward, StepOps, OpOf, Follows, PcShape;
    if ms == [] {
      assert Trace(st, ms, i) + rest == rest;
    } else {
      var m, b := ms[0], Step(st, ms[0]);
      StepKeeps(st, m);
      RunBack(b, ms[1..], i, rest);
      var more := Trace(b, ms[1..], i) + rest;
      assert Trace(st, ms, i) + rest == StepOps(st, b, i) + more;
      if i == Mover(m) {
        MoverOps(st, m);
        StepFollows(st, m);
        assert PcShape(st.pcs[i], i) && PcShape(b.pcs[i], i);
        StepBack(st.pcs[i], b.pcs[i], i, more);
      } else {
        OtherOps(st, m, i);
        assert [] + more == more;
      }
    }
  }

  /** There is always a way to go on. */
  lemma SomeOnward(pc: Pc, i: nat) returns (rest: seq<L.Op>)
    requires i < 5 && PcShape(pc, i)
    ensures Onward(pc, i, rest)
  {
    NoCalls(i);
    hide Calls;
    var zero: nat := 0;
    var none: seq<L.Op>, nobody: seq<L.Lock> := [], [];
    var batch := L.Pairs(nobody) + ([L.Release(L.Avr(i))] + none);
    assert L.AllInner(i, nobody);
    match pc
    case Top => rest := [];
    case Drained => rest := [];
    case Idle => rest := [];
    case Check => rest := [L.Release(L.CanQ(i))] + (AfterLook(i, zero) + none);
    case Carry(_) => rest := L.GuardedOps(i, []) + (Drain(i, zero) + none);
    case Deliver(_) => rest := [L.Release(L.Avr(i))] + (Drain(i, zero) + none);
    case Served => rest := [L.Release(L.Avr(i))] + (Drain(i, zero) + none);
    case Again => rest := Drain(i, zero) + none;
    case Exec => rest := batch;
    case Meddle(k) => rest := [L.Release(L.Avr(k))] + none;
    case Send(_, at, stage) =>
      var at' := if stage == Want then at else at + 1;
      var t := if i == COMMAND then L.Pairs(QueuesFrom(at')) + none else batch;
      assert Sends(i, at', t);
      rest := if stage == Want then t else [L.Release(L.CanQ(at))] + t;
    case _ => rest := [L.Release(L.CanQ(i))] + (L.GuardedOps(i, []) + (Drain(i, zero) + none));
  }

  /** In every run of the delivery system, the lock operations of each thread, in order, are
      those of calls the thread may make, the last one possibly unfinished. */
  lemma TraceIsCalls(st: State, ms: seq<Move>, i: nat) returns (rest: seq<L.Op>)
    requires Started(st, ms) && i < 5
    ensures Calls(i, Trace(st, ms, i) + rest)
  {
    hide Onward, Locks, Rings, Conservation, Provenance, Run, Calls, Trace;
    InitialInv(st);
    StartedInv(st, ms);
    rest := SomeOnward(Run(st, ms).pcs[i], i);
    RunBack(st, ms, i, rest);
    assert st.pcs[i] == if i == COMMAND then Idle else Top;
    FirstOnward(i, Trace(st, ms, i) + rest);
  }

  lemma FirstOnward(i: nat, ops: seq<L.Op>)
    requires Onward(if i == COMMAND then Idle else Top, i, ops)
    ensures Calls(i, ops)
  {
  }
}
