/** The delivery of frames never gets stuck: from every reachable state, whatever locks are held,
    the broadcasts under way can be finished and every queue drained. */
module CanProgress {
  import opened CanDelivery

  // ----- who can step -----

  /** Thread i does something other than start a further batch, broadcast or command: it goes on
      with what it is doing, or looks at its queue again because a frame is waiting. */
  predicate Progress(st: State, m: Move)
    requires Shape(st)
  {
    && Enabled(st, m)
    && ((m.Go? && st.pcs[m.i] != Drained) || (m.Rest? && st.targets[m.i].queue != []))
  }

  /** Nobody is inside anything and no frame is waiting. */
  predicate Quiet(st: State)
    requires Shape(st)
  {
    (forall i :: 0 <= i < 4 ==> st.pcs[i] == Drained && st.targets[i].queue == []) && st.pcs[COMMAND] == Idle
  }

  predicate InQueue(pc: Pc) {
    pc.Check? || pc.Took? || pc.Advanced? || pc.Counted? || (pc.Send? && pc.stage != Want)
  }

  predicate WantsQueue(pc: Pc) { pc == Top || pc == Again || (pc.Send? && pc.stage == Want) }

  predicate OnChip(pc: Pc) { pc.Deliver? || pc == Served || pc == Exec || pc.Meddle? }

  /** Whoever is inside a queue's critical section can go on. */
  lemma InQueueSteps(st: State, i: nat)
    requires Shape(st) && i < 5 && InQueue(st.pcs[i])
    ensures Progress(st, Go(i))
  {
    assert PcShape(st.pcs[i], i);
  }

  lemma OwnersHold(st: State, k: nat)
    requires Shape(st) && Locks(st) && k < 4
    ensures var o := st.targets[k].owner; FREE <= o < 5 && (o != FREE ==> HoldsQueue(st.pcs[o], o, k))
    ensures var o := st.avr[k]; FREE <= o < 5 && (o != FREE ==> HoldsAvr(st.pcs[o], o, k))
  {
    hide HoldsQueue, HoldsAvr;
  }

  lemma QueuesFree(st: State, t: nat)
    requires Shape(st) && Locks(st) && t < 4 && (forall i :: 0 <= i < 5 ==> !InQueue(st.pcs[i]))
    ensures st.targets[t].owner == FREE
  {
    OwnersHold(st, t);
    forall i | 0 <= i < 5 ensures !HoldsQueue(st.pcs[i], i, t) {
      assert !InQueue(st.pcs[i]);
    }
  }

  lemma ChipsFree(st: State, k: nat)
    requires Shape(st) && Locks(st) && k < 4
    requires forall i :: 0 <= i < 5 ==> !OnChip(st.pcs[i]) && !st.pcs[i].Send?
    ensures st.avr[k] == FREE
  {
    OwnersHold(st, k);
    forall i | 0 <= i < 5 ensures !HoldsAvr(st.pcs[i], i, k) {
      assert !OnChip(st.pcs[i]);
    }
  }

  /** If nobody is inside a queue, everyone who wants one can take it. */
  lemma WantsQueueSteps(st: State, i: nat)
    requires Shape(st) && Locks(st) && i < 5 && WantsQueue(st.pcs[i]) && (forall j :: 0 <= j < 5 ==> !InQueue(st.pcs[j]))
    ensures Progress(st, Go(i))
  {
    assert PcShape(st.pcs[i], i);
    var pc := st.pcs[i];
    if pc.Send? {
      if pc.at < 4 {
        QueuesFree(st, pc.at);
      }
    } else {
      QueuesFree(st, i);
    }
  }

  lemma OnChipSteps(st: State, i: nat)
    requires Shape(st) && i < 5 && OnChip(st.pcs[i])
    ensures Progress(st, Go(i))
  {
    assert PcShape(st.pcs[i], i);
  }

  lemma CarrySteps(st: State, i: nat)
    requires Shape(st) && Locks(st) && i < 5 && st.pcs[i].Carry?
    requires forall j :: 0 <= j < 5 ==> !OnChip(st.pcs[j]) && !st.pcs[j].Send?
    ensures Progress(st, Go(i))
  {
    assert PcShape(st.pcs[i], i);
    ChipsFree(st, i);
  }

  /** Unless all is quiet, some thread can go on. */
  lemma NeverStuck(st: State) returns (m: Move)
    requires Inv(st)
    ensures !Quiet(st) ==> Progress(st, m)
  {
    hide Locks, Rings, Conservation, Provenance, Progress, InQueue, WantsQueue, OnChip;
    m := Go(0);
    if i :| 0 <= i < 5 && InQueue(st.pcs[i]) {
      InQueueSteps(st, i);
      m := Go(i);
    } else if i :| 0 <= i < 5 && WantsQueue(st.pcs[i]) {
      WantsQueueSteps(st, i);
      m := Go(i);
    } else if i :| 0 <= i < 5 && OnChip(st.pcs[i]) {
      OnChipSteps(st, i);
      m := Go(i);
    } else {
      forall i | 0 <= i < 5 ensures !st.pcs[i].Send? && (st.pcs[i].Carry? || st.pcs[i] == if i == COMMAND then Idle else Drained) {
        Remaining(st, i);
      }
      if i :| 0 <= i < 5 && st.pcs[i].Carry? {
        CarrySteps(st, i);
        m := Go(i);
      } else if i :| 0 <= i < 4 && st.targets[i].queue != [] {
        m := Rest(i);
        RestSteps(st, i);
      }
    }
  }

  lemma Remaining(st: State, i: nat)
    requires Shape(st) && i < 5 && !InQueue(st.pcs[i]) && !WantsQueue(st.pcs[i]) && !OnChip(st.pcs[i])
    ensures !st.pcs[i].Send? && (st.pcs[i].Carry? || st.pcs[i] == if i == COMMAND then Idle else Drained)
  {
    assert PcShape(st.pcs[i], i);
  }

  lemma RestSteps(st: State, i: nat)
    requires Shape(st) && i < 4 && st.pcs[i] == Drained && st.targets[i].queue != []
    ensures Progress(st, Rest(i))
  {
  }

  // ----- work left -----

  /** Steps that a thread has ahead of it, with enough in hand for the frames it will queue. */
  function Ahead(pc: Pc): nat {
    match pc
    case Top => 2
    case Check => 1
    case Took(_) => 8
    case Advanced(_) => 7
    case Counted(_) => 6
    case Carry(_) => 5
    case Deliver(_) => 4
    case Served => 3
    case Again => 2
    case Drained => 0
    case Exec => 1
    case Idle => 0
    case Meddle(_) => 1
    case Send(_, at, stage) =>
      var left := if at < 4 then 20 * (4 - at) else 0;
      2 + left - if left == 0 then 0 else
        match stage
        case Want => 0
        case Test => 1
        case Wrote => 2
        case Moved => 3
        case Leave => 18
  }

  /** The thread will not look at its queue again of its own accord. */
  predicate Asleep(pc: Pc) { pc == Drained || pc == Exec || pc.Send? }

  function Waiting(x: Target, pc: Pc): nat {
    8 * |x.queue| + if x.queue != [] && Asleep(pc) then 3 else 0
  }

  function Work(st: State, i: nat): nat
    requires Shape(st) && i < 5
  {
    Ahead(st.pcs[i]) + if i < 4 then Waiting(st.targets[i], st.pcs[i]) else 0
  }

  function AllWork(st: State): nat
    requires Shape(st)
  {
    Work(st, 0) + Work(st, 1) + Work(st, 2) + Work(st, 3) + Work(st, 4)
  }

  lemma DequeueDrops(x: Target, i: nat, pc: Pc)
    requires TargetShape(x) && (pc == Check ==> x.count == |x.queue|)
    requires !pc.Send? && pc != Drained && !pc.Idle? && !pc.Meddle?
    ensures var (y, d) := Dequeue(x, i, pc); Ahead(d) + Waiting(y, d) < Ahead(pc) + Waiting(x, pc)
  {
  }

  lemma EnqueueDrops(x: Target, i: nat, m: Msg, at: nat, stage: Stage)
    requires TargetShape(x) && at < 4
    ensures var (y, d) := Enqueue(x, i, m, at, stage);
      && d.Send?
      && Ahead(d) + (if stage == Moved then 15 else 1) <= Ahead(Send(m, at, stage))
      && forall pc :: Waiting(y, pc) <= Waiting(x, pc) + if stage == Moved then 11 else 0
  {
  }

  lemma SendDrops(st: State, i: nat)
    requires Shape(st) && i < 5 && st.pcs[i].Send?
    ensures var m, at, stage := st.pcs[i].m, st.pcs[i].at, st.pcs[i].stage;
      var b := Sending(st, i, m, at, stage);
      && Shape(b)
      && Work(b, i) + (if at < 4 && at != i && stage == Moved then 15 else 1) <= Work(st, i)
      && (forall j :: 0 <= j < 5 && j != i ==>
            Work(b, j) <= Work(st, j) + if j == at && at < 4 && stage == Moved then 11 else 0)
  {
    SendingShape(st, i);
    assert PcShape(st.pcs[i], i);
    hide Enqueue, Waiting, PcShape, TargetShape;
    var m, at, stage := st.pcs[i].m, st.pcs[i].at, st.pcs[i].stage;
    if at < 4 && at != i {
      EnqueueDrops(st.targets[at], i, m, at, stage);
      SendAwake(st.targets[if i < 4 then i else 0], st.pcs[i], Enqueue(st.targets[at], i, m, at, stage).1);
    } else {
      SendAwake(st.targets[if i < 4 then i else 0], st.pcs[i], Sending(st, i, m, at, stage).pcs[i]);
    }
  }

  /** Within a broadcast and at its end the thread stays asleep. */
  lemma SendAwake(x: Target, pc: Pc, d: Pc)
    requires pc.Send?
    ensures d.Send? || d == Exec || d == Idle ==> Waiting(x, d) <= Waiting(x, pc)
  {
  }

  lemma DrainDrops(st: State, i: nat)
    requires Shape(st) && Locks(st) && Rings(st) && Progress(st, Go(i)) && i < 4 && !st.pcs[i].Send?
    ensures var b := Draining(st, i);
      && Shape(b) && Work(b, i) < Work(st, i)
      && forall j :: 0 <= j < 5 && j != i ==> Work(b, j) == Work(st, j)
  {
    DrainingShape(st, i);
    DrainingMoves(st, i);
    assert PcShape(st.pcs[i], i);
    var b, x, pc := Draining(st, i), st.targets[i], st.pcs[i];
    assert b.targets[i] == Dequeue(x, i, pc).0 && b.pcs[i] == Dequeue(x, i, pc).1;
    if pc == Check {
      CountIsQueue(st, i);
    }
    DequeueDrops(x, i, pc);
    hide Waiting, Ahead, Dequeue;
  }

  lemma CountIsQueue(st: State, i: nat)
    requires Shape(st) && Locks(st) && Rings(st) && i < 4 && st.pcs[i] == Check
    ensures st.targets[i].count == |st.targets[i].queue|
  {
    assert st.targets[i].owner == i <==> HoldsQueue(st.pcs[i], i, i);
    assert RingOk(st.targets[i], OwnerPc(st, i));
  }

  lemma ProgressDrops(st: State, m: Move)
    requires Inv(st) && Progress(st, m)
    ensures Shape(Step(st, m)) && AllWork(Step(st, m)) < AllWork(st)
  {
    hide Locks, Rings, Conservation, Provenance, Sending, Draining, Work, PcShape;
    StepShape(st, m);
    if m.Go? && st.pcs[m.i].Send? {
      SendDrops(st, m.i);
    } else if m.Go? && m.i != COMMAND {
      DrainDrops(st, m.i);
    } else {
      OtherDrops(st, m);
    }
  }

  /** A command lets its chip go, or a thread turns back to its queue. */
  lemma OtherDrops(st: State, m: Move)
    requires Shape(st) && Progress(st, m) && (m.Rest? || (m.i == COMMAND && !st.pcs[m.i].Send?))
    ensures var b := Step(st, m);
      && Shape(b) && Work(b, m.i) < Work(st, m.i)
      && forall j :: 0 <= j < 5 && j != m.i ==> Work(b, j) == Work(st, j)
  {
    hide Sending, Draining;
    StepShape(st, m);
    assert PcShape(st.pcs[m.i], m.i);
  }

  // ----- settling -----

  predicate Starts(m: Move) { m.Emit? || m.Touch? }

  lemma ProgressSends(st: State, m: Move)
    requires Inv(st) && Progress(st, m)
    ensures Step(st, m).sent == st.sent && !Starts(m)
  {
    hide Locks, Rings, Conservation, Provenance;
    if m.Go? && !st.pcs[m.i].Send? && m.i != COMMAND {
      DrainingMoves(st, m.i);
    }
  }

  /** From every state with the invariant some schedule that starts nothing new leads to quiet. */
  lemma {:induction false} CanSettle(st: State) returns (ms: seq<Move>)
    requires Inv(st)
    ensures Runnable(st, ms) && Shape(Run(st, ms)) && Quiet(Run(st, ms)) && Inv(Run(st, ms))
    ensures Run(st, ms).sent == st.sent && forall k :: 0 <= k < |ms| ==> !Starts(ms[k])
    decreases AllWork(st)
  {
    hide Locks, Rings, Conservation, Provenance, Quiet, Step, Enabled, AllWork, Starts;
    if Quiet(st) {
      ms := [];
    } else {
      var m := NeverStuck(st);
      ProgressDrops(st, m);
      ProgressSends(st, m);
      StepKeeps(st, m);
      var rest := CanSettle(Step(st, m));
      ms := [m] + rest;
      assert ms[0] == m && ms[1..] == rest;
    }
  }

  /** After any run of the five threads, some schedule without new broadcasts ends with every
      thread at rest, every queue empty, and every receiver handed exactly what its queue had
      accepted: all broadcasts of the others except those it had no room for. */
  lemma SettlesOverRuns(st: State, ms: seq<Move>) returns (more: seq<Move>)
    requires Started(st, ms)
    ensures var e := Run(st, ms);
      && Shape(e) && Runnable(e, more) && (forall k :: 0 <= k < |more| ==> !Starts(more[k]))
      && var d := Run(e, more);
      && Shape(d) && Quiet(d) && d.sent == e.sent
      && forall t :: 0 <= t < 4 ==>
           && d.targets[t].handed == Chosen(d.targets[t].arrivals, true)
           && forall s :: 0 <= s < 5 && s != t ==>
                From(All(d.targets[t].arrivals), s) == Numbered(s, d.sent[s], |d.sent[s]|)
  {
    hide Locks, Rings, Run, Starts, From, Chosen, Conservation, Provenance;
    StartedInv(st, ms);
    more := CanSettle(Run(st, ms));
    var d := Run(Run(st, ms), more);
    forall t | 0 <= t < 4
      ensures d.targets[t].handed == Chosen(d.targets[t].arrivals, true)
    {
      QuietHanded(d, t);
    }
    forall t, s | 0 <= t < 4 && 0 <= s < 5 && s != t
      ensures From(All(d.targets[t].arrivals), s) == Numbered(s, d.sent[s], |d.sent[s]|)
    {
      ArrivalsExact(d, t, s);
      QuietPassed(d, t, s);
    }
  }

  lemma QuietHanded(st: State, t: nat)
    requires Inv(st) && Quiet(st) && t < 4
    ensures st.targets[t].handed == Chosen(st.targets[t].arrivals, true)
  {
    hide Locks, Rings, Provenance, Chosen;
    assert Conserved(st.targets[t], st.pcs[t]);
    assert st.targets[t].handed + [] + [] == st.targets[t].handed;
  }

  lemma QuietPassed(st: State, t: nat, s: nat)
    requires Shape(st) && Quiet(st) && t < 4 && s < 5
    ensures Passed(st.pcs[s], |st.sent[s]|, t) == |st.sent[s]|
  {
  }
}
