/** The engine's mutexes and the threads that take them. Each source function is the list of
    lock operations it performs; threads interleave these lists in every possible way. */
module LockHierarchy {

  /** Avr(k) guards chip k; all other locks are leaves: CAN receive queues, UART transmit and
      receive rings, client sockets, the output stream and the command queue. */
  datatype Lock = Avr(k: nat) | CanQ(k: nat) | Tx(k: nat) | Rx(k: nat) | Client(k: nat) | Out | CmdQ

  datatype Op = Acquire(l: Lock) | Release(l: Lock)

  // ----- what the source functions do -----

  datatype Role = Chip(k: nat) | Server(k: nat) | Command | Feeder

  /** Calls from a thread's top level. `inside` lists the leaf locks that callbacks take and
      release, in turn, while the chip's lock is held. */
  datatype Call =
    | DrainCanRx(k: nat, frames: seq<seq<Lock>>)
    | Guarded(k: nat, inside: seq<Lock>)
    | FlushTx(k: nat, pending: bool)
    | AcceptClient(k: nat)
    | PushRx(k: nat)
    | CloseClient(k: nat)
    | EachChip(chips: nat)
    | CanInject
    | QueueCommand
    | Emit

  function Pair(l: Lock): seq<Op> { [Acquire(l), Release(l)] }

  function Pairs(ls: seq<Lock>): seq<Op> {
    if ls == [] then [] else Pair(ls[0]) + Pairs(ls[1..])
  }

  function GuardedOps(k: nat, inside: seq<Lock>): seq<Op> {
    [Acquire(Avr(k))] + Pairs(inside) + [Release(Avr(k))]
  }

  /** The queue lock is dropped around each hand-over. */
  function DrainOps(k: nat, frames: seq<seq<Lock>>): seq<Op> {
    if frames == [] then Pair(CanQ(k)) else Pair(CanQ(k)) + GuardedOps(k, frames[0]) + DrainOps(k, frames[1..])
  }

  function EachOps(chips: nat): seq<Op> {
    if chips == 0 then [] else EachOps(chips - 1) + GuardedOps(chips - 1, [])
  }

  function Ops(c: Call): seq<Op> {
    match c
    case DrainCanRx(k, frames) => DrainOps(k, frames)
    case Guarded(k, inside) => GuardedOps(k, inside)
    case FlushTx(k, pending) => Pair(Tx(k)) + if pending then Pair(Client(k)) else []
    case AcceptClient(k) => Pair(Client(k)) + Pair(Tx(k)) + Pair(Rx(k))
    case PushRx(k) => Pair(Rx(k))
    case CloseClient(k) => Pair(Client(k))
    case EachChip(chips) => EachOps(chips)
    case CanInject => Pairs([CanQ(0), CanQ(1), CanQ(2), CanQ(3)])
    case QueueCommand => Pair(CmdQ)
    case Emit => Pair(Out)
  }

  /** Locks that code running under chip k's lock takes: events, UART bytes out and in, and
      the queues of the other ECUs when a frame goes out. */
  predicate Inner(k: nat, l: Lock) {
    l == Out || l == Tx(k) || l == Rx(k) || (l.CanQ? && l.k != k)
  }

  predicate AllInner(k: nat, ls: seq<Lock>) { forall i :: 0 <= i < |ls| ==> Inner(k, ls[i]) }

  predicate MayCall(r: Role, c: Call) {
    && (c.DrainCanRx? ==> forall n :: 0 <= n < |c.frames| ==> AllInner(c.k, c.frames[n]))
    && (c.Guarded? ==> AllInner(c.k, c.inside))
    && match r
       case Chip(k) => ((c.DrainCanRx? || c.Guarded? || c.FlushTx?) && c.k == k) || c.Emit?
       case Server(k) => (c.AcceptClient? || c.PushRx? || c.CloseClient?) && c.k == k
       case Command => c.Guarded? || c.EachChip? || c.CanInject? || c.QueueCommand? || c.Emit?
       case Feeder => c.QueueCommand? || c.Emit?
  }

  // ----- threads -----

  /** The locks held, in the order taken, and the operations left of the current call. */
  datatype Thread = Thread(held: seq<Lock>, todo: seq<Op>)

  type State = seq<Thread>

  predicate Free(st: State, l: Lock) {
    forall i :: 0 <= i < |st| ==> l !in st[i].held
  }

  predicate CanStep(st: State, i: nat)
    requires i < |st|
  {
    st[i].todo != [] && (st[i].todo[0].Acquire? ==> Free(st, st[i].todo[0].l))
  }

  function Without(held: seq<Lock>, l: Lock): (r: seq<Lock>)
    ensures forall x :: x in r ==> x in held
  {
    if held == [] then [] else if held[|held| - 1] == l then held[..|held| - 1] else Without(held[..|held| - 1], l) + [held[|held| - 1]]
  }

  function Advance(th: Thread): Thread
    requires th.todo != []
  {
    match th.todo[0]
    case Acquire(l) => Thread(th.held + [l], th.todo[1..])
    case Release(l) => Thread(Without(th.held, l), th.todo[1..])
  }

  function Step(st: State, i: nat): State
    requires i < |st| && CanStep(st, i)
  {
    st[i := Advance(st[i])]
  }

  /** A thread between calls starts another one. */
  function Begin(st: State, i: nat, c: Call): State
    requires i < |st|
  {
    st[i := Thread(st[i].held, Ops(c))]
  }

  datatype Move = Go(i: nat) | Start(i: nat, c: Call)

  predicate Enabled(st: State, roles: seq<Role>, m: Move) {
    && m.i < |st| && m.i < |roles|
    && if m.Go? then CanStep(st, m.i) else st[m.i].todo == [] && MayCall(roles[m.i], m.c)
  }

  function Next(st: State, roles: seq<Role>, m: Move): State
    requires Enabled(st, roles, m)
  {
    if m.Go? then Step(st, m.i) else Begin(st, m.i, m.c)
  }

  // ----- the discipline -----

  /** At most one chip lock, and at most one leaf, taken last. */
  predicate CanHold(held: seq<Lock>) {
    |held| <= 2 && (|held| == 2 ==> held[0].Avr? && !held[1].Avr?)
  }

  /** A thread with `held` may run `todo`: a chip lock is taken with nothing held, a leaf with
      at most a chip lock held, release is last in first out, and nothing is held at the end. */
  predicate Disciplined(held: seq<Lock>, todo: seq<Op>)
    decreases |todo|
  {
    && CanHold(held)
    && if todo == [] then held == []
       else match todo[0]
         case Acquire(l) =>
           && (held == [] || (|held| == 1 && held[0].Avr? && !l.Avr?))
           && Disciplined(held + [l], todo[1..])
         case Release(l) =>
           && held != [] && held[|held| - 1] == l
           && Disciplined(held[..|held| - 1], todo[1..])
  }

  lemma PairDisciplined(held: seq<Lock>, l: Lock, rest: seq<Op>)
    requires Disciplined(held, rest) && (held == [] || (|held| == 1 && held[0].Avr? && !l.Avr?))
    ensures Disciplined(held, Pair(l) + rest)
  {
    var ops := Pair(l) + rest;
    assert ops[1..] == [Release(l)] + rest;
    assert ops[1..][1..] == rest;
    assert (held + [l])[..|held|] == held;
  }

  lemma {:induction false} PairsDisciplined(k: nat, inside: seq<Lock>, rest: seq<Op>)
    requires Disciplined([Avr(k)], rest) && AllInner(k, inside)
    ensures Disciplined([Avr(k)], Pairs(inside) + rest)
  {
    if inside == [] {
      assert Pairs(inside) + rest == rest;
    } else {
      PairsDisciplined(k, inside[1..], rest);
      assert Inner(k, inside[0]);
      PairDisciplined([Avr(k)], inside[0], Pairs(inside[1..]) + rest);
      assert Pairs(inside) + rest == Pair(inside[0]) + (Pairs(inside[1..]) + rest);
    }
  }

  lemma CloseDisciplined(k: nat, rest: seq<Op>)
    requires Disciplined([], rest)
    ensures Disciplined([Avr(k)], [Release(Avr(k))] + rest)
  {
    assert ([Release(Avr(k))] + rest)[1..] == rest && [Avr(k)][..0] == [];
  }

  lemma OpenDisciplined(k: nat, body: seq<Op>)
    requires Disciplined([Avr(k)], body)
    ensures Disciplined([], [Acquire(Avr(k))] + body)
  {
    assert ([Acquire(Avr(k))] + body)[1..] == body && [] + [Avr(k)] == [Avr(k)];
  }

  lemma GuardedDisciplined(k: nat, inside: seq<Lock>, rest: seq<Op>)
    requires Disciplined([], rest) && AllInner(k, inside)
    ensures Disciplined([], GuardedOps(k, inside) + rest)
  {
    hide Disciplined, Pairs, AllInner;
    var close := [Release(Avr(k))] + rest;
    CloseDisciplined(k, rest);
    PairsDisciplined(k, inside, close);
    OpenDisciplined(k, Pairs(inside) + close);
    assert GuardedOps(k, inside) + rest == [Acquire(Avr(k))] + (Pairs(inside) + close);
  }

  lemma {:induction false} DrainDisciplined(k: nat, frames: seq<seq<Lock>>)
    requires forall n :: 0 <= n < |frames| ==> AllInner(k, frames[n])
    ensures Disciplined([], DrainOps(k, frames))
  {
    hide Disciplined, Pair, GuardedOps, AllInner;
    EmptyDisciplined();
    if frames == [] {
      PairDisciplined([], CanQ(k), []);
      assert Pair(CanQ(k)) + [] == Pair(CanQ(k));
    } else {
      var rest := DrainOps(k, frames[1..]);
      DrainDisciplined(k, frames[1..]);
      GuardedDisciplined(k, frames[0], rest);
      PairDisciplined([], CanQ(k), GuardedOps(k, frames[0]) + rest);
      assert DrainOps(k, frames) == Pair(CanQ(k)) + (GuardedOps(k, frames[0]) + rest);
    }
  }

  lemma {:induction false} EachDisciplined(chips: nat, rest: seq<Op>)
    requires Disciplined([], rest)
    ensures Disciplined([], EachOps(chips) + rest)
  {
    if chips == 0 {
      assert EachOps(chips) + rest == rest;
    } else {
      GuardedDisciplined(chips - 1, [], rest);
      EachDisciplined(chips - 1, GuardedOps(chips - 1, []) + rest);
      assert EachOps(chips) + rest == EachOps(chips - 1) + (GuardedOps(chips - 1, []) + rest);
    }
  }

  lemma PairsAloneDisciplined(a: Lock, b: Lock, c: Lock, d: Lock)
    ensures Disciplined([], Pair(a))
    ensures Disciplined([], Pair(a) + Pair(b))
    ensures Disciplined([], Pair(a) + Pair(b) + Pair(c))
    ensures Disciplined([], Pairs([a, b, c, d]))
  {
    PairDisciplined([], d, []);
    PairDisciplined([], c, Pair(d) + []);
    PairDisciplined([], b, Pair(c) + (Pair(d) + []));
    PairDisciplined([], a, Pair(b) + (Pair(c) + (Pair(d) + [])));
    FourPairs(a, b, c, d);
    PairDisciplined([], c, []);
    PairDisciplined([], b, Pair(c) + []);
    PairDisciplined([], a, Pair(b) + (Pair(c) + []));
    assert Pair(a) + Pair(b) + Pair(c) == Pair(a) + (Pair(b) + (Pair(c) + []));
    PairDisciplined([], b, []);
    PairDisciplined([], a, Pair(b) + []);
    assert Pair(a) + Pair(b) == Pair(a) + (Pair(b) + []);
    PairDisciplined([], a, []);
    assert Pair(a) == Pair(a) + [];
  }

  lemma FourPairs(a: Lock, b: Lock, c: Lock, d: Lock)
    ensures Pairs([a, b, c, d]) == Pair(a) + (Pair(b) + (Pair(c) + (Pair(d) + [])))
  {
    assert [a, b, c, d][1..] == [b, c, d] && [b, c, d][1..] == [c, d] && [c, d][1..] == [d] && [d][1..] == [];
    assert Pairs([d]) == Pair(d) + [];
    assert Pairs([c, d]) == Pair(c) + Pairs([d]);
    assert Pairs([b, c, d]) == Pair(b) + Pairs([c, d]);
  }

  /** Everything any thread of the engine calls respects the hierarchy. */
  lemma CallsDisciplined(r: Role, c: Call)
    requires MayCall(r, c)
    ensures Disciplined([], Ops(c))
  {
    hide Disciplined, Pairs, Pair;
    match c
    case DrainCanRx(k, frames) => DrainDisciplined(k, frames);
    case Guarded(k, inside) =>
      EmptyDisciplined();
      GuardedDisciplined(k, inside, []);
      assert GuardedOps(k, inside) + [] == GuardedOps(k, inside);
    case FlushTx(k, pending) =>
      PairsAloneDisciplined(Tx(k), Client(k), Out, Out);
      assert Pair(Tx(k)) + [] == Pair(Tx(k));
    case AcceptClient(k) => PairsAloneDisciplined(Client(k), Tx(k), Rx(k), Out);
    case PushRx(k) => PairsAloneDisciplined(Rx(k), Out, Out, Out);
    case CloseClient(k) => PairsAloneDisciplined(Client(k), Out, Out, Out);
    case EachChip(chips) =>
      EmptyDisciplined();
      EachDisciplined(chips, []);
      assert EachOps(chips) + [] == EachOps(chips);
    case CanInject => PairsAloneDisciplined(CanQ(0), CanQ(1), CanQ(2), CanQ(3));
    case QueueCommand => PairsAloneDisciplined(CmdQ, Out, Out, Out);
    case Emit => PairsAloneDisciplined(Out, Out, Out, Out);
  }

  lemma EmptyDisciplined()
    ensures Disciplined([], [])
  {
  }

  // ----- the invariant -----

  /** Every thread keeps to the hierarchy, and every lock has at most one holder. */
  predicate Orderly(st: State) { forall i :: 0 <= i < |st| ==> Disciplined(st[i].held, st[i].todo) }

  ghost predicate Exclusive(st: State) {
    forall i, j, l :: 0 <= i < |st| && 0 <= j < |st| && l in st[i].held && l in st[j].held ==> i == j
  }

  ghost predicate Inv(st: State) { Orderly(st) && Exclusive(st) }

  lemma AdvanceDisciplined(th: Thread)
    requires Disciplined(th.held, th.todo) && th.todo != []
    ensures Disciplined(Advance(th).held, Advance(th).todo)
    ensures th.todo[0].Release? ==> Advance(th).held == th.held[..|th.held| - 1]
  {
  }

  lemma StepKeeps(st: State, i: nat)
    requires Inv(st) && i < |st| && CanStep(st, i)
    ensures Inv(Step(st, i))
  {
    hide Disciplined;
    AdvanceDisciplined(st[i]);
    forall a, b, l | 0 <= a < |st| && 0 <= b < |st| && l in Step(st, i)[a].held && l in Step(st, i)[b].held
      ensures a == b
    {
      var op := st[i].todo[0];
      assert a != i ==> l in st[a].held;
      assert b != i ==> l in st[b].held;
      if op.Acquire? && l == op.l {
        assert a == i && b == i;
      } else {
        assert l in st[a].held && l in st[b].held;
      }
    }
  }

  lemma NextKeeps(st: State, roles: seq<Role>, m: Move)
    requires Inv(st) && Enabled(st, roles, m)
    ensures Inv(Next(st, roles, m))
  {
    if m.Go? {
      StepKeeps(st, m.i);
    } else {
      assert Disciplined(st[m.i].held, []);
      CallsDisciplined(roles[m.i], m.c);
    }
  }

  ghost predicate Runnable(st: State, roles: seq<Role>, ms: seq<Move>)
    decreases |ms|
  {
    ms == [] || (Enabled(st, roles, ms[0]) && Runnable(Next(st, roles, ms[0]), roles, ms[1..]))
  }

  ghost function Run(st: State, roles: seq<Role>, ms: seq<Move>): State
    requires Runnable(st, roles, ms)
    decreases |ms|
  {
    if ms == [] then st else Run(Next(st, roles, ms[0]), roles, ms[1..])
  }

  predicate AtRest(st: State) {
    forall i :: 0 <= i < |st| ==> st[i] == Thread([], [])
  }

  lemma {:induction false} RunKeeps(st: State, roles: seq<Role>, ms: seq<Move>)
    requires Inv(st) && Runnable(st, roles, ms)
    ensures Inv(Run(st, roles, ms))
    decreases |ms|
  {
    hide Inv, Next, Enabled;
    if ms != [] {
      NextKeeps(st, roles, ms[0]);
      RunKeeps(Next(st, roles, ms[0]), roles, ms[1..]);
    }
  }

  /** In every reachable state, with any number of threads: nobody holds two chip locks,
      nobody waits for anything while holding a leaf, and no lock has two holders. */
  lemma HierarchyHolds(st: State, roles: seq<Role>, ms: seq<Move>, i: nat)
    requires AtRest(st) && Runnable(st, roles, ms) && i < |Run(st, roles, ms)|
    ensures Exclusive(Run(st, roles, ms))
    ensures var th := Run(st, roles, ms)[i];
      && (forall a, b :: 0 <= a < |th.held| && 0 <= b < |th.held| && th.held[a].Avr? && th.held[b].Avr? ==> a == b)
      && (forall a :: 0 <= a < |th.held| && !th.held[a].Avr? ==> th.todo != [] && th.todo[0] == Release(th.held[a]))
  {
    hide Run, Runnable;
    RestInv(st);
    RunKeeps(st, roles, ms);
    var th := Run(st, roles, ms)[i];
    assert Disciplined(th.held, th.todo);
    LeafMeansRelease(th);
  }

  lemma RestInv(st: State)
    requires AtRest(st)
    ensures Inv(st)
  {
    assert forall j :: 0 <= j < |st| ==> st[j] == Thread([], []);
  }

  lemma LeafMeansRelease(th: Thread)
    requires Disciplined(th.held, th.todo)
    ensures forall a :: 0 <= a < |th.held| && !th.held[a].Avr? ==>
      a == |th.held| - 1 && th.todo != [] && th.todo[0] == Release(th.held[a])
  {
  }

  // ----- progress -----

  predicate Busy(th: Thread) { th.held != [] }

  /** A thread that holds a leaf can always go on. */
  lemma LeafHolderSteps(st: State, i: nat)
    requires Inv(st) && i < |st| && st[i].held != [] && !st[i].held[|st[i].held| - 1].Avr?
    ensures CanStep(st, i)
  {
    assert Disciplined(st[i].held, st[i].todo);
  }

  /** Whoever holds a lock can go on, or waits for a leaf whose holder can. */
  lemma HolderUnblocks(st: State, i: nat) returns (j: nat)
    requires Inv(st) && i < |st| && Busy(st[i])
    ensures j < |st| && Busy(st[j]) && CanStep(st, j)
  {
    assert Disciplined(st[i].held, st[i].todo);
    if CanStep(st, i) {
      j := i;
    } else {
      var l := st[i].todo[0].l;
      j :| 0 <= j < |st| && l in st[j].held;
      assert Disciplined(st[j].held, st[j].todo);
      LeafHolderSteps(st, j);
    }
  }

  /** No deadlock: while any thread has something left to do, some thread can step, and while
      any lock is held, some holder can. */
  lemma NoDeadlock(st: State, i: nat) returns (j: nat)
    requires Inv(st) && i < |st| && st[i].todo != []
    ensures j < |st| && CanStep(st, j)
    ensures (exists k :: 0 <= k < |st| && Busy(st[k])) ==> Busy(st[j])
  {
    if k :| 0 <= k < |st| && Busy(st[k]) {
      j := HolderUnblocks(st, k);
    } else {
      j := i;
    }
  }

  function Left(st: State): nat {
    if st == [] then 0 else |st[0].todo| + Left(st[1..])
  }

  lemma {:induction false} LeftDrops(st: State, i: nat, th: Thread)
    requires i < |st| && |th.todo| < |st[i].todo|
    ensures Left(st[i := th]) < Left(st)
  {
    if i == 0 {
      assert st[i := th][1..] == st[1..];
    } else {
      assert st[i := th][1..] == st[1..][i - 1 := th];
      LeftDrops(st[1..], i - 1, th);
    }
  }

  /** From every reachable state the calls under way can all be finished: some schedule brings
      every thread to the end of its call with every lock free. */
  lemma {:induction false} CallsCanFinish(st: State, roles: seq<Role>) returns (ms: seq<Move>)
    requires Inv(st) && |roles| == |st|
    ensures Runnable(st, roles, ms) && AtRest(Run(st, roles, ms))
    ensures forall k :: 0 <= k < |ms| ==> ms[k].Go?
    decreases Left(st)
  {
    if i :| 0 <= i < |st| && st[i].todo != [] {
      var j := NoDeadlock(st, i);
      StepKeeps(st, j);
      LeftDrops(st, j, Advance(st[j]));
      var rest := CallsCanFinish(Step(st, j), roles);
      ms := [Go(j)] + rest;
      assert Next(st, roles, ms[0]) == Step(st, j) && ms[1..] == rest;
    } else {
      ms := [];
      assert forall i :: 0 <= i < |st| ==> Disciplined(st[i].held, st[i].todo);
      assert forall i :: 0 <= i < |st| ==> st[i].todo == [] && st[i].held == [];
    }
  }
}
