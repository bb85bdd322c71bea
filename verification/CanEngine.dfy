/** The threaded engine with its controllers: what firmware requests in a transmit buffer of one
    ECU travels through the queues into a receive buffer of another. */
module CanEngine {
  import opened Mcp2515Regs
  import opened Mcp2515Core
  import opened Mcp2515Spi
  import opened Mcp2515Routing
  import opened Mcp2515Requests
  import Delivery = CanDelivery

  /** The delivery state, the four controllers, every event each controller has met, and the
      frames it has handed to its transmit callback whose broadcast has not begun. */
  datatype Engine = Engine(bus: Delivery.State, chips: seq<Chip>, logs: seq<seq<Event>>, owed: seq<seq<Frame>>)

  /** A step of the delivery, one SPI event by the firmware of ECU i, or what the command thread
      does to the chip it has locked. */
  datatype Move = Pass(m: Delivery.Move) | Execute(i: nat, e: Event) | Command(e: Event)

  predicate Formed(g: Engine) {
    Delivery.Shape(g.bus) && |g.chips| == 4 && |g.logs| == 4 && |g.owed| == 4
  }

  predicate Local(e: Event) { e.Select? || e.Deselect? || e.Byte? }

  /** Error calls, and chip-select edges from pins that a command drives. */
  predicate Outside(e: Event) { e.Select? || e.Deselect? || e.TxErrors? || e.RxErrors? || e.GoBusOff? || e.GoPassive? || e.Recover? }

  /** ECU i takes the frame it has fetched from its queue. */
  predicate HandsOver(g: Engine, m: Delivery.Move)
    requires Formed(g)
  {
    m.Go? && m.i < 4 && g.bus.pcs[m.i].Deliver?
  }

  /** Firmware runs under the chip's lock, and goes on only when the frames it has sent have
      been broadcast, in order. */
  predicate Possible(g: Engine, m: Move)
    requires Formed(g)
  {
    match m
    case Pass(d) =>
      && Delivery.Enabled(g.bus, d)
      && (d.Emit? && d.i < 4 ==> g.owed[d.i] != [] && d.f == g.owed[d.i][0])
      && (d.Go? && d.i < 4 && g.bus.pcs[d.i] == Delivery.Exec ==> g.owed[d.i] == [])
    case Execute(i, e) =>
      i < 4 && g.bus.pcs[i] == Delivery.Exec && g.owed[i] == [] && Local(e) && Allowed(g.chips[i], e)
    case Command(e) => g.bus.pcs[Delivery.COMMAND].Meddle? && Outside(e)
  }

  /** Controller k meets event e. */
  function Meet(g: Engine, k: nat, e: Event): Engine
    requires |g.chips| == |g.logs| == 4 && k < 4 && Allowed(g.chips[k], e)
  {
    g.(chips := g.chips[k := Step(g.chips[k], e)], logs := g.logs[k := g.logs[k] + [e]])
  }

  /** The frames that event e makes a controller send. */
  function Fresher(ch: Chip, e: Event): seq<Frame>
    requires Allowed(ch, e)
  {
    Frames(EffectSends(ch.core, EffectOf(ch, e)))
  }

  function Next(g: Engine, m: Move): Engine
    requires Formed(g) && Possible(g, m)
  {
    match m
    case Pass(d) =>
      var b := Delivery.Step(g.bus, d);
      if HandsOver(g, d) then Meet(g, d.i, Arrive(g.bus.pcs[d.i].m.frame)).(bus := b)
      else if d.Emit? && d.i < 4 then g.(bus := b, owed := g.owed[d.i := g.owed[d.i][1..]])
      else g.(bus := b)
    case Execute(i, e) => Meet(g, i, e).(owed := g.owed[i := Fresher(g.chips[i], e)])
    case Command(e) => Meet(g, g.bus.pcs[Delivery.COMMAND].chip, e)
  }

  // ----- the invariant -----

  /** The frames that arrived from the bus in a log. */
  function Arrived(log: seq<Event>): seq<Frame> {
    if log == [] then []
    else
      var front, e := log[..|log| - 1], log[|log| - 1];
      Arrived(front) + if e.Arrive? then [e.f] else []
  }

  function FramesOf(ms: seq<Delivery.Msg>): (fs: seq<Frame>)
    ensures |fs| == |ms| && forall k :: 0 <= k < |ms| ==> fs[k] == ms[k].frame
  {
    seq(|ms|, k requires 0 <= k < |ms| => ms[k].frame)
  }

  /** The controller is where its log takes it from reset; what it sent is what was broadcast
      and what is owed; and what arrived is what was handed over. */
  ghost predicate Linked(ch: Chip, log: seq<Event>, owed: seq<Frame>, sent: seq<Frame>, handed: seq<Delivery.Msg>) {
    && Runnable(Fresh(), log) && Run(Fresh(), log) == ch
    && ch.core.txs == sent + owed
    && Arrived(log) == FramesOf(handed)
  }

  ghost predicate Inv(g: Engine) {
    && Formed(g) && Delivery.Inv(g.bus)
    && forall i :: 0 <= i < 4 ==> Linked(g.chips[i], g.logs[i], g.owed[i], g.bus.sent[i], g.bus.targets[i].handed)
  }

  lemma ArrivedAppend(log: seq<Event>, e: Event)
    ensures Arrived(log + [e]) == Arrived(log) + if e.Arrive? then [e.f] else []
  {
    assert (log + [e])[..|log|] == log;
  }

  lemma StepSends(ch: Chip, e: Event)
    requires Allowed(ch, e)
    ensures Step(ch, e).core.txs == ch.core.txs + Fresher(ch, e)
    ensures !e.Byte? && !e.HostWrite? ==> Fresher(ch, e) == []
  {
    hide Apply, ByteEffect, EffectSends;
    EffectSendsExactly(ch.core, EffectOf(ch, e));
    if !e.Byte? && !e.HostWrite? {
      QuietEvents(ch, e);
    }
  }

  lemma QuietEvents(ch: Chip, e: Event)
    requires Allowed(ch, e) && !e.Byte? && !e.HostWrite?
    ensures EffectSends(ch.core, EffectOf(ch, e)) == []
  {
    hide WriteSends, RtsSends;
  }

  /** A local event adds the frames it sends to the debt. */
  lemma LocalLinked(ch: Chip, log: seq<Event>, sent: seq<Frame>, handed: seq<Delivery.Msg>, e: Event)
    requires Linked(ch, log, [], sent, handed) && Allowed(ch, e) && !e.Arrive?
    ensures Linked(Step(ch, e), log + [e], Fresher(ch, e), sent, handed)
  {
    hide Step, Fresher, Arrived, FramesOf;
    RunAppend(Fresh(), log, e);
    ArrivedAppend(log, e);
    StepSends(ch, e);
    assert sent + [] == sent && Arrived(log) + [] == Arrived(log);
  }

  lemma OutsideLinked(ch: Chip, log: seq<Event>, owed: seq<Frame>, sent: seq<Frame>, handed: seq<Delivery.Msg>, e: Event)
    requires Linked(ch, log, owed, sent, handed) && Outside(e)
    ensures Allowed(ch, e) && Linked(Step(ch, e), log + [e], owed, sent, handed)
  {
    hide Step, Fresher, Arrived, FramesOf;
    RunAppend(Fresh(), log, e);
    ArrivedAppend(log, e);
    StepSends(ch, e);
    assert ch.core.txs + [] == ch.core.txs && Arrived(log) + [] == Arrived(log);
  }

  lemma ArrivalLinked(ch: Chip, log: seq<Event>, owed: seq<Frame>, sent: seq<Frame>, handed: seq<Delivery.Msg>, m: Delivery.Msg)
    requires Linked(ch, log, owed, sent, handed)
    ensures Linked(Step(ch, Arrive(m.frame)), log + [Arrive(m.frame)], owed, sent, handed + [m])
  {
    hide Step, Fresher, Arrived;
    var e := Arrive(m.frame);
    RunAppend(Fresh(), log, e);
    ArrivedAppend(log, e);
    StepSends(ch, e);
    assert ch.core.txs + [] == ch.core.txs;
    assert FramesOf(handed + [m]) == FramesOf(handed) + [m.frame];
  }

  lemma EmitLinked(ch: Chip, log: seq<Event>, owed: seq<Frame>, sent: seq<Frame>, handed: seq<Delivery.Msg>)
    requires Linked(ch, log, owed, sent, handed) && owed != []
    ensures Linked(ch, log, owed[1..], sent + [owed[0]], handed)
  {
    assert sent + owed == sent + [owed[0]] + owed[1..];
  }

  lemma PassKeeps(g: Engine, d: Delivery.Move)
    requires Inv(g) && Possible(g, Pass(d))
    ensures Inv(Next(g, Pass(d)))
  {
    hide Linked, Delivery.Inv, Delivery.Enabled, Delivery.Step, Delivery.PcShape, Delivery.TargetShape, Step;
    DeliveryFields(g.bus, d);
    forall i | 0 <= i < 4
      ensures var h := Next(g, Pass(d));
        Linked(h.chips[i], h.logs[i], h.owed[i], h.bus.sent[i], h.bus.targets[i].handed)
    {
      if HandsOver(g, d) && d.i == i {
        ArrivalLinked(g.chips[i], g.logs[i], g.owed[i], g.bus.sent[i], g.bus.targets[i].handed, g.bus.pcs[i].m);
      } else if d.Emit? && d.i == i {
        EmitLinked(g.chips[i], g.logs[i], g.owed[i], g.bus.sent[i], g.bus.targets[i].handed);
      }
    }
  }

  /** What a delivery step does to the broadcasts made and the frames handed over. */
  lemma DeliveryFields(st: Delivery.State, d: Delivery.Move)
    requires Delivery.Inv(st) && Delivery.Enabled(st, d)
    ensures Delivery.Shape(st) && Delivery.Inv(Delivery.Step(st, d)) && Delivery.Shape(Delivery.Step(st, d))
    ensures forall i :: 0 <= i < 4 ==>
      var b := Delivery.Step(st, d);
      && b.sent[i] == (if d.Emit? && d.i == i then st.sent[i] + [d.f] else st.sent[i])
      && b.targets[i].handed ==
           (if d.Go? && d.i == i && st.pcs[i].Deliver? then st.targets[i].handed + [st.pcs[i].m] else st.targets[i].handed)
  {
    hide Delivery.Step, Delivery.Enabled, Delivery.Locks, Delivery.Rings, Delivery.Conservation, Delivery.Provenance;
    Delivery.StepKeeps(st, d);
    forall i | 0 <= i < 4
      ensures Delivery.Step(st, d).sent[i] == (if d.Emit? && d.i == i then st.sent[i] + [d.f] else st.sent[i])
      ensures Delivery.Step(st, d).targets[i].handed ==
           (if d.Go? && d.i == i && st.pcs[i].Deliver? then st.targets[i].handed + [st.pcs[i].m] else st.targets[i].handed)
    {
      Delivery.StepSent(st, d, i);
      Delivery.StepHanded(st, d, i);
    }
  }

  lemma StepKeeps(g: Engine, m: Move)
    requires Inv(g) && Possible(g, m)
    ensures Inv(Next(g, m))
  {
    hide Linked, Delivery.Inv, Delivery.Enabled, Delivery.Step, Delivery.PcShape, Delivery.TargetShape, Step, Fresher;
    match m
    case Pass(d) => PassKeeps(g, d);
    case Execute(i, e) =>
      LocalLinked(g.chips[i], g.logs[i], g.bus.sent[i], g.bus.targets[i].handed, e);
    case Command(e) =>
      var k := g.bus.pcs[Delivery.COMMAND].chip;
      assert k < 4 by {
        CommandedChip(g.bus);
      }
      OutsideLinked(g.chips[k], g.logs[k], g.owed[k], g.bus.sent[k], g.bus.targets[k].handed, e);
  }

  lemma CommandedChip(st: Delivery.State)
    requires Delivery.Shape(st) && st.pcs[Delivery.COMMAND].Meddle?
    ensures st.pcs[Delivery.COMMAND].chip < 4
  {
    assert Delivery.PcShape(st.pcs[Delivery.COMMAND], Delivery.COMMAND);
  }

  // ----- runs -----

  ghost predicate Starting(g: Engine) {
    && Delivery.Initial(g.bus)
    && g.chips == [Fresh(), Fresh(), Fresh(), Fresh()]
    && g.logs == [[], [], [], []] && g.owed == [[], [], [], []]
  }

  ghost predicate Runs(g: Engine, ms: seq<Move>)
    decreases |ms|
  {
    Formed(g) && (ms == [] || (Possible(g, ms[0]) && Runs(Next(g, ms[0]), ms[1..])))
  }

  ghost function After(g: Engine, ms: seq<Move>): Engine
    requires Runs(g, ms)
    decreases |ms|
  {
    if ms == [] then g else After(Next(g, ms[0]), ms[1..])
  }

  lemma StartingInv(g: Engine)
    requires Starting(g)
    ensures Inv(g)
  {
    hide Delivery.Inv, Fresh, ResetRegs;
    Delivery.InitialInv(g.bus);
    DeliveryShape(g.bus);
    FreshSilent();
    forall i | 0 <= i < 4
      ensures Linked(g.chips[i], g.logs[i], g.owed[i], g.bus.sent[i], g.bus.targets[i].handed)
    {
      assert g.chips[i] == Fresh() && g.logs[i] == [] && g.owed[i] == [] && g.bus.sent[i] == [];
      assert g.bus.targets[i].handed == [];
    }
  }

  lemma DeliveryShape(st: Delivery.State)
    requires Delivery.Inv(st)
    ensures Delivery.Shape(st)
  {
  }

  lemma FreshSilent()
    ensures Fresh().core.txs == []
  {
  }

  lemma {:induction false} RunKeeps(g: Engine, ms: seq<Move>)
    requires Inv(g) && Runs(g, ms)
    ensures Inv(After(g, ms))
    decreases |ms|
  {
    hide Inv, Next, Possible, Formed;
    if ms != [] {
      StepKeeps(g, ms[0]);
      RunKeeps(Next(g, ms[0]), ms[1..]);
    }
  }

  /** Message m carries the frame that the m.no-th request of its sender's log found in its
      transmit buffer. The command thread's frames come from outside. */
  ghost predicate Requested(g: Engine, m: Delivery.Msg)
    requires Inv(g)
  {
    m.src < 4 ==>
      var sendings := RunSends(Fresh(), g.logs[m.src]);
      m.no < |sendings| && sendings[m.no].frame == m.frame
  }

  lemma GenuineRequested(g: Engine, t: nat, m: Delivery.Msg)
    requires Inv(g) && t < 4 && Delivery.Genuine(g.bus, t, m)
    ensures Requested(g, m)
  {
    hide Delivery.Inv, Run, Arrived, FramesOf, RunSends;
    if m.src < 4 {
      var i := m.src;
      assert Linked(g.chips[i], g.logs[i], g.owed[i], g.bus.sent[i], g.bus.targets[i].handed);
      RunSendsExactly(Fresh(), g.logs[i]);
      FreshSilent();
      var sendings := RunSends(Fresh(), g.logs[i]);
      assert [] + Frames(sendings) == Frames(sendings);
      assert g.chips[i].core.txs[m.no] == g.bus.sent[i][m.no];
    }
  }

  /** Over every interleaving of firmware, commands and delivery, from start-up: each controller
      is where its own events and the frames handed to it take a controller from reset; the
      frames it has transmitted are those broadcast and those still owed; and every frame handed
      to ECU t is one that another controller's firmware requested, or an injected one. */
  lemma EngineOverRuns(g: Engine, ms: seq<Move>, t: nat)
    requires Starting(g) && Runs(g, ms) && t < 4
    ensures var e := After(g, ms);
      && Inv(e) && Runnable(Fresh(), e.logs[t]) && e.chips[t] == Run(Fresh(), e.logs[t])
      && e.chips[t].core.txs == e.bus.sent[t] + e.owed[t]
      && Arrived(e.logs[t]) == FramesOf(e.bus.targets[t].handed)
      && Delivery.Ordered(e.bus.targets[t].handed)
      && forall k :: 0 <= k < |e.bus.targets[t].handed| ==>
           e.bus.targets[t].handed[k].src != t && Requested(e, e.bus.targets[t].handed[k])
  {
    hide Delivery.Inv, Delivery.Ordered, Requested, Run, After, Arrived, FramesOf;
    StartingInv(g);
    RunKeeps(g, ms);
    var e := After(g, ms);
    assert Linked(e.chips[t], e.logs[t], e.owed[t], e.bus.sent[t], e.bus.targets[t].handed);
    Delivery.DeliveryExact(e.bus, t);
    forall k | 0 <= k < |e.bus.targets[t].handed|
      ensures e.bus.targets[t].handed[k].src != t && Requested(e, e.bus.targets[t].handed[k])
    {
      GenuineRequested(e, t, e.bus.targets[t].handed[k]);
    }
  }

  /** Taking a frame is always possible, and is a reception by the controller. */
  lemma TakingStep(g: Engine, t: nat)
    requires Inv(g) && t < 4 && HandsOver(g, Delivery.Go(t))
    ensures Possible(g, Pass(Delivery.Go(t)))
    ensures Next(g, Pass(Delivery.Go(t))).chips[t].core == RxFrame(g.chips[t].core, g.bus.pcs[t].m.frame).0
  {
    hide RxFrame, Delivery.Inv, Delivery.Step, Linked;
  }

  /** From transmit buffer to receive buffer: when ECU t takes its next frame, that frame is one
      another controller's firmware requested (or an injected one); the controller receives it as
      the routing rules say; and if it accepts, the frame can be read back from the buffer its
      type, filters and BUKT choose. */
  lemma HandOverReadable(g: Engine, ms: seq<Move>, t: nat)
    requires Starting(g) && Runs(g, ms) && t < 4
    ensures var e := After(g, ms); var take := Delivery.Go(t);
      && Inv(e)
      && (HandsOver(e, take) ==>
            var m := e.bus.pcs[t].m; var c := e.chips[t].core;
            && Possible(e, Pass(take))
            && var d := Next(e, Pass(take)).chips[t].core;
            && m.src != t && Requested(e, m)
            && d == RxFrame(c, m.frame).0
            && (RxFrame(c, m.frame).1 ==>
                  FrameAt(d.regs, RxCtrl(if Takes0(c.regs, m.frame) then 0 else 1)) == Canonical(m.frame)))
  {
    hide Delivery.Inv, Requested, After, RxFrame, FrameAt, Takes0, Takes1, Full, Overflow, RxMode, Canonical;
    hide BusOff, Next, Possible;
    StartingInv(g);
    RunKeeps(g, ms);
    var e := After(g, ms);
    if HandsOver(e, Delivery.Go(t)) {
      var m := e.bus.pcs[t].m;
      TakingStep(e, t);
      Delivery.InFlightGenuine(e.bus, t);
      GenuineRequested(e, t, m);
      ReceptionExact(e.chips[t].core, m.frame);
    }
  }
}
