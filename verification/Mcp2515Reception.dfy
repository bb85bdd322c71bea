/** Reception told with the data sheet's register numbers, what a stored frame leaves alone, and
    the rollover from RXB0 to RXB1. */
module Mcp2515Reception {
  import opened Mcp2515Regs
  import opened Mcp2515Core
  import opened Mcp2515Spi
  import opened Mcp2515Routing
  import opened Mcp2515Transactions
  import opened Mcp2515Invariant
  import opened Mcp2515Requests
  import opened Mcp2515Commands

  // ----- acceptance in the data sheet's terms -----

  /** RXM bits of a control register: 01 takes standard frames only, 10 extended ones only. */
  predicate Admits(ctrl: bv8, ext: bool) {
    (ctrl & 0x60 == 0x20 ==> !ext) && (ctrl & 0x60 == 0x40 ==> ext)
  }

  lemma ModeMeans(r: Regs, n: RxIndex, ext: bool)
    ensures var ctrl := r[if n == 0 then 0x60 else 0x70];
      (TypeAdmitted(RxMode(r, n), ext) <==> Admits(ctrl, ext)) && (RxMode(r, n) == RXM_ANY <==> ctrl & 0x60 == 0x60)
  {
  }

  predicate Agrees(r: Regs, f: Frame, k: nat)
    requires k < 6
  {
    SelectedBitsAgree(r, f, FILTERS[k], MASKS[k])
  }

  predicate First(r: Regs, f: Frame) {
    r[0x2C] & 0x01 == 0 && (r[0x60] & 0x60 == 0x60 || (Admits(r[0x60], f.ext) && (Agrees(r, f, 0) || Agrees(r, f, 1))))
  }

  predicate Second(r: Regs, f: Frame) {
    && !First(r, f) && r[0x2C] & 0x02 == 0 && Admits(r[0x70], f.ext)
    && (r[0x70] & 0x60 == 0x60
        || (if Agrees(r, f, 0) || Agrees(r, f, 1) then r[0x60] & 0x04 != 0
            else Agrees(r, f, 2) || Agrees(r, f, 3) || Agrees(r, f, 4) || Agrees(r, f, 5)))
  }

  lemma HitsAre(r: Regs, f: Frame)
    ensures HitsBuffer0(r, f) <==> Agrees(r, f, 0) || Agrees(r, f, 1)
    ensures HitsBuffer1(r, f) <==> Agrees(r, f, 2) || Agrees(r, f, 3) || Agrees(r, f, 4) || Agrees(r, f, 5)
  {
    hide FilterHit, SelectedBitsAgree;
    forall k: nat | k < 6 ensures FilterHit(r, f, k) <==> Agrees(r, f, k) {
      FilterHitMeans(r, f, k);
    }
    var two: nat, three: nat, four: nat, five: nat := 2, 3, 4, 5;
    var zero: nat, one: nat := 0, 1;
    assert FilterHit(r, f, zero) ==> HitsBuffer0(r, f);
    assert FilterHit(r, f, one) ==> HitsBuffer0(r, f);
    assert FilterHit(r, f, two) ==> HitsBuffer1(r, f);
    assert FilterHit(r, f, three) ==> HitsBuffer1(r, f);
    assert FilterHit(r, f, four) ==> HitsBuffer1(r, f);
    assert FilterHit(r, f, five) ==> HitsBuffer1(r, f);
  }

  lemma TakesAre(r: Regs, f: Frame)
    ensures (Takes0(r, f) <==> First(r, f)) && (Takes1(r, f) <==> Second(r, f))
  {
    hide HitsBuffer0, HitsBuffer1, Agrees, RxMode, TypeAdmitted, Admits;
    HitsAre(r, f);
    ModeMeans(r, 0, f.ext);
    ModeMeans(r, 1, f.ext);
  }

  /** A frame from the bus is stored exactly then, and in that buffer: in Normal, Loopback or
      Listen-only mode, not bus-off, in RXB0 or RXB1 as modes, filters, flags and BUKT say. */
  lemma AcceptanceExact(c: Core, f: Frame)
    ensures var (d, accepted) := RxFrame(c, f);
      var listening := c.mode != 1 && c.mode != 4 && c.regs[0x2D] & 0x20 == 0;
      && (accepted <==> listening && (First(c.regs, f) || Second(c.regs, f)))
      && (accepted ==> FrameAt(d.regs, if First(c.regs, f) then 0x60 else 0x70) == Canonical(f))
      && (accepted ==> d.regs[0x2C] == c.regs[0x2C] | if First(c.regs, f) then 0x01 else 0x02)
  {
    hide RxFrame, FrameAt, Canonical, First, Second, Takes0, Takes1;
    ReceptionExact(c, f);
    TakesAre(c.regs, f);
  }

  // ----- what stays in the control registers -----

  /** The control register of buffer n keeps its settings. */
  predicate Holding(c: Core, d: Core, n: RxIndex) {
    d.regs[RxCtrl(n)] & Settings(n) == c.regs[RxCtrl(n)] & Settings(n)
  }

  lemma RouteHolds(c: Core, f: Frame, n: RxIndex)
    ensures Holding(c, Route(c, f).0, n)
  {
    hide Route, Takes0, Takes1, Overflow, Holds, FrameAt, Canonical, Settings, Has;
    RoutingExact(c, f);
  }

  lemma ReceiveHolds(c: Core, f: Frame, n: RxIndex)
    ensures Holding(c, RxFrame(c, f).0, n)
  {
    hide Route, CountDown, Settings, BusOff;
    RouteHolds(c, f, n);
    CountDownSpares(Route(c, f).0, REC);
  }

  lemma LoopbackHolds(c: Core, k: TxIndex, n: RxIndex)
    ensures Holding(c, DeliverLoopback(c, k), n)
  {
    hide Route, CountDown, Extract, UpdateInt, Settings;
    var m := MarkComplete(c, k);
    CountDownSpares(m, TEC);
    RouteHolds(CountDown(m, TEC), Extract(c.regs, k), n);
    UpdateIntSame(Route(CountDown(m, TEC), Extract(c.regs, k)).0);
  }

  lemma UpdateIntSame(c: Core)
    ensures UpdateInt(c).regs == c.regs
  {
  }

  lemma NormalHolds(c: Core, k: TxIndex, n: RxIndex)
    ensures Holding(c, DeliverNormal(c, k), n)
  {
    hide CountDown, Extract, UpdateInt, Settings;
    var m := MarkComplete(c, k);
    CountDownSpares(m, TEC);
    UpdateIntSame(CountDown(m, TEC));
  }

  lemma WriteHolds(c: Core, a: nat, v: bv8, n: RxIndex)
    requires a < REGS_SIZE && a != RxCtrl(n)
    ensures Holding(c, RegWrite(c, a, v), n)
  {
    hide DeliverLoopback, DeliverNormal, Settings, WriteCanctrl, BusOff, Has;
    if a == CANCTRL {
      ModeRequestExact(c, v);
    } else if IsTxCtrl(a) {
      var d := c.(regs := c.regs[a := v]);
      ControlWrite(c, BufferOf(a), v);
      LoopbackHolds(d, BufferOf(a), n);
      NormalHolds(d, BufferOf(a), n);
    } else if a == CANINTF || a == CANINTE {
      UpdateIntSame(c.(regs := c.regs[a := v]));
    }
  }

  lemma RequestHolds(c: Core, b: bv8, k: TxIndex, n: RxIndex)
    ensures Holding(c, RequestTx(c, b, k), n)
  {
    hide RegWrite, Settings, Has;
    WriteHolds(c, TxCtrl(k), c.regs[TxCtrl(k)] | TXREQ, n);
  }

  lemma RtsHolds(c: Core, b: bv8, n: RxIndex)
    ensures Holding(c, RequestToSend(c, b), n)
  {
    hide RequestTx, Settings;
    var c1 := RequestTx(c, b, 0);
    var c2 := RequestTx(c1, b, 1);
    RequestHolds(c, b, 0, n);
    RequestHolds(c1, b, 1, n);
    RequestHolds(c2, b, 2, n);
  }

  /** `e` is no RESET, and no write or LOAD TX goes to the control register of buffer n. */
  predicate SparesControl(ch: Chip, e: Event, n: RxIndex) {
    Allowed(ch, e) ==> var f := EffectOf(ch, e); !f.Wipe? && (f.Write? || f.Load? ==> f.a != RxCtrl(n))
  }

  lemma StepHolds(ch: Chip, e: Event, n: RxIndex)
    requires Allowed(ch, e) && SparesControl(ch, e, n)
    ensures Holding(ch.core, Step(ch, e).core, n)
  {
    hide RegWrite, RequestToSend, RxFrame, InjectTxErrors, InjectRxErrors, ForceBusOff, ForceErrorPassive;
    hide RecoverBusOff, ClearRxFlag, Settings;
    var c, f := ch.core, EffectOf(ch, e);
    assert Step(ch, e).core == Apply(c, f);
    match f
    case Write(a, v) => WriteHolds(c, a, v, n);
    case Rts(b) => RtsHolds(c, b, n);
    case Receive(x) => ReceiveHolds(c, x, n);
    case Errors(tx, m) => ErrorsSendNothing(c, tx, m);
    case Force(off) => ForceSendsNothing(c, off);
    case Revive => RecoverFields(c);
    case Clear(k) => ClearSpares(c, k);
    case _ =>
  }

  ghost predicate SparedControl(ch: Chip, es: seq<Event>, n: RxIndex)
    requires Runnable(ch, es)
    decreases |es|
  {
    es == [] || (SparesControl(ch, es[0], n) && SparedControl(Step(ch, es[0]), es[1..], n))
  }

  /** Through any traffic: receive mode, rollover bit and the other settings of a receive buffer
      stay as they are until RESET or a write into its control register. */
  lemma {:induction false} SettingsKept(ch: Chip, es: seq<Event>, n: RxIndex)
    requires Runnable(ch, es) && SparedControl(ch, es, n)
    ensures Run(ch, es).core.regs[RxCtrl(n)] & Settings(n) == ch.core.regs[RxCtrl(n)] & Settings(n)
    decreases |es|
  {
    hide Step, SparesControl, Settings;
    if es != [] {
      StepHolds(ch, es[0], n);
      SettingsKept(Step(ch, es[0]), es[1..], n);
    }
  }

  lemma RolloverBit(a: bv8, b: bv8)
    requires a & Settings(0) == b & Settings(0)
    ensures (a & 0x04 != 0 <==> b & 0x04 != 0) && a & 0x60 == b & 0x60
  {
  }

  /** In particular the rollover bit. */
  lemma RolloverKept(ch: Chip, es: seq<Event>)
    requires Runnable(ch, es) && SparedControl(ch, es, 0)
    ensures Run(ch, es).core.regs[0x60] & 0x04 != 0 <==> ch.core.regs[0x60] & 0x04 != 0
  {
    SettingsKept(ch, es, 0);
    RolloverBit(Run(ch, es).core.regs[0x60], ch.core.regs[0x60]);
  }

  // ----- rollover -----

  lemma AgreesSame(r: Regs, q: Regs, f: Frame, k: nat)
    requires k < 6 && forall a :: 0 <= a < 0x0C || 0x10 <= a < 0x1C || 0x20 <= a < 0x28 ==> q[a] == r[a]
    ensures Agrees(q, f, k) <==> Agrees(r, f, k)
  {
    FilterPlaces(k);
    SameSelection(r, q, f, FILTERS[k], MASKS[k]);
  }

  lemma FilterPlaces(k: nat)
    requires k < 6
    ensures FILTERS[k] <= 0x08 || 0x10 <= FILTERS[k] <= 0x18
    ensures MASKS[k] == 0x20 || MASKS[k] == 0x24
  {
  }

  lemma SameSelection(r: Regs, q: Regs, f: Frame, filter: nat, mask: nat)
    requires filter + 4 <= REGS_SIZE && mask + 4 <= REGS_SIZE
    requires q[filter] == r[filter] && q[filter + 1] == r[filter + 1]
    requires q[filter + 2] == r[filter + 2] && q[filter + 3] == r[filter + 3]
    requires q[mask] == r[mask] && q[mask + 1] == r[mask + 1] && q[mask + 2] == r[mask + 2] && q[mask + 3] == r[mask + 3]
    ensures SelectedBitsAgree(q, f, filter, mask) <==> SelectedBitsAgree(r, f, filter, mask)
  {
    hide BitsAgree;
  }

  /** What one accepted frame leaves for the next: the filters, RXB1 and the settings of RXB0. */
  lemma AfterFirst(c: Core, f: Frame)
    requires First(c.regs, f) && !Deaf(c) && FlagsExact(c)
    ensures var (d, accepted) := RxFrame(c, f);
      && accepted && !Deaf(d) && FrameAt(d.regs, 0x60) == Canonical(f) && d.regs[0x2C] == c.regs[0x2C] | 0x01
      && (forall a :: 0 <= a < 0x0C || 0x10 <= a < 0x1C || 0x20 <= a < 0x28 || 0x70 <= a < 0x7E ==> d.regs[a] == c.regs[a])
      && d.regs[0x60] & 0xF6 == c.regs[0x60] & 0xF6
  {
    hide FrameAt, Canonical, First, Second, Takes0, Takes1, Route, CountDown, Overflow, Holds, Deaf, FlagsExact, BusOff, Has;
    AcceptanceExact(c, f);
    TakesAre(c.regs, f);
    RoutingExact(c, f);
    ReceiveHolds(c, f, 0);
    ReceptionExact(c, f);
    var e := Route(c, f).0;
    CountDownFilters(e);
    StillListening(c, f);
    DeafIs(c);
  }

  lemma CountDownFilters(c: Core)
    ensures var d := CountDown(c, REC);
      forall a :: 0 <= a < 0x0C || 0x10 <= a < 0x1C || 0x20 <= a < 0x28 || 0x60 <= a < 0x80 ==> d.regs[a] == c.regs[a]
  {
    hide ErrFlags;
  }

  /** Receiving never takes an error-exact controller off the bus. */
  lemma StillListening(c: Core, f: Frame)
    requires !Deaf(c) && FlagsExact(c)
    ensures !Deaf(RxFrame(c, f).0)
  {
    hide Route, CountDown, ErrFlags, Has;
    var e := Route(c, f).0;
    RouteErrors(c, f);
    ExactOff(c);
    CountDownStays(e);
    DeafIs(c);
    DeafIs(RxFrame(c, f).0);
  }

  lemma RouteErrors(c: Core, f: Frame)
    ensures var d := Route(c, f).0;
      d.mode == c.mode && d.regs[TEC] == c.regs[TEC] && d.regs[REC] == c.regs[REC] && d.regs[EFLG] & 0x3F == c.regs[EFLG] & 0x3F
      && (BusOff(d) <==> BusOff(c))
  {
    hide Route, Takes0, Takes1, Overflow, Holds, FrameAt, Canonical, Settings, Has;
    RoutingExact(c, f);
    OverflowSmall(c.regs, f);
    HighBits(c.regs[EFLG], Overflow(c.regs, f));
  }

  lemma HighBits(e: bv8, x: bv8)
    requires x & 0x3F == 0
    ensures (e | x) & 0x3F == e & 0x3F && (Has(e | x, TXBO) <==> Has(e, TXBO))
  {
  }

  lemma ExactOff(c: Core)
    requires FlagsExact(c)
    ensures BusOff(c) <==> c.regs[TEC] == 255
  {
  }

  lemma CountDownStays(c: Core)
    ensures c.regs[TEC] != 255 && !BusOff(c) ==> !BusOff(CountDown(c, REC))
    ensures CountDown(c, REC).mode == c.mode
  {
  }

  lemma FlagBitsOf(i: bv8)
    ensures i & 0x03 == 0 ==> (i | 0x01) & 0x01 != 0 && (i | 0x01) & 0x02 == 0 && i & 0x01 == 0 && i & 0x02 == 0
  {
  }

  /** With BUKT set, two frames that match RXF0 or RXF1 and whose kind both buffers admit,
      arriving one after the other at two free buffers, land in RXB0 and then in RXB1, and the
      first is not disturbed. */
  lemma RolloverPair(c: Core, f: Frame, g: Frame)
    requires !Deaf(c) && FlagsExact(c) && c.regs[0x2C] & 0x03 == 0 && c.regs[0x60] & 0x04 != 0
    requires (Agrees(c.regs, f, 0) || Agrees(c.regs, f, 1)) && (Agrees(c.regs, g, 0) || Agrees(c.regs, g, 1))
    requires Admits(c.regs[0x60], f.ext) && Admits(c.regs[0x70], g.ext)
    ensures var (d, first) := RxFrame(c, f); var (e, second) := RxFrame(d, g);
      && first && FrameAt(d.regs, 0x60) == Canonical(f)
      && second && FrameAt(e.regs, 0x70) == Canonical(g) && FrameAt(e.regs, 0x60) == Canonical(f)
  {
    hide RxFrame, FrameAt, Canonical, Agrees, Admits, Deaf, FlagsExact;
    FlagBitsOf(c.regs[0x2C]);
    AfterFirst(c, f);
    var d := RxFrame(c, f).0;
    AgreesSame(c.regs, d.regs, g, 0);
    AgreesSame(c.regs, d.regs, g, 1);
    RolloverBit(d.regs[0x60], c.regs[0x60]);
    AcceptanceExact(d, g);
    ListeningIs(d);
    assert Second(d.regs, g);
    hide First, Second;
    FirstUntouched(d, g);
  }

  lemma ListeningIs(c: Core)
    ensures !Deaf(c) <==> c.mode != 1 && c.mode != 4 && c.regs[0x2D] & 0x20 == 0
  {
  }

  lemma FirstUntouched(c: Core, f: Frame)
    requires Second(c.regs, f)
    ensures FrameAt(RxFrame(c, f).0.regs, 0x60) == FrameAt(c.regs, 0x60)
  {
    hide FrameAt, Canonical, Takes0, Takes1, RxFrame;
    ReceptionExact(c, f);
    TakesAre(c.regs, f);
    hide First;
    var d := RxFrame(c, f).0;
    if RxFrame(c, f).1 {
      SameFrameAt(c.regs, d.regs, 0x60);
    }
  }

  lemma SameFrameAt(r: Regs, q: Regs, b: nat)
    requires b + 14 <= REGS_SIZE && forall a :: b <= a < b + 14 ==> q[a] == r[a]
    ensures FrameAt(q, b) == FrameAt(r, b)
  {
    assert q[b + 6..b + 14] == r[b + 6..b + 14];
  }
}
