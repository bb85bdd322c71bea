/** Theorems over whole runs: bus-off containment, bounds on the transmit error counter,
    and the capacity of the two receive buffers. */
module Mcp2515Runs {
  import opened Mcp2515Regs
  import opened Mcp2515Core
  import opened Mcp2515Spi
  import opened Mcp2515Invariant

  // ----- what the operations do to counters and flags -----

  /** Each completed transmission lowers TEC by at most one, and nothing else lowers it. */
  predicate Lowered(c: Core, d: Core) {
    && c.sent <= d.sent
    && d.regs[TEC] as int <= c.regs[TEC] as int <= d.regs[TEC] as int + (d.sent - c.sent)
  }

  /** The number of receive-buffer flags that are clear. */
  function Room(r: Regs): nat {
    (if Has(r[CANINTF], RX0IF) then 0 else 1) + (if Has(r[CANINTF], RX1IF) then 0 else 1)
  }

  /** Deposits use up clear flags, one each. */
  predicate Filled(c: Core, d: Core) { |c.got| <= |d.got| && |d.got| + Room(d.regs) <= |c.got| + Room(c.regs) }

  lemma CompletedEffect(c: Core, n: TxIndex)
    ensures Lowered(c, Completed(c, n)) && Completed(c, n).sent == c.sent + 1 && Filled(c, Completed(c, n))
  {
  }

  lemma DepositEffect(c: Core, n: RxIndex, f: Frame, filter: bv8)
    requires !Has(c.regs[CANINTF], RxFlag(n))
    ensures Lowered(c, Deposit(c, n, f, filter)) && Filled(c, Deposit(c, n, f, filter))
  {
  }

  lemma RouteEffect(c: Core, f: Frame)
    ensures Lowered(c, Route(c, f).0) && Filled(c, Route(c, f).0)
  {
    var v := Judge(c.regs, f);
    if v.Store? {
      DepositEffect(c, v.n, f, v.filter);
    }
  }

  lemma UpdateIntEffect(c: Core)
    ensures Lowered(c, UpdateInt(c)) && Filled(c, UpdateInt(c))
  {
  }

  lemma DeliverEffect(c: Core, n: TxIndex)
    ensures Lowered(c, DeliverLoopback(c, n)) && Filled(c, DeliverLoopback(c, n))
    ensures Lowered(c, DeliverNormal(c, n)) && Filled(c, DeliverNormal(c, n))
  {
    var d := Completed(c, n);
    CompletedEffect(c, n);
    RouteEffect(d, Extract(c.regs, n));
    UpdateIntEffect(Route(d, Extract(c.regs, n)).0);
    UpdateIntEffect(d);
  }

  lemma WriteTxCtrlEffect(c: Core, n: TxIndex, v: bv8)
    ensures Lowered(c, WriteTxCtrl(c, n, v)) && Filled(c, WriteTxCtrl(c, n, v))
  {
    var d := c.(regs := c.regs[TxCtrl(n) := v]);
    assert Lowered(c, d) && Filled(c, d);
    DeliverEffect(d, n);
  }

  lemma RequestTxEffect(c: Core, b: bv8, n: TxIndex)
    ensures Lowered(c, RequestTx(c, b, n)) && Filled(c, RequestTx(c, b, n))
  {
    hide WriteTxCtrl;
    var v := c.regs[TxCtrl(n)] | TXREQ;
    WriteTxCtrlEffect(c, n, v);
    assert RegWrite(c, TxCtrl(n), v) == WriteTxCtrl(c, n, v);
  }

  lemma RequestToSendEffect(c: Core, b: bv8)
    ensures Lowered(c, RequestToSend(c, b)) && Filled(c, RequestToSend(c, b))
  {
    RequestTxEffect(c, b, 0);
    RequestTxEffect(RequestTx(c, b, 0), b, 1);
    RequestTxEffect(RequestTx(RequestTx(c, b, 0), b, 1), b, 2);
  }

  // ----- the receive buffers hold two frames -----

  /** `e` clears no receive flag. */
  predicate ClearsNothing(ch: Chip, e: Event) {
    Allowed(ch, e) ==>
      var f := EffectOf(ch, e);
      && !f.Clear? && !f.Wipe?
      && (f.Write? && f.a == CANINTF ==> ch.core.regs[CANINTF] & 3 & !f.v == 0)
  }

  lemma CanctrlFills(c: Core, v: bv8)
    ensures Filled(c, RegWrite(c, CANCTRL, v))
  {
    var d := Requested(c, v);
    assert Filled(c, d) && Filled(d, RecoverBusOff(d));
    assert RegWrite(c, CANCTRL, v) == if BusOff(c) then RecoverBusOff(d) else d;
  }

  lemma RegWriteFills(c: Core, a: nat, v: bv8)
    requires a < REGS_SIZE && (a == CANINTF ==> c.regs[CANINTF] & 3 & !v == 0)
    ensures Filled(c, RegWrite(c, a, v))
  {
    if a == CANCTRL {
      CanctrlFills(c, v);
    } else if IsTxCtrl(a) {
      WriteTxCtrlEffect(c, (a - TXB0CTRL) / 0x10, v);
      assert RegWrite(c, a, v) == WriteTxCtrl(c, (a - TXB0CTRL) / 0x10, v);
    } else if a == CANINTF || a == CANINTE {
      var d := c.(regs := c.regs[a := v]);
      assert RegWrite(c, a, v) == UpdateInt(d);
      assert Filled(c, d);
      UpdateIntEffect(d);
    } else {
      assert RegWrite(c, a, v) == if a == CANSTAT || a == TEC || a == REC then c else c.(regs := c.regs[a := v]);
    }
  }

  lemma RxFrameFills(c: Core, f: Frame)
    ensures Filled(c, RxFrame(c, f).0)
  {
    RouteEffect(c, f);
    var d := Route(c, f).0;
    assert Filled(d, CountDown(d, REC));
  }

  lemma ErrorsFill(c: Core, counter: nat, v: bv8, merr: bool)
    requires counter == TEC || counter == REC
    ensures Filled(c, RaiseError(SetCounter(c, counter, v), merr))
  {
    assert Filled(c, SetCounter(c, counter, v));
  }

  lemma StepFills(ch: Chip, e: Event)
    requires Inv(ch) && Allowed(ch, e) && ClearsNothing(ch, e)
    ensures Filled(ch.core, Step(ch, e).core)
  {
    hide RaiseError, SetCounter, RegWrite, RequestTx, RxFrame, ErrFlags;
    var c, f := ch.core, EffectOf(ch, e);
    assert Step(ch, e).core == Apply(c, f);
    match f
    case Write(a, v) => RegWriteFills(c, a, v);
    case Rts(b) => RequestToSendEffect(c, b);
    case Receive(x) => RxFrameFills(c, x);
    case Errors(tx, n) =>
      ErrorsFill(c, TEC, SaturatingAdd(c.regs[TEC], 8 * n), true);
      ErrorsFill(c, REC, SaturatingAdd(c.regs[REC], n), false);
    case Force(off) =>
      ErrorsFill(c, TEC, 255, true);
      ErrorsFill(c, TEC, 128, false);
    case _ =>
  }

  /** Until a receive flag is cleared, no run deposits more frames than there are free
      buffers: at most two. */
  lemma {:induction false} AtMostTwoDeposits(ch: Chip, es: seq<Event>)
    requires Inv(ch) && Runnable(ch, es) && Throughout(ch, es, ClearsNothing)
    ensures |Run(ch, es).core.got| <= |ch.core.got| + Room(ch.core.regs) - Room(Run(ch, es).core.regs)
    decreases |es|
  {
    if es != [] {
      StepKeeps(ch, es[0]);
      StepFills(ch, es[0]);
      AtMostTwoDeposits(Step(ch, es[0]), es[1..]);
    }
  }

  // ----- bus-off -----

  predicate Off(c: Core) { BusOff(c) && c.regs[TEC] == 255 }

  /** `e` is neither RESET, nor a write of CANCTRL or EFLG, nor a recovery or force-passive call. */
  predicate Contained(ch: Chip, e: Event) {
    Allowed(ch, e) ==>
      var f := EffectOf(ch, e);
      && !f.Wipe? && !f.Revive? && f != Force(false)
      && (f.Write? ==> f.a != CANCTRL && f.a != EFLG)
  }

  /** Still bus-off, and nothing was sent or stored. */
  predicate Silent(c: Core, d: Core) {
    Off(d) && d.txs == c.txs && d.got == c.got && d.sent == c.sent
  }

  lemma WriteStaysOff(c: Core, a: nat, v: bv8)
    requires Off(c) && a < REGS_SIZE && a != CANCTRL && a != EFLG
    ensures Silent(c, RegWrite(c, a, v))
  {
    if IsTxCtrl(a) {
      assert RegWrite(c, a, v) == WriteTxCtrl(c, (a - TXB0CTRL) / 0x10, v);
    }
  }

  lemma RequestStaysOff(c: Core, b: bv8, n: TxIndex)
    requires Off(c)
    ensures Silent(c, RequestTx(c, b, n))
  {
    WriteStaysOff(c, TxCtrl(n), c.regs[TxCtrl(n)] | TXREQ);
  }

  lemma ErrorsStayOff(c: Core, counter: nat, v: bv8, merr: bool)
    requires Off(c) && (counter == TEC ==> v == 255) && (counter == TEC || counter == REC)
    ensures Silent(c, RaiseError(SetCounter(c, counter, v), merr))
  {
    assert Silent(c, SetCounter(c, counter, v));
  }

  lemma InjectStaysOff(c: Core, tx: bool, n: int)
    requires Off(c)
    ensures Silent(c, if tx then InjectTxErrors(c, n) else InjectRxErrors(c, n))
  {
    hide RaiseError, SetCounter;
    if n > 0 {
      ErrorsStayOff(c, TEC, SaturatingAdd(c.regs[TEC], 8 * n), true);
      ErrorsStayOff(c, REC, SaturatingAdd(c.regs[REC], n), false);
    }
  }

  lemma RtsStaysOff(c: Core, b: bv8)
    requires Off(c)
    ensures Silent(c, RequestToSend(c, b))
  {
    hide RequestTx;
    RequestStaysOff(c, b, 0);
    RequestStaysOff(RequestTx(c, b, 0), b, 1);
    RequestStaysOff(RequestTx(RequestTx(c, b, 0), b, 1), b, 2);
  }

  lemma ApplyStaysOff(c: Core, f: Effect)
    requires Off(c) && Applicable(f) && (f.Load? ==> f.a > TXB0CTRL)
    requires !f.Wipe? && !f.Revive? && f != Force(false) && (f.Write? ==> f.a != CANCTRL && f.a != EFLG)
    ensures Silent(c, Apply(c, f))
    ensures f.Receive? ==> Apply(c, f) == c
  {
    hide RaiseError, SetCounter, RegWrite, RequestToSend, Route, ErrFlags, InjectTxErrors, InjectRxErrors;
    match f
    case Write(a, v) => WriteStaysOff(c, a, v);
    case Rts(b) => RtsStaysOff(c, b);
    case Errors(tx, n) => InjectStaysOff(c, tx, n);
    case Force(off) => ErrorsStayOff(c, TEC, 255, true);
    case _ =>
  }

  lemma StepStaysOff(ch: Chip, e: Event)
    requires Inv(ch) && Allowed(ch, e) && Off(ch.core) && Contained(ch, e)
    ensures Silent(ch.core, Step(ch, e).core)
    ensures e.Arrive? ==> Step(ch, e) == ch && !RxFrame(ch.core, e.f).1
  {
    hide Apply, ByteEffect;
    assert e.Byte? && EffectOf(ch, e).Load? ==> EffectOf(ch, e).a > TXB0CTRL by { LoadsAbove(ch, e); }
    ApplyStaysOff(ch.core, EffectOf(ch, e));
  }

  lemma LoadsAbove(ch: Chip, e: Event)
    requires Inv(ch) && Allowed(ch, e)
    ensures EffectOf(ch, e).Load? ==> EffectOf(ch, e).a > TXB0CTRL
  {
  }

  /** Once bus-off with TEC at 255, no contained run leaves bus-off, calls the transmit
      callback, completes a transmission or deposits a frame. */
  lemma {:induction false} BusOffContainment(ch: Chip, es: seq<Event>)
    requires Inv(ch) && Runnable(ch, es) && Off(ch.core) && Throughout(ch, es, Contained)
    ensures Silent(ch.core, Run(ch, es).core)
    decreases |es|
  {
    if es != [] {
      StepKeeps(ch, es[0]);
      StepStaysOff(ch, es[0]);
      BusOffContainment(Step(ch, es[0]), es[1..]);
    }
  }

  /** Any write of CANCTRL ends bus-off: both counters are zero, every flag that depends on
      them is clear, and the overflow bits survive. */
  lemma CanctrlRecovers(c: Core, v: bv8)
    requires BusOff(c)
    ensures var d := RegWrite(c, CANCTRL, v);
      && d.regs[TEC] == 0 && d.regs[REC] == 0 && !BusOff(d)
      && d.regs[EFLG] == c.regs[EFLG] & (RX0OVR | RX1OVR)
      && d.txs == c.txs && d.got == c.got
  {
    var d := Requested(c, v);
    assert d.regs[EFLG] == c.regs[EFLG] && d.txs == c.txs && d.got == c.got;
    assert RegWrite(c, CANCTRL, v) == RecoverBusOff(d);
  }

  // ----- bounds on TEC -----

  /** `e` neither resets the controller, nor forces or clears an error state, nor writes EFLG bits 0-5. */
  predicate Counting(ch: Chip, e: Event) {
    Allowed(ch, e) ==>
      var f := EffectOf(ch, e);
      !f.Wipe? && !f.Force? && !f.Revive? && (f.Write? ==> KeepsFlags(ch.core, f.a, f.v))
  }

  /** `e` neither forces an error state nor writes other values to EFLG bits 0-5. Resets and
      recoveries are allowed: they only lower TEC. */
  predicate Unforced(ch: Chip, e: Event) {
    Allowed(ch, e) ==>
      var f := EffectOf(ch, e);
      !f.Force? && (f.Write? ==> KeepsFlags(ch.core, f.a, f.v))
  }

  predicate StillOn(ch: Chip, e: Event) { !BusOff(ch.core) }

  /** Transmit-error increments injected by `es`. */
  function Injected(es: seq<Event>): nat {
    if es == [] then 0
    else (if es[0].TxErrors? && es[0].n > 0 then es[0].n else 0) + Injected(es[1..])
  }

  lemma WriteLowers(c: Core, a: nat, v: bv8)
    requires !BusOff(c) && a < REGS_SIZE
    ensures Lowered(c, RegWrite(c, a, v))
  {
    if a == CANCTRL {
      assert Lowered(c, Requested(c, v));
      assert RegWrite(c, a, v) == Requested(c, v);
    } else if IsTxCtrl(a) {
      WriteTxCtrlEffect(c, (a - TXB0CTRL) / 0x10, v);
      assert RegWrite(c, a, v) == WriteTxCtrl(c, (a - TXB0CTRL) / 0x10, v);
    } else if a == CANINTF || a == CANINTE {
      var d := c.(regs := c.regs[a := v]);
      assert RegWrite(c, a, v) == UpdateInt(d);
      UpdateIntEffect(d);
    } else {
      assert RegWrite(c, a, v) == if a == CANSTAT || a == TEC || a == REC then c else c.(regs := c.regs[a := v]);
    }
  }

  lemma RxFrameKeepsTec(c: Core, f: Frame)
    ensures RxFrame(c, f).0.regs[TEC] == c.regs[TEC] && RxFrame(c, f).0.sent == c.sent
  {
    var v := Judge(c.regs, f);
    if v.Store? {
      assert Deposit(c, v.n, f, v.filter).regs[TEC] == c.regs[TEC];
    }
    var d := Route(c, f).0;
    assert d.regs[TEC] == c.regs[TEC] && CountDown(d, REC).regs[TEC] == d.regs[TEC];
  }

  lemma ErrorsRaise(c: Core, counter: nat, v: bv8, merr: bool)
    requires counter == TEC || counter == REC
    ensures var d := RaiseError(SetCounter(c, counter, v), merr);
      && d.sent == c.sent && d.regs[TEC] == (if counter == TEC then v else c.regs[TEC])
      && (d.regs[TEC] == 255 ==> BusOff(d))
  {
    var d := SetCounter(c, counter, v);
    assert d.sent == c.sent && d.regs[TEC] == (if counter == TEC then v else c.regs[TEC]);
    assert d.regs[TEC] == 255 ==> BusOff(d);
  }

  lemma ErrorsCount(c: Core, tx: bool, n: int)
    requires !BusOff(c)
    ensures var d := if tx then InjectTxErrors(c, n) else InjectRxErrors(c, n);
      var t := c.regs[TEC] as int + if tx && n > 0 then 8 * n else 0;
      d.sent == c.sent && d.regs[TEC] as int <= t && (BusOff(d) || t == d.regs[TEC] as int)
  {
    if n > 0 {
      ErrorsRaise(c, TEC, SaturatingAdd(c.regs[TEC], 8 * n), true);
      ErrorsRaise(c, REC, SaturatingAdd(c.regs[REC], n), false);
    }
  }

  lemma ClearLowers(c: Core, n: RxIndex)
    ensures Lowered(c, ClearRxFlag(c, n))
  {
    UpdateIntEffect(c.(regs := c.regs[CANINTF := c.regs[CANINTF] & !RxFlag(n)]));
  }

  lemma ApplyLowers(c: Core, f: Effect)
    requires !BusOff(c) && Applicable(f) && (f.Load? ==> f.a > TXB0CTRL)
    requires !f.Wipe? && !f.Force? && !f.Revive? && !f.Errors?
    ensures Lowered(c, Apply(c, f))
  {
    match f
    case Write(a, v) => WriteLowers(c, a, v); assert Apply(c, f) == RegWrite(c, a, v);
    case Rts(b) => RequestToSendEffect(c, b); assert Apply(c, f) == RequestToSend(c, b);
    case Receive(x) => RxFrameKeepsTec(c, x); assert Apply(c, f) == RxFrame(c, x).0;
    case Clear(n) => ClearLowers(c, n); assert Apply(c, f) == ClearRxFlag(c, n);
    case Load(a, b) => assert Apply(c, f) == LoadByte(c, a, b);
    case Nothing =>
  }

  lemma StepCounts(ch: Chip, e: Event)
    requires Inv(ch) && Allowed(ch, e) && Counting(ch, e) && !BusOff(ch.core)
    ensures var d := Step(ch, e).core; var t := ch.core.regs[TEC] as int + 8 * Injected([e]);
      && ch.core.sent <= d.sent && d.regs[TEC] as int <= t
      && (BusOff(d) || t - (d.sent - ch.core.sent) <= d.regs[TEC] as int)
  {
    hide RegWrite, RequestToSend, RxFrame, InjectTxErrors, InjectRxErrors, ClearRxFlag;
    var c, f := ch.core, EffectOf(ch, e);
    assert Step(ch, e).core == Apply(c, f);
    assert Injected([e]) == if e.TxErrors? && e.n > 0 then e.n else 0;
    if f.Errors? {
      ErrorsCount(c, f.tx, f.n);
    } else {
      ApplyLowers(c, f);
    }
  }

  /** With e injected transmit errors and s completed transmissions, TEC moves by at most
      8e and at least 8e - s until the controller goes bus-off. */
  lemma {:induction false} TecBounds(ch: Chip, es: seq<Event>)
    requires Inv(ch) && Runnable(ch, es) && Throughout(ch, es, Counting) && Throughout(ch, es, StillOn)
    requires !BusOff(Run(ch, es).core)
    ensures var d := Run(ch, es).core; var t := ch.core.regs[TEC] as int + 8 * Injected(es);
      ch.core.sent <= d.sent && t - (d.sent - ch.core.sent) <= d.regs[TEC] as int <= t
    decreases |es|
  {
    if es != [] {
      StepKeeps(ch, es[0]);
      StepCounts(ch, es[0]);
      assert Injected(es) == Injected([es[0]]) + Injected(es[1..]);
      TecBounds(Step(ch, es[0]), es[1..]);
    }
  }

  lemma ZeroedCounters(c: Core)
    ensures Reset(c).regs[TEC] == 0 && RecoverBusOff(c).regs[TEC] == 0
  {
    hide ErrFlags;
  }

  /** Without forced states one step raises TEC by at most 8 per injected error. */
  lemma StepRaises(ch: Chip, e: Event)
    requires Inv(ch) && Allowed(ch, e) && Unforced(ch, e) && !BusOff(ch.core)
    ensures Step(ch, e).core.regs[TEC] as int <= ch.core.regs[TEC] as int + 8 * Injected([e])
  {
    hide Apply, ByteEffect, NextSpi, BusOff, KeepsFlags;
    var f := EffectOf(ch, e);
    if f.Wipe? || f.Revive? {
      ZeroedCounters(ch.core);
      assert Step(ch, e).core.regs[TEC] == 0 by {
        ZeroedBy(ch.core, f);
      }
    } else {
      StepCounts(ch, e);
    }
  }

  lemma ZeroedBy(c: Core, f: Effect)
    requires f.Wipe? || f.Revive?
    ensures Apply(c, f).regs[TEC] == 0
  {
    hide ErrFlags;
  }

  /** While 8e stays below 255 - TEC the controller cannot go bus-off, whatever else happens:
      traffic, register writes, resets and recoveries. */
  lemma {:induction false} FewErrorsStayOn(ch: Chip, es: seq<Event>)
    requires Inv(ch) && FlagsExact(ch.core) && Runnable(ch, es)
    ensures Throughout(ch, es, Unforced) && ch.core.regs[TEC] as int + 8 * Injected(es) < 255 ==>
      Throughout(ch, es, StillOn) && !BusOff(Run(ch, es).core)
    decreases |es|
  {
    hide Step, ErrFlags;
    ExactBusOff(ch.core);
    hide FlagsExact, BusOff;
    if es != [] && Throughout(ch, es, Unforced) && ch.core.regs[TEC] as int + 8 * Injected(es) < 255 {
      StepKeeps(ch, es[0]);
      UnforcedSpares(ch, es[0]);
      StepRaises(ch, es[0]);
      assert Injected(es) == Injected([es[0]]) + Injected(es[1..]);
      FewErrorsStayOn(Step(ch, es[0]), es[1..]);
    }
  }

  lemma ExactBusOff(c: Core)
    requires FlagsExact(c)
    ensures BusOff(c) <==> c.regs[TEC] == 255
    ensures c.regs[TEC] as int < 255 ==> !BusOff(c)
  {
    FlagBits(c.regs[EFLG], c.regs[TEC], c.regs[REC]);
  }

  lemma UnforcedSpares(ch: Chip, e: Event)
    requires Unforced(ch, e)
    ensures SparesFlags(ch, e)
  {
  }

  /** From TEC = 0: at most 31 injected errors never reach bus-off. */
  lemma ThirtyOneErrorsStayOn(ch: Chip, es: seq<Event>)
    requires Inv(ch) && FlagsExact(ch.core) && ch.core.regs[TEC] as int == 0
    requires Runnable(ch, es) && Throughout(ch, es, Unforced) && Injected(es) <= 31
    ensures Throughout(ch, es, StillOn) && !BusOff(Run(ch, es).core)
  {
    FewErrorsStayOn(ch, es);
  }

  /** From TEC = 0, without resets and recoveries: once 8e - s reaches 255 the run has been
      bus-off. */
  lemma BusOffThreshold(ch: Chip, es: seq<Event>)
    requires Inv(ch) && FlagsExact(ch.core) && ch.core.regs[TEC] as int == 0
    requires Runnable(ch, es) && Throughout(ch, es, Counting)
    ensures 8 * Injected(es) - (Run(ch, es).core.sent - ch.core.sent) >= 255 ==>
              !Throughout(ch, es, StillOn) || BusOff(Run(ch, es).core)
  {
    if Throughout(ch, es, StillOn) && !BusOff(Run(ch, es).core) {
      TecBounds(ch, es);
      RunKeeps(ch, es);
      CountingSpares(ch, es);
      ExactBusOff(Run(ch, es).core);
      var t := Run(ch, es).core.regs[TEC];
      assert t != 255;
      assert t as int < 255;
    }
  }

  lemma {:induction false} CountingSpares(ch: Chip, es: seq<Event>)
    requires Runnable(ch, es) && Throughout(ch, es, Counting)
    ensures Throughout(ch, es, SparesFlags)
    decreases |es|
  {
    if es != [] {
      CountingSpares(Step(ch, es[0]), es[1..]);
    }
  }
}
