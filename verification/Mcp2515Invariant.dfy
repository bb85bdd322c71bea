/** What every run of the controller keeps: the interrupt line and its callback trace, the
    mode shadow, the SPI bookkeeping, and the error flags. */
module Mcp2515Invariant {
  import opened Mcp2515Regs
  import opened Mcp2515Core
  import opened Mcp2515Spi

  /** The interrupt callback has been called with 1, 0, 1, 0, ... and last with the current level. */
  ghost predicate Alternating(c: Core) {
    (forall i :: 0 <= i < |c.ints| ==> c.ints[i] == (i % 2 == 0)) && (c.intLine <==> |c.ints| % 2 == 1)
  }

  predicate ModeExact(c: Core) { c.mode == ModeOf(c.regs[CANSTAT]) && c.mode <= MODE_CONFIG }

  predicate IntExact(c: Core) { c.intLine == IntLevel(c.regs) }

  predicate FlagsExact(c: Core) { c.regs[EFLG] & 0x3F == ErrFlags(c.regs[TEC], c.regs[REC]) }

  /** The part of the invariant that also holds between two assignments of one operation. */
  ghost predicate Loose(c: Core) { Alternating(c) && ModeExact(c) }

  ghost predicate CoreInv(c: Core) { Loose(c) && IntExact(c) }

  ghost predicate Inv(ch: Chip) { CoreInv(ch.core) && SpiInv(ch.spi) }

  /** `d` differs from `c` at most in what receiving a frame may change. */
  predicate Received(c: Core, d: Core) {
    && d.mode == c.mode && d.txs == c.txs && d.sent == c.sent
    && d.regs[CANSTAT] == c.regs[CANSTAT] && d.regs[CANINTE] == c.regs[CANINTE]
    && d.regs[TEC] == c.regs[TEC] && d.regs[REC] == c.regs[REC]
    && d.regs[EFLG] & 0x3F == c.regs[EFLG] & 0x3F
  }

  lemma UpdateIntKeeps(c: Core)
    requires Loose(c)
    ensures CoreInv(UpdateInt(c))
  {
  }

  lemma DepositKeeps(c: Core, n: RxIndex, f: Frame, filter: bv8)
    requires Loose(c)
    ensures CoreInv(Deposit(c, n, f, filter)) && Received(c, Deposit(c, n, f, filter))
  {
  }

  lemma RouteKeeps(c: Core, f: Frame)
    requires Loose(c)
    ensures Loose(Route(c, f).0) && Received(c, Route(c, f).0)
    ensures IntExact(c) ==> IntExact(Route(c, f).0)
  {
    var v := Judge(c.regs, f);
    if v.Store? {
      DepositKeeps(c, v.n, f, v.filter);
    }
  }

  lemma CountDownKeeps(c: Core, counter: nat)
    requires Loose(c) && (counter == TEC || counter == REC)
    ensures var d := CountDown(c, counter);
      Loose(d) && (IntExact(c) ==> IntExact(d)) && (FlagsExact(c) ==> FlagsExact(d))
  {
  }

  lemma RxFrameKeeps(c: Core, f: Frame)
    requires CoreInv(c)
    ensures CoreInv(RxFrame(c, f).0)
    ensures FlagsExact(c) ==> FlagsExact(RxFrame(c, f).0)
  {
    RouteKeeps(c, f);
    CountDownKeeps(Route(c, f).0, REC);
  }

  /** Completing transmission n up to the error bookkeeping. */
  function Completed(c: Core, n: TxIndex): Core { CountDown(MarkComplete(c, n), TEC) }

  lemma CompletedKeeps(c: Core, n: TxIndex)
    requires Loose(c)
    ensures Loose(Completed(c, n)) && (FlagsExact(c) ==> FlagsExact(Completed(c, n)))
  {
    var d := MarkComplete(c, n);
    assert Loose(d) && (FlagsExact(c) ==> FlagsExact(d));
    CountDownKeeps(d, TEC);
  }

  lemma DeliverLoopbackKeeps(c: Core, n: TxIndex)
    requires Loose(c)
    ensures CoreInv(DeliverLoopback(c, n)) && (FlagsExact(c) ==> FlagsExact(DeliverLoopback(c, n)))
  {
    CompletedKeeps(c, n);
    RouteKeeps(Completed(c, n), Extract(c.regs, n));
    UpdateIntKeeps(Route(Completed(c, n), Extract(c.regs, n)).0);
  }

  lemma DeliverNormalKeeps(c: Core, n: TxIndex)
    requires Loose(c)
    ensures CoreInv(DeliverNormal(c, n)) && (FlagsExact(c) ==> FlagsExact(DeliverNormal(c, n)))
  {
    CompletedKeeps(c, n);
    UpdateIntKeeps(Completed(c, n));
  }

  lemma WriteTxCtrlKeeps(c: Core, n: TxIndex, v: bv8)
    requires CoreInv(c)
    ensures CoreInv(WriteTxCtrl(c, n, v)) && (FlagsExact(c) ==> FlagsExact(WriteTxCtrl(c, n, v)))
  {
    hide DeliverLoopback, DeliverNormal;
    var d := c.(regs := c.regs[TxCtrl(n) := v]);
    assert CoreInv(d) && (FlagsExact(c) ==> FlagsExact(d));
    DeliverLoopbackKeeps(d, n);
    DeliverNormalKeeps(d, n);
  }

  lemma SetModeKeeps(c: Core, m: bv8)
    requires Alternating(c) && m <= MODE_CONFIG
    ensures Loose(SetMode(c, m)) && (IntExact(c) ==> IntExact(SetMode(c, m)))
    ensures FlagsExact(c) ==> FlagsExact(SetMode(c, m))
  {
  }

  lemma UpdateErrorExact(c: Core)
    ensures FlagsExact(UpdateError(c)) && (IntExact(c) ==> IntExact(UpdateError(c)))
    ensures Loose(c) ==> Loose(UpdateError(c))
  {
  }

  /** CANCTRL as written, with the requested mode taken up if it exists. */
  function Requested(c: Core, v: bv8): Core {
    var d := c.(regs := c.regs[CANCTRL := v]);
    if ModeOf(v) <= MODE_CONFIG then SetMode(d, ModeOf(v)) else d
  }

  lemma RequestedKeeps(c: Core, v: bv8)
    requires CoreInv(c)
    ensures CoreInv(Requested(c, v)) && (FlagsExact(c) ==> FlagsExact(Requested(c, v)))
  {
    var d := c.(regs := c.regs[CANCTRL := v]);
    assert CoreInv(d) && (FlagsExact(c) ==> FlagsExact(d));
    if ModeOf(v) <= MODE_CONFIG {
      SetModeKeeps(d, ModeOf(v));
    }
  }

  lemma RecoverKeeps(c: Core)
    requires CoreInv(c)
    ensures CoreInv(RecoverBusOff(c)) && FlagsExact(RecoverBusOff(c))
  {
    UpdateErrorExact(c.(regs := c.regs[TEC := 0][REC := 0]));
  }

  lemma WriteCanctrlKeeps(c: Core, v: bv8)
    requires CoreInv(c)
    ensures CoreInv(WriteCanctrl(c, v)) && (FlagsExact(c) ==> FlagsExact(WriteCanctrl(c, v)))
  {
    RequestedKeeps(c, v);
    RecoverKeeps(Requested(c, v));
    assert WriteCanctrl(c, v) == if BusOff(c) then RecoverBusOff(Requested(c, v)) else Requested(c, v);
  }

  /** A write of EFLG that leaves bits 0-5 alone. */
  predicate KeepsFlags(c: Core, a: nat, v: bv8) {
    a == EFLG ==> v & 0x3F == c.regs[EFLG] & 0x3F
  }

  lemma PlainWriteKeeps(c: Core, a: nat, v: bv8)
    requires CoreInv(c) && a < REGS_SIZE && a != CANSTAT && a != CANINTE && a != CANINTF && a != TEC && a != REC
    ensures var d := c.(regs := c.regs[a := v]);
      CoreInv(d) && (FlagsExact(c) && KeepsFlags(c, a, v) ==> FlagsExact(d))
  {
  }

  lemma RegWriteKeeps(c: Core, a: nat, v: bv8)
    requires CoreInv(c) && a < REGS_SIZE
    ensures CoreInv(RegWrite(c, a, v))
    ensures FlagsExact(c) && KeepsFlags(c, a, v) ==> FlagsExact(RegWrite(c, a, v))
  {
    if a == CANCTRL {
      WriteCanctrlKeeps(c, v);
      assert RegWrite(c, a, v) == WriteCanctrl(c, v);
    } else if IsTxCtrl(a) {
      WriteTxCtrlKeeps(c, (a - TXB0CTRL) / 0x10, v);
      assert RegWrite(c, a, v) == WriteTxCtrl(c, (a - TXB0CTRL) / 0x10, v);
    } else if a == CANINTF || a == CANINTE {
      UpdateIntKeeps(c.(regs := c.regs[a := v]));
      assert RegWrite(c, a, v) == UpdateInt(c.(regs := c.regs[a := v]));
    } else if a != CANSTAT && a != TEC && a != REC {
      PlainWriteKeeps(c, a, v);
    }
  }

  lemma RequestTxKeeps(c: Core, b: bv8, n: TxIndex)
    requires CoreInv(c)
    ensures CoreInv(RequestTx(c, b, n)) && (FlagsExact(c) ==> FlagsExact(RequestTx(c, b, n)))
  {
    RegWriteKeeps(c, TxCtrl(n), c.regs[TxCtrl(n)] | TXREQ);
  }

  lemma RequestToSendKeeps(c: Core, b: bv8)
    requires CoreInv(c)
    ensures CoreInv(RequestToSend(c, b)) && (FlagsExact(c) ==> FlagsExact(RequestToSend(c, b)))
  {
    RequestTxKeeps(c, b, 0);
    RequestTxKeeps(RequestTx(c, b, 0), b, 1);
    RequestTxKeeps(RequestTx(RequestTx(c, b, 0), b, 1), b, 2);
  }

  // ----- events -----

  lemma FlagWriteKeeps(c: Core, v: bv8)
    requires CoreInv(c)
    ensures var d := UpdateInt(c.(regs := c.regs[CANINTF := v])); CoreInv(d) && (FlagsExact(c) ==> FlagsExact(d))
  {
    UpdateIntKeeps(c.(regs := c.regs[CANINTF := v]));
  }

  lemma RaiseErrorKeeps(c: Core, merr: bool)
    requires CoreInv(c)
    ensures CoreInv(RaiseError(c, merr)) && (FlagsExact(c) ==> FlagsExact(RaiseError(c, merr)))
  {
    FlagWriteKeeps(c, c.regs[CANINTF] | ERRIF | (if merr then MERRF else 0));
  }

  lemma SetCounterKeeps(c: Core, counter: nat, v: bv8)
    requires CoreInv(c) && (counter == TEC || counter == REC)
    ensures CoreInv(SetCounter(c, counter, v)) && FlagsExact(SetCounter(c, counter, v))
  {
    UpdateErrorExact(c.(regs := c.regs[counter := v]));
  }

  lemma InjectKeeps(c: Core, n: int)
    requires CoreInv(c)
    ensures CoreInv(InjectTxErrors(c, n)) && (FlagsExact(c) ==> FlagsExact(InjectTxErrors(c, n)))
    ensures CoreInv(InjectRxErrors(c, n)) && (FlagsExact(c) ==> FlagsExact(InjectRxErrors(c, n)))
  {
    if n > 0 {
      SetCounterKeeps(c, TEC, SaturatingAdd(c.regs[TEC], 8 * n));
      RaiseErrorKeeps(SetCounter(c, TEC, SaturatingAdd(c.regs[TEC], 8 * n)), true);
      SetCounterKeeps(c, REC, SaturatingAdd(c.regs[REC], n));
      RaiseErrorKeeps(SetCounter(c, REC, SaturatingAdd(c.regs[REC], n)), false);
    }
  }

  lemma ForceKeeps(c: Core)
    requires CoreInv(c)
    ensures CoreInv(ForceBusOff(c)) && FlagsExact(ForceBusOff(c))
    ensures CoreInv(ForceErrorPassive(c)) && FlagsExact(ForceErrorPassive(c))
  {
    SetCounterKeeps(c, TEC, 255);
    RaiseErrorKeeps(SetCounter(c, TEC, 255), true);
    SetCounterKeeps(c, TEC, 128);
    RaiseErrorKeeps(SetCounter(c, TEC, 128), false);
  }

  lemma ResetKeeps(c: Core)
    requires CoreInv(c)
    ensures CoreInv(Reset(c)) && FlagsExact(Reset(c))
  {
  }

  lemma ClearKeeps(c: Core, n: RxIndex)
    requires CoreInv(c)
    ensures CoreInv(ClearRxFlag(c, n)) && (FlagsExact(c) ==> FlagsExact(ClearRxFlag(c, n)))
  {
    FlagWriteKeeps(c, c.regs[CANINTF] & !RxFlag(n));
  }

  lemma LoadKeeps(c: Core, a: nat, b: bv8)
    requires CoreInv(c) && TXB0CTRL < a < REGS_SIZE
    ensures CoreInv(LoadByte(c, a, b)) && (FlagsExact(c) ==> FlagsExact(LoadByte(c, a, b)))
  {
    PlainWriteKeeps(c, a, b);
  }

  lemma ApplyKeeps(c: Core, e: Effect)
    requires CoreInv(c) && Applicable(e) && (e.Load? ==> e.a > TXB0CTRL)
    ensures CoreInv(Apply(c, e))
    ensures FlagsExact(c) && (e.Write? ==> KeepsFlags(c, e.a, e.v)) ==> FlagsExact(Apply(c, e))
  {
    hide RegWrite, RequestToSend, RxFrame, InjectTxErrors, InjectRxErrors, ClearRxFlag, ForceBusOff, ForceErrorPassive;
    hide RecoverBusOff, Reset, CoreInv, FlagsExact, KeepsFlags;
    match e
    case Write(a, v) => RegWriteKeeps(c, a, v); assert Apply(c, e) == RegWrite(c, a, v);
    case Rts(b) => RequestToSendKeeps(c, b); assert Apply(c, e) == RequestToSend(c, b);
    case Load(a, b) => LoadKeeps(c, a, b);
    case Clear(n) => ClearKeeps(c, n); assert Apply(c, e) == ClearRxFlag(c, n);
    case Wipe => ResetKeeps(c); assert Apply(c, e) == Reset(c);
    case Receive(f) => RxFrameKeeps(c, f); assert Apply(c, e) == RxFrame(c, f).0;
    case Errors(tx, n) => InjectKeeps(c, n); assert Apply(c, e) == if tx then InjectTxErrors(c, n) else InjectRxErrors(c, n);
    case Force(off) => ForceKeeps(c); assert Apply(c, e) == if off then ForceBusOff(c) else ForceErrorPassive(c);
    case Revive => RecoverKeeps(c); assert Apply(c, e) == RecoverBusOff(c);
    case Nothing =>
  }

  lemma CommandPhase(s: Spi, b: bv8)
    requires s.csLow
    ensures PhaseInv(Command(s, b).(pos := 1)) && ReadInv(Command(s, b).(pos := 1))
  {
    hide Command, Opcode, Has, IsReadRx, IsLoadTx;
    if b == SPI_RESET {
      CommandReset(s, b);
    } else {
      CommandOpens(s, b);
    }
  }

  lemma CommandReset(s: Spi, b: bv8)
    ensures b == SPI_RESET ==> var t := Command(s, b); !t.csLow && t.txn == Done && t.cmd == b
  {
    hide Opcode, LoadIndex;
  }

  lemma CommandOpens(s: Spi, b: bv8)
    requires b != SPI_RESET
    ensures var t := Command(s, b);
      && t.csLow == s.csLow && t.txn == Opcode(b) && t.cmd == b
      && (t.txn == ReadRx ==> t.rxBuf == (if Has(b, 4) then 1 else 0) && t.rxOff == 0 && t.dataOnly == Has(b, 2))
  {
    hide Opcode, LoadIndex, Has;
  }

  /** The phase after an operand byte. */
  function NextPhase(s: Spi): Txn {
    if s.txn == NeedAddr then
      if s.cmd == SPI_READ then ReadData else if s.cmd == SPI_WRITE then NeedData else NeedMask
    else if s.txn == NeedMask then NeedData
    else if s.txn == NeedData && s.cmd == SPI_BIT_MODIFY then Done
    else s.txn
  }

  lemma OperandFields(s: Spi, b: bv8)
    ensures var t := Operand(s, b);
      && t.csLow == s.csLow && t.pos == s.pos && t.cmd == s.cmd && t.txn == NextPhase(s)
      && t.loadBuf == s.loadBuf && t.rxBuf == s.rxBuf && t.dataOnly == s.dataOnly
      && t.rxOff == s.rxOff + (if s.txn == ReadRx then 1 else 0)
      && t.loadOff == s.loadOff + (if s.txn == LoadTx then 1 else 0)
  {
    match s.txn
    case NeedAddr =>
    case NeedMask =>
    case NeedData =>
    case ReadData =>
    case LoadTx =>
    case ReadRx =>
    case _ =>
  }

  lemma OperandPhase(s: Spi, b: bv8)
    requires PhaseInv(s) && s.csLow && s.pos > 0
    ensures PhaseInv(Operand(s, b).(pos := s.pos + 1))
  {
    hide Operand;
    OperandFields(s, b);
  }

  lemma OperandRead(s: Spi, b: bv8)
    requires ReadInv(s) && s.csLow && s.pos > 0
    ensures ReadInv(Operand(s, b).(pos := s.pos + 1))
  {
    hide Operand, Has, IsReadRx;
    OperandFields(s, b);
  }

  lemma NextSpiPhase(s: Spi, b: bv8)
    requires PhaseInv(s)
    ensures PhaseInv(NextSpi(s, b))
  {
    hide PhaseInv, Command, Operand;
    if s.csLow && s.pos == 0 {
      CommandPhase(s, b);
      CommandKeepsPos(s, b);
    } else if s.csLow {
      OperandPhase(s, b);
      OperandFields(s, b);
    }
  }

  /** RESET and every other command leave the byte count at 0; operands do not touch it. */
  lemma CommandKeepsPos(s: Spi, b: bv8)
    requires s.pos == 0
    ensures Command(s, b).pos == 0
  {
  }

  lemma NextSpiLoad(s: Spi, b: bv8)
    requires LoadInv(s)
    ensures LoadInv(NextSpi(s, b))
  {
    if s.csLow && s.pos == 0 {
      var t := Command(s, b);
      assert t.txn == LoadTx ==> t.cmd == b && t.pos == 0;
    }
  }

  lemma NextSpiRead(s: Spi, b: bv8)
    requires ReadInv(s)
    ensures ReadInv(NextSpi(s, b))
  {
    hide ReadInv, Command, Operand;
    if s.csLow && s.pos == 0 {
      CommandPhase(s, b);
      CommandKeepsPos(s, b);
    } else if s.csLow {
      OperandRead(s, b);
      OperandFields(s, b);
    }
  }

  lemma NextSpiKeeps(s: Spi, b: bv8)
    requires SpiInv(s)
    ensures SpiInv(NextSpi(s, b))
  {
    NextSpiPhase(s, b);
    NextSpiLoad(s, b);
    NextSpiRead(s, b);
  }

  lemma StepKeeps(ch: Chip, e: Event)
    requires Inv(ch) && Allowed(ch, e)
    ensures Inv(Step(ch, e))
    ensures FlagsExact(ch.core) && SparesFlags(ch, e) ==> FlagsExact(Step(ch, e).core)
  {
    hide Apply, NextSpi;
    ApplyKeeps(ch.core, EffectOf(ch, e));
    if e.Byte? {
      NextSpiKeeps(ch.spi, e.b);
    }
  }

  /** `e` does not write other values to bits 0-5 of EFLG. */
  predicate SparesFlags(ch: Chip, e: Event) {
    Allowed(ch, e) ==> var f := EffectOf(ch, e); f.Write? ==> KeepsFlags(ch.core, f.a, f.v)
  }

  lemma {:induction false} RunKeeps(ch: Chip, es: seq<Event>)
    requires Inv(ch) && Runnable(ch, es)
    ensures Inv(Run(ch, es))
    ensures FlagsExact(ch.core) && Throughout(ch, es, SparesFlags) ==> FlagsExact(Run(ch, es).core)
    decreases |es|
  {
    if es != [] {
      StepKeeps(ch, es[0]);
      RunKeeps(Step(ch, es[0]), es[1..]);
    }
  }

  lemma FreshInv()
    ensures Inv(Fresh()) && FlagsExact(Fresh().core)
    ensures Fresh().core.regs[TEC] == 0 && Fresh().core.sent == 0 && !BusOff(Fresh().core)
  {
  }

  lemma FlagBits(e: bv8, tec: bv8, rec: bv8)
    requires e & 0x3F == ErrFlags(tec, rec)
    ensures Has(e, TXBO) <==> tec == 255
    ensures Has(e, 0x18) <==> tec >= 128 || rec >= 128
  {
  }

  /** Fault confinement: in every run that spares EFLG bits 0-5 the announced state is decided
      by the counters alone. */
  lemma StateFollowsCounters(es: seq<Event>)
    requires Runnable(Fresh(), es) && Throughout(Fresh(), es, SparesFlags)
    ensures var r := Run(Fresh(), es).core.regs;
      StateOf(r) == if r[TEC] == 255 then Offline else if r[TEC] >= 128 || r[REC] >= 128 then Passive else Active
  {
    hide Run, ErrFlags;
    ReachableInvariant(es);
    var r := Run(Fresh(), es).core.regs;
    FlagBits(r[EFLG], r[TEC], r[REC]);
  }

  /** From reset on: the interrupt line equals CANINTF & CANINTE != 0, its callback alternates
      1, 0, 1, 0, the mode is CANSTAT.OPMOD and exists, and the transaction state is consistent. */
  lemma ReachableInvariant(es: seq<Event>)
    requires Runnable(Fresh(), es)
    ensures Inv(Run(Fresh(), es))
    ensures Throughout(Fresh(), es, SparesFlags) ==> FlagsExact(Run(Fresh(), es).core)
  {
    FreshInv();
    RunKeeps(Fresh(), es);
  }

  // ----- exactly which runs keep EFLG at the thresholds -----

  /** A write keeps bits 0-5 of EFLG exact if and only if it does not store other values there. */
  lemma WriteFlagsExact(c: Core, a: nat, v: bv8)
    requires CoreInv(c) && FlagsExact(c) && a < REGS_SIZE
    ensures FlagsExact(RegWrite(c, a, v)) <==> KeepsFlags(c, a, v)
  {
    hide ErrFlags;
    RegWriteKeeps(c, a, v);
    if a == EFLG {
      PlainFlagWrite(c, v);
    }
    hide RegWrite;
  }

  lemma PlainFlagWrite(c: Core, v: bv8)
    ensures RegWrite(c, EFLG, v) == c.(regs := c.regs[EFLG := v])
  {
  }

  lemma StepFlagsExact(ch: Chip, e: Event)
    requires Inv(ch) && FlagsExact(ch.core) && Allowed(ch, e)
    ensures FlagsExact(Step(ch, e).core) <==> SparesFlags(ch, e)
  {
    hide RegWrite, RequestToSend, RxFrame, InjectTxErrors, InjectRxErrors, ClearRxFlag, ByteEffect, NextSpi, FlagsExact, KeepsFlags;
    var f := EffectOf(ch, e);
    StepKeeps(ch, e);
    if f.Write? {
      WriteFlagsExact(ch.core, f.a, f.v);
      assert Step(ch, e).core == RegWrite(ch.core, f.a, f.v);
    }
  }

  predicate ExactAfter(ch: Chip, e: Event) { Allowed(ch, e) ==> FlagsExact(Step(ch, e).core) }

  /** EFLG bits 0-5 are the thresholds of TEC and REC in every state of a run if and only if no
      write of the run stores other values there; the first one that does breaks them. */
  lemma {:induction false} RunFlagsExact(ch: Chip, es: seq<Event>)
    requires Inv(ch) && FlagsExact(ch.core) && Runnable(ch, es)
    ensures Throughout(ch, es, ExactAfter) <==> Throughout(ch, es, SparesFlags)
    decreases |es|
  {
    hide Step, FlagsExact, SparesFlags;
    if es != [] {
      StepKeeps(ch, es[0]);
      StepFlagsExact(ch, es[0]);
      if SparesFlags(ch, es[0]) {
        RunFlagsExact(Step(ch, es[0]), es[1..]);
      }
    }
  }

  /** The input that shows it: EFLG written with 1 in a fresh controller. */
  lemma BrokenThresholds()
    ensures var es := [HostWrite(EFLG, 0x01)];
      Runnable(Fresh(), es) && !Throughout(Fresh(), es, SparesFlags) && !FlagsExact(Run(Fresh(), es).core)
  {
    var e := HostWrite(EFLG, 0x01);
    FreshInv();
    assert [e][1..] == [] && [] + [e] == [e];
    RunAppend(Fresh(), [], e);
    StepFlagsExact(Fresh(), e);
    assert !KeepsFlags(Fresh().core, EFLG, 0x01);
  }
}
