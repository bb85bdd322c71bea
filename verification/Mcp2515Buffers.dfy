/** A full receive buffer is never overwritten by a frame: over any run that does not clear its
    flag or write into its registers it stays full and its 14 bytes stay as they are. */
module Mcp2515Buffers {
  import opened Mcp2515Regs
  import opened Mcp2515Core
  import opened Mcp2515Spi
  import opened Mcp2515Routing
  import opened Mcp2515Transactions
  import opened Mcp2515Invariant
  import opened Mcp2515Requests
  import opened Mcp2515Commands
  import opened Mcp2515Runs

  /** Register a belongs to receive buffer n. */
  predicate InBuffer(a: int, n: RxIndex) { RxCtrl(n) <= a < RxCtrl(n) + 14 }

  /** If buffer n was full it still is, with the same control byte and frame. */
  ghost predicate Kept(c: Core, d: Core, n: RxIndex) {
    Full(c.regs, n) ==> Full(d.regs, n) && forall a :: InBuffer(a, n) ==> d.regs[a] == c.regs[a]
  }

  lemma KeptThrough(c: Core, d: Core, e: Core, n: RxIndex)
    requires Kept(c, d, n) && Kept(d, e, n)
    ensures Kept(c, e, n)
  {
  }

  lemma FlagAdded(i: bv8, x: bv8, n: RxIndex)
    ensures Has(i, RxFlag(n)) ==> Has(i | x, RxFlag(n))
  {
  }

  lemma RouteKept(c: Core, f: Frame, n: RxIndex)
    ensures Kept(c, Route(c, f).0, n)
  {
    hide Route, Takes0, Takes1, Overflow, Has, Holds, FrameAt, Canonical;
    RoutingExact(c, f);
    FlagAdded(c.regs[CANINTF], RX0IF, n);
    FlagAdded(c.regs[CANINTF], RX1IF, n);
  }

  lemma CountDownKept(c: Core, counter: nat, n: RxIndex)
    requires counter == TEC || counter == REC
    ensures Kept(c, CountDown(c, counter), n)
  {
    hide ErrFlags, Has;
  }

  lemma UpdateIntKept(c: Core, n: RxIndex)
    ensures Kept(c, UpdateInt(c), n)
  {
  }

  lemma CompletedKept(c: Core, k: TxIndex, n: RxIndex)
    ensures Kept(c, Completed(c, k), n)
  {
    hide CountDown, Has;
    FlagAdded(c.regs[CANINTF], TxFlag(k), n);
    CountDownKept(MarkComplete(c, k), TEC, n);
  }

  lemma DeliverKept(c: Core, k: TxIndex, n: RxIndex)
    ensures Kept(c, DeliverLoopback(c, k), n) && Kept(c, DeliverNormal(c, k), n)
  {
    hide Kept, Completed, Route, UpdateInt, Extract;
    var d, f := Completed(c, k), Extract(c.regs, k);
    CompletedKept(c, k, n);
    RouteKept(d, f, n);
    UpdateIntKept(Route(d, f).0, n);
    UpdateIntKept(d, n);
    KeptThrough(c, d, Route(d, f).0, n);
    KeptThrough(c, Route(d, f).0, UpdateInt(Route(d, f).0), n);
    KeptThrough(c, d, UpdateInt(d), n);
    DeliveriesAre(c, k);
    SentTrace(UpdateInt(d), f, n);
    KeptThrough(c, UpdateInt(d), DeliverNormal(c, k), n);
  }

  lemma DeliveriesAre(c: Core, k: TxIndex)
    ensures var d, f := Completed(c, k), Extract(c.regs, k);
      && DeliverLoopback(c, k) == UpdateInt(Route(d, f).0)
      && DeliverNormal(c, k) == UpdateInt(d).(txs := UpdateInt(d).txs + [f])
  {
    hide Route, UpdateInt, CountDown, MarkComplete, Extract;
  }

  lemma SentTrace(c: Core, f: Frame, n: RxIndex)
    ensures Kept(c, c.(txs := c.txs + [f]), n)
  {
  }

  lemma PlainKept(c: Core, a: nat, v: bv8, n: RxIndex)
    requires a < REGS_SIZE && !InBuffer(a, n) && (a == CANINTF && Full(c.regs, n) ==> Has(v, RxFlag(n)))
    ensures Kept(c, c.(regs := c.regs[a := v]), n)
  {
    hide Has;
  }

  lemma TxCtrlKept(c: Core, k: TxIndex, v: bv8, n: RxIndex)
    ensures Kept(c, WriteTxCtrl(c, k, v), n)
  {
    hide Kept, DeliverLoopback, DeliverNormal, BusOff, Has;
    var d := c.(regs := c.regs[TxCtrl(k) := v]);
    PlainKept(c, TxCtrl(k), v, n);
    DeliverKept(d, k, n);
    KeptThrough(c, d, DeliverLoopback(d, k), n);
    KeptThrough(c, d, DeliverNormal(d, k), n);
  }

  /** A register write keeps a full buffer unless it goes into the buffer or clears its flag. */
  lemma WriteKept(c: Core, a: nat, v: bv8, n: RxIndex)
    requires a < REGS_SIZE && !InBuffer(a, n) && (a == CANINTF && Full(c.regs, n) ==> Has(v, RxFlag(n)))
    ensures Kept(c, RegWrite(c, a, v), n)
  {
    hide WriteTxCtrl, Has;
    if a == CANCTRL {
      ModeRequestExact(c, v);
    } else if IsTxCtrl(a) {
      TxCtrlKept(c, BufferOf(a), v, n);
      assert RegWrite(c, a, v) == WriteTxCtrl(c, BufferOf(a), v);
    } else if a == CANINTF || a == CANINTE {
      var d := c.(regs := c.regs[a := v]);
      PlainKept(c, a, v, n);
      UpdateIntKept(d, n);
      KeptThrough(c, d, UpdateInt(d), n);
      assert RegWrite(c, a, v) == UpdateInt(d);
    } else {
      PlainKept(c, a, v, n);
    }
  }

  lemma RequestKept(c: Core, b: bv8, k: TxIndex, n: RxIndex)
    ensures Kept(c, RequestTx(c, b, k), n)
  {
    hide RegWrite, Has;
    WriteKept(c, TxCtrl(k), c.regs[TxCtrl(k)] | TXREQ, n);
  }

  lemma RtsKept(c: Core, b: bv8, n: RxIndex)
    ensures Kept(c, RequestToSend(c, b), n)
  {
    hide Kept, RequestTx;
    var c1 := RequestTx(c, b, 0);
    var c2 := RequestTx(c1, b, 1);
    RequestKept(c, b, 0, n);
    RequestKept(c1, b, 1, n);
    RequestKept(c2, b, 2, n);
    KeptThrough(c, c1, c2, n);
    KeptThrough(c, c2, RequestTx(c2, b, 2), n);
  }

  lemma ReceiveKept(c: Core, f: Frame, n: RxIndex)
    ensures Kept(c, RxFrame(c, f).0, n)
  {
    hide Route, CountDown, BusOff;
    var d := Route(c, f).0;
    RouteKept(c, f, n);
    CountDownKept(d, REC, n);
  }

  lemma ErrorKept(c: Core, counter: nat, v: bv8, merr: bool, n: RxIndex)
    requires counter == TEC || counter == REC
    ensures Kept(c, RaiseError(SetCounter(c, counter, v), merr), n)
  {
    hide ErrFlags, Has;
    RaiseAdds(c.regs[CANINTF], merr, n);
  }

  lemma RaiseAdds(i: bv8, merr: bool, n: RxIndex)
    ensures Has(i, RxFlag(n)) ==> Has(i | ERRIF | (if merr then MERRF else 0), RxFlag(n))
  {
  }

  lemma ErrorsKept(c: Core, e: Effect, n: RxIndex)
    requires e.Errors? || e.Force? || e.Revive?
    ensures Kept(c, Apply(c, e), n)
  {
    hide RaiseError, SetCounter, SaturatingAdd, Has;
    match e
    case Errors(tx, k) =>
      ErrorKept(c, TEC, SaturatingAdd(c.regs[TEC], 8 * k), true, n);
      ErrorKept(c, REC, SaturatingAdd(c.regs[REC], k), false, n);
    case Force(off) =>
      ErrorKept(c, TEC, 255, true, n);
      ErrorKept(c, TEC, 128, false, n);
    case Revive => RecoverFields(c);
    case _ =>
  }

  lemma ClearKept(c: Core, k: RxIndex, n: RxIndex)
    requires k != n
    ensures Kept(c, ClearRxFlag(c, k), n)
  {
    OtherFlagStays(c.regs[CANINTF], k, n);
    hide Has;
  }

  lemma OtherFlagStays(i: bv8, k: RxIndex, n: RxIndex)
    requires k != n
    ensures Has(i, RxFlag(n)) ==> Has(i & !RxFlag(k), RxFlag(n))
  {
  }

  /** `e` does not clear the flag of buffer n, and neither a register write nor a LOAD TX that
      has run past its own buffer goes into buffer n. */
  predicate Spares(ch: Chip, e: Event, n: RxIndex) {
    Allowed(ch, e) ==>
      var f := EffectOf(ch, e);
      && !f.Wipe? && f != Clear(n)
      && (f.Write? || f.Load? ==> !InBuffer(f.a, n))
      && (f.Write? && f.a == CANINTF ==> Has(f.v, RxFlag(n)))
  }

  lemma StepKept(ch: Chip, e: Event, n: RxIndex)
    requires Mcp2515Invariant.Inv(ch) && Allowed(ch, e) && Spares(ch, e, n)
    ensures Kept(ch.core, Step(ch, e).core, n)
  {
    hide Kept, RegWrite, RequestToSend, RxFrame, InjectTxErrors, InjectRxErrors, ForceBusOff, ForceErrorPassive;
    hide RecoverBusOff, ClearRxFlag, Has;
    var c, f := ch.core, EffectOf(ch, e);
    assert Step(ch, e).core == Apply(c, f);
    if f.Load? {
      LoadsAbove(ch, e);
      PlainKept(c, f.a, f.b, n);
    } else if f.Errors? || f.Force? || f.Revive? {
      ErrorsKept(c, f, n);
    } else {
      match f
      case Write(a, v) => WriteKept(c, a, v, n);
      case Rts(b) => RtsKept(c, b, n);
      case Receive(x) => ReceiveKept(c, x, n);
      case Clear(k) => ClearKept(c, k, n);
      case _ => NothingKept(c, n);
    }
  }

  lemma NothingKept(c: Core, n: RxIndex)
    ensures Kept(c, c, n)
  {
  }

  ghost predicate SparedRun(ch: Chip, es: seq<Event>, n: RxIndex)
    requires Runnable(ch, es)
    decreases |es|
  {
    es == [] || (Spares(ch, es[0], n) && SparedRun(Step(ch, es[0]), es[1..], n))
  }

  /** A full buffer n stays full with all 14 bytes unchanged over every run, whatever frames
      arrive, that neither clears its flag nor writes into its registers. */
  lemma {:induction false} FullBufferKept(ch: Chip, es: seq<Event>, n: RxIndex)
    requires Mcp2515Invariant.Inv(ch) && Runnable(ch, es) && SparedRun(ch, es, n) && Full(ch.core.regs, n)
    ensures Full(Run(ch, es).core.regs, n)
    ensures forall a :: InBuffer(a, n) ==> Run(ch, es).core.regs[a] == ch.core.regs[a]
    ensures FrameAt(Run(ch, es).core.regs, RxCtrl(n)) == FrameAt(ch.core.regs, RxCtrl(n))
    decreases |es|
  {
    hide Step, Full, Spares, FrameAt, Has;
    if es != [] {
      Mcp2515Invariant.StepKeeps(ch, es[0]);
      StepKept(ch, es[0], n);
      FullBufferKept(Step(ch, es[0]), es[1..], n);
      SameFrame(ch.core.regs, Step(ch, es[0]).core.regs, n);
    }
  }

  lemma SameFrame(r: Regs, q: Regs, n: RxIndex)
    requires forall a :: InBuffer(a, n) ==> q[a] == r[a]
    ensures FrameAt(q, RxCtrl(n)) == FrameAt(r, RxCtrl(n))
  {
    assert forall a :: RxCtrl(n) <= a < RxCtrl(n) + 14 ==> InBuffer(a, n);
    assert q[RxCtrl(n) + 6..RxCtrl(n) + 14] == r[RxCtrl(n) + 6..RxCtrl(n) + 14];
  }

  // ----- what the condition excludes -----

  /** The loader has no end check short of the register file: 29 bytes into TXB2 go on through
      RXB0 and replace its control byte and its whole frame, full or not. */
  lemma LoadSpillsOver(ch: Chip, data: seq<bv8>)
    requires |data| == 29
    ensures var bytes := [LoadCmd(2, false)] + data;
      && Sendable(ch, bytes)
      && var r := Transaction(ch, bytes).core.regs;
      && r[RXB0CTRL..RXB0CTRL + 14] == data[15..29]
      && (Full(r, 0) <==> Full(ch.core.regs, 0))
  {
    hide Transaction, LoadCmd, Step, Opened;
    var cmd := LoadCmd(2, false);
    LoadStarts(ch, 2, false);
    FeedLoad(Opened(ch, cmd), data);
    CommandFirst(ch, cmd, data);
    var r := Splice(ch.core.regs, TxCtrl(2) + 1, data);
    assert forall a :: RXB0CTRL <= a < RXB0CTRL + 14 ==> r[a] == data[a - 0x51];
  }
}
