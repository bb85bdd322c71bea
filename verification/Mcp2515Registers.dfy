/** The register map from outside: what every register write and every SPI command does to each
    register, told with the data sheet's numbers (DS21801G) instead of the functions that
    compute it. */
module Mcp2515Registers {
  import opened Mcp2515Regs
  import opened Mcp2515Core
  import opened Mcp2515Spi
  import opened Mcp2515Routing
  import opened Mcp2515Transactions
  import opened Mcp2515Invariant
  import opened Mcp2515Requests
  import opened Mcp2515Commands

  // ----- register writes -----

  /** CANSTAT, TEC and REC. */
  predicate ReadOnly(a: nat) { a == 0x0E || a == 0x1C || a == 0x1D }

  /** TXB0CTRL, TXB1CTRL or TXB2CTRL gets bit 3 set that was clear, in Normal or Loopback mode
      and outside bus-off. */
  predicate Fires(c: Core, a: nat, v: bv8)
    requires a < REGS_SIZE
  {
    && (a == 0x30 || a == 0x40 || a == 0x50) && v & 0x08 != 0 && c.regs[a] & 0x08 == 0
    && c.regs[0x2D] & 0x20 == 0 && (c.mode == 0 || c.mode == 2)
  }

  /** The INT line is the level of CANINTF and CANINTE, and its callback has seen the change. */
  predicate LineFollows(c: Core, d: Core) {
    && d.intLine == (d.regs[0x2C] & d.regs[0x2B] != 0)
    && d.ints == if d.intLine == c.intLine then c.ints else c.ints + [d.intLine]
  }

  predicate SameTraces(c: Core, d: Core) { d.txs == c.txs && d.got == c.got && d.sent == c.sent }

  lemma UpdateIntFollows(c: Core)
    ensures var d := UpdateInt(c); d.regs == c.regs && d.mode == c.mode && LineFollows(c, d) && SameTraces(c, d)
  {
  }

  /** Every write that is neither a mode request nor fires a transmission: three registers do not
      take it, any other register holds exactly the byte written, and no other register changes;
      CANINTE and CANINTF move the INT line. A request that does not fire stays pending. */
  lemma WriteExact(c: Core, a: nat, v: bv8)
    requires a < REGS_SIZE
    ensures ReadOnly(a) ==> RegWrite(c, a, v) == c
    ensures !ReadOnly(a) && a != 0x0F && !Fires(c, a, v) ==>
      var d := RegWrite(c, a, v);
      && d.regs == c.regs[a := v] && d.mode == c.mode && SameTraces(c, d)
      && (if a == 0x2B || a == 0x2C then LineFollows(c, d) else d.intLine == c.intLine && d.ints == c.ints)
  {
    hide DeliverLoopback, DeliverNormal;
    UpdateIntFollows(c.(regs := c.regs[a := v]));
    if IsTxCtrl(a) {
      ControlWrite(c, BufferOf(a), v);
    }
  }

  /** The flag that buffer n raises on completion. */
  function Completion(n: TxIndex): bv8 { if n == 0 then 0x04 else if n == 1 then 0x08 else 0x10 }

  lemma CompletedExact(c: Core, n: TxIndex)
    ensures var d := Completed(c, n);
      && d.regs[TxCtrl(n)] == c.regs[TxCtrl(n)] & 0xF7 && d.regs[0x2C] == c.regs[0x2C] | Completion(n)
      && d.regs[0x1C] == (if c.regs[0x1C] == 0 then 0 else c.regs[0x1C] - 1)
      && (forall a :: 0 <= a < REGS_SIZE && a != TxCtrl(n) && a != 0x2C && a != 0x1C && a != 0x2D ==> d.regs[a] == c.regs[a])
      && (c.regs[0x1C] == 0 ==> d.regs[0x2D] == c.regs[0x2D])
      && d.mode == c.mode && d.txs == c.txs && d.got == c.got && d.sent == c.sent + 1
  {
    hide ErrFlags;
  }

  lemma CompletedFlags(c: Core, n: TxIndex)
    ensures var d := Completed(c, n).regs;
      c.regs[0x1C] != 0 ==> Thresholds(d[0x2D], d[0x1C], d[0x1D]) && d[0x2D] & 0xC0 == c.regs[0x2D] & 0xC0
  {
    hide ErrFlags, Thresholds;
    var m := MarkComplete(c, n);
    UpdateMeets(m.(regs := m.regs[TEC := m.regs[TEC] - 1]));
  }

  /** A request that fires in Normal mode: TXREQ clear and the rest of the control register as
      written, the buffer's completion flag raised, TEC one lower unless it was 0, the frame on
      the bus, and no other register changed but the error flags that follow TEC. */
  lemma TransmissionExact(c: Core, n: TxIndex, v: bv8)
    ensures Fires(c, TxCtrl(n), v) && c.mode == 0 ==>
      var d := RegWrite(c, TxCtrl(n), v);
      && d.regs[TxCtrl(n)] == v & 0xF7 && d.regs[0x2C] == c.regs[0x2C] | Completion(n)
      && d.regs[0x1C] == (if c.regs[0x1C] == 0 then 0 else c.regs[0x1C] - 1)
      && (if c.regs[0x1C] == 0 then d.regs[0x2D] == c.regs[0x2D]
          else Thresholds(d.regs[0x2D], d.regs[0x1C], d.regs[0x1D]) && d.regs[0x2D] & 0xC0 == c.regs[0x2D] & 0xC0)
      && (forall a :: 0 <= a < REGS_SIZE && a != TxCtrl(n) && a != 0x2C && a != 0x1C && a != 0x2D ==> d.regs[a] == c.regs[a])
      && d.mode == c.mode && LineFollows(c, d)
      && d.txs == c.txs + [FrameAt(c.regs, TxCtrl(n))] && d.got == c.got && d.sent == c.sent + 1
  {
    hide Completed, UpdateInt, FrameAt, Thresholds, LineFollows;
    if Fires(c, TxCtrl(n), v) && c.mode == 0 {
      var e := c.(regs := c.regs[TxCtrl(n) := v]);
      FiresNormal(c, n, v);
      CompletedExact(e, n);
      CompletedFlags(e, n);
      UpdateIntFollows(Completed(e, n));
      SameExtract(c.regs, v, n);
      CompletedLine(e, n);
      var u := UpdateInt(Completed(e, n));
      LineMoves(c, Completed(e, n), u, u.txs + [FrameAt(c.regs, TxCtrl(n))]);
    }
  }

  lemma FiresNormal(c: Core, n: TxIndex, v: bv8)
    requires Fires(c, TxCtrl(n), v) && c.mode == 0
    ensures var e := c.(regs := c.regs[TxCtrl(n) := v]); var u := UpdateInt(Completed(e, n));
      RegWrite(c, TxCtrl(n), v) == u.(txs := u.txs + [Extract(e.regs, n)])
  {
    hide UpdateInt, MarkComplete, CountDown, Extract;
    ControlWrite(c, n, v);
  }

  lemma LineMoves(c: Core, b: Core, d: Core, txs: seq<Frame>)
    requires LineFollows(b, d) && b.intLine == c.intLine && b.ints == c.ints
    ensures LineFollows(c, d.(txs := txs))
  {
  }

  lemma CompletedLine(c: Core, n: TxIndex)
    ensures Completed(c, n).intLine == c.intLine && Completed(c, n).ints == c.ints
  {
  }

  // ----- error calls -----

  /** The two forced states and the recovery, register by register. */
  lemma ForcedExact(c: Core)
    ensures ForceBusOff(c).regs[0x1C] == 255 && ForceBusOff(c).regs[0x1D] == c.regs[0x1D]
    ensures ForceBusOff(c).regs[0x2C] == c.regs[0x2C] | 0xA0
    ensures ForceErrorPassive(c).regs[0x1C] == 128 && ForceErrorPassive(c).regs[0x1D] == c.regs[0x1D]
    ensures ForceErrorPassive(c).regs[0x2C] == c.regs[0x2C] | 0x20
    ensures var d := RecoverBusOff(c).regs; d[0x1C] == 0 && d[0x1D] == 0 && d[0x2C] == c.regs[0x2C]
  {
    hide RaiseError, SetCounter, Thresholds, ErrFlags;
    CounterSet(c, TEC, 255, true);
    CounterSet(c, TEC, 128, false);
    ForcedAre(c);
  }

  lemma ForcedAre(c: Core)
    ensures ForceBusOff(c) == RaiseError(SetCounter(c, TEC, 255), true)
    ensures ForceErrorPassive(c) == RaiseError(SetCounter(c, TEC, 128), false)
  {
    hide RaiseError, SetCounter;
  }

  lemma CallsAre(ch: Chip, n: nat)
    ensures Step(ch, GoBusOff).core == ForceBusOff(ch.core) && Step(ch, GoPassive).core == ForceErrorPassive(ch.core)
    ensures Step(ch, Recover).core == RecoverBusOff(ch.core)
    ensures Step(ch, TxErrors(n)).core == InjectTxErrors(ch.core, n)
    ensures Step(ch, RxErrors(n)).core == InjectRxErrors(ch.core, n)
  {
    hide ForceBusOff, ForceErrorPassive, RecoverBusOff, InjectTxErrors, InjectRxErrors;
  }

  /** The calls of the host, as events of a run: forced bus-off, forced error-passive and
      recovery, register by register. */
  lemma ForcedCalls(ch: Chip)
    ensures var c, d := ch.core.regs, Step(ch, GoBusOff).core.regs;
      d[0x1C] == 255 && d[0x1D] == c[0x1D] && d[0x2C] == c[0x2C] | 0xA0
    ensures var c, d := ch.core.regs, Step(ch, GoPassive).core.regs;
      d[0x1C] == 128 && d[0x1D] == c[0x1D] && d[0x2C] == c[0x2C] | 0x20
    ensures var c, d := ch.core.regs, Step(ch, Recover).core.regs;
      d[0x1C] == 0 && d[0x1D] == 0 && d[0x2C] == c[0x2C]
  {
    hide ForceBusOff, ForceErrorPassive, RecoverBusOff, Step;
    CallsAre(ch, 0);
    ForcedExact(ch.core);
  }

  /** n > 0 transmit errors, and n > 0 receive errors. */
  lemma ErrorCalls(ch: Chip, n: nat)
    requires n > 0
    ensures var c, d := ch.core.regs, Step(ch, TxErrors(n)).core.regs;
      d[0x1C] as int == AtMost255(c[0x1C] as int + 8 * n) && d[0x1D] == c[0x1D] && d[0x2C] == c[0x2C] | 0xA0
    ensures var c, d := ch.core.regs, Step(ch, RxErrors(n)).core.regs;
      d[0x1D] as int == AtMost255(c[0x1D] as int + n) && d[0x1C] == c[0x1C] && d[0x2C] == c[0x2C] | 0x20
  {
    hide InjectTxErrors, InjectRxErrors, Thresholds, Step, AtMost255;
    CallsAre(ch, n);
    TxErrorsExact(ch.core, n);
    RxErrorsExact(ch.core, n);
  }

  // ----- bytes that do nothing -----

  predicate Over(s: Spi) { !s.csLow || (s.pos > 0 && s.txn == Done) }

  /** Bytes outside a transaction, or after its end, change nothing and are answered with 0. */
  lemma OverStep(ch: Chip, b: bv8)
    requires Over(ch.spi)
    ensures Allowed(ch, Byte(b)) && Output(ch.spi, ch.core.regs, b) == 0
    ensures var d := Step(ch, Byte(b)); d.core == ch.core && Over(d.spi) && (!ch.spi.csLow ==> d == ch)
  {
  }

  function Zeros(n: nat): (z: seq<bv8>)
    ensures |z| == n && forall i :: 0 <= i < n ==> z[i] == 0
  {
    seq(n, i => 0)
  }

  lemma {:induction false} FeedOver(ch: Chip, bytes: seq<bv8>)
    requires Over(ch.spi)
    ensures Feedable(ch, bytes) && Feed(ch, bytes).core == ch.core && Replies(ch, bytes) == Zeros(|bytes|)
    decreases |bytes|
  {
    hide Step, Output, Allowed, Over;
    if bytes != [] {
      OverStep(ch, bytes[0]);
      FeedOver(Step(ch, Byte(bytes[0])), bytes[1..]);
    }
  }

  /** Without chip select, bytes do not even move the transaction. */
  lemma {:induction false} Deselected(ch: Chip, bytes: seq<bv8>)
    requires !ch.spi.csLow
    ensures Feedable(ch, bytes) && Feed(ch, bytes) == ch && Replies(ch, bytes) == Zeros(|bytes|)
    decreases |bytes|
  {
    hide Step, Output, Allowed;
    if bytes != [] {
      OverStep(ch, bytes[0]);
      Deselected(ch, bytes[1..]);
    }
  }

  // ----- RESET -----

  /** RESET, whatever bytes follow it: CANCTRL 0x87, CANSTAT 0x80, every other register 0,
      Configuration mode, INT released. */
  lemma ResetTransaction(ch: Chip, rest: seq<bv8>)
    ensures var bytes := [0xC0] + rest;
      && Sendable(ch, bytes)
      && var d := Transaction(ch, bytes).core;
      && d.regs[0x0F] == 0x87 && d.regs[0x0E] == 0x80
      && (forall a :: 0 <= a < REGS_SIZE && a != 0x0E && a != 0x0F ==> d.regs[a] == 0)
      && d.mode == 4 && !d.intLine && SameTraces(ch.core, d)
      && d.ints == if ch.core.intLine then ch.core.ints + [false] else ch.core.ints
  {
    hide Step, Opened, Feed;
    ResetOpened(ch);
    FeedOver(Opened(ch, 0xC0), rest);
    CommandFirst(ch, 0xC0, rest);
  }

  lemma ResetOpened(ch: Chip)
    ensures var d := Opened(ch, 0xC0);
      && Over(d.spi)
      && d.core.regs[0x0F] == 0x87 && d.core.regs[0x0E] == 0x80
      && (forall a :: 0 <= a < REGS_SIZE && a != 0x0E && a != 0x0F ==> d.core.regs[a] == 0)
      && d.core.mode == 4 && !d.core.intLine && SameTraces(ch.core, d.core)
      && d.core.ints == if ch.core.intLine then ch.core.ints + [false] else ch.core.ints
  {
  }

  // ----- BIT MODIFY -----

  lemma MergedBits(cur: bv8, mask: bv8, v: bv8)
    ensures Merge(cur, mask, v) & mask == v & mask && Merge(cur, mask, v) & !mask == cur & !mask
  {
  }

  lemma ModifyPhases(ch: Chip, a: bv8, mask: bv8)
    ensures var d := Opened(ch, 0x05);
      && Allowed(d, Byte(a)) && d.core == ch.core
      && var e := Step(d, Byte(a));
      && Allowed(e, Byte(mask)) && e.core == ch.core
      && var f := Step(e, Byte(mask));
      && f.core == ch.core && f.spi.csLow && f.spi.pos == 3 && f.spi.txn == NeedData
      && f.spi.cmd == SPI_BIT_MODIFY && f.spi.addr == a && f.spi.mask == mask
  {
    var d := Opened(ch, 0x05);
    assert d.core == ch.core && d.spi.csLow && d.spi.pos == 1 && d.spi.cmd == 0x05 && d.spi.txn == NeedAddr;
    var e := Step(d, Byte(a));
    assert e.core == ch.core && e.spi.csLow && e.spi.pos == 2 && e.spi.cmd == 0x05 && e.spi.txn == NeedMask && e.spi.addr == a;
  }

  lemma ModifyLast(f: Chip, v: bv8)
    requires f.spi.csLow && f.spi.pos == 3 && f.spi.txn == NeedData && f.spi.cmd == SPI_BIT_MODIFY
    ensures Allowed(f, Byte(v))
    ensures var g := Step(f, Byte(v)); var a := f.spi.addr as int;
      Over(g.spi) && g.core == if a < REGS_SIZE then RegWrite(f.core, a, Merge(f.core.regs[a], f.spi.mask, v)) else f.core
  {
    hide RegWrite, Merge;
  }

  /** BIT MODIFY, whatever bytes follow it: the register gets the data's bits where the mask is
      set and keeps its own elsewhere, by an ordinary write; above 0x7F nothing happens. */
  lemma ModifyTransaction(ch: Chip, a: bv8, mask: bv8, v: bv8, rest: seq<bv8>) returns (w: bv8)
    ensures Sendable(ch, [0x05, a, mask, v] + rest)
    ensures var d := Transaction(ch, [0x05, a, mask, v] + rest).core;
      if a as int >= 0x80 then d == ch.core
      else d == RegWrite(ch.core, a as int, w) && w & mask == v & mask && w & !mask == ch.core.regs[a as int] & !mask
  {
    hide Step, Opened, Feed, RegWrite, Merge, Allowed;
    ModifyPhases(ch, a, mask);
    var d := Opened(ch, 0x05);
    var e := Step(d, Byte(a));
    var f := Step(e, Byte(mask));
    ModifyLast(f, v);
    var g := Step(f, Byte(v));
    FeedOver(g, rest);
    FeedFirst(f, v, rest);
    FeedFirst(e, mask, [v] + rest);
    FeedFirst(d, a, [mask] + ([v] + rest));
    CommandFirst(ch, 0x05, [a] + ([mask] + ([v] + rest)));
    assert [0x05, a, mask, v] + rest == [0x05] + ([a] + ([mask] + ([v] + rest)));
    w := if a as int < REGS_SIZE then Merge(ch.core.regs[a as int], mask, v) else 0;
    if a as int < REGS_SIZE {
      MergedBits(ch.core.regs[a as int], mask, v);
    }
  }

  lemma ClearedBits(w: bv8, cur: bv8, mask: bv8)
    requires w & mask == 0 & mask && w & !mask == cur & !mask
    ensures w == cur & !mask
  {
  }

  /** The way firmware acknowledges interrupts: BIT MODIFY of CANINTF with data 0 clears exactly
      the flags in the mask, changes no other register, and the INT line follows. */
  lemma FlagsAcknowledged(ch: Chip, mask: bv8)
    ensures var bytes := [0x05, 0x2C, mask, 0x00];
      && Sendable(ch, bytes)
      && var d := Transaction(ch, bytes).core;
      && d.regs == ch.core.regs[0x2C := ch.core.regs[0x2C] & !mask]
      && d.mode == ch.core.mode && LineFollows(ch.core, d) && SameTraces(ch.core, d)
  {
    hide Transaction, Sendable, RegWrite, LineFollows;
    var w := ModifyTransaction(ch, 0x2C, mask, 0, []);
    assert [0x05, 0x2C, mask, 0] + [] == [0x05, 0x2C, mask, 0];
    ClearedBits(w, ch.core.regs[0x2C], mask);
    WriteExact(ch.core, 0x2C, w);
  }

  // ----- RTS -----

  /** RTS, any of its eight forms and whatever bytes follow: the requests of its three low bits. */
  lemma RtsTransaction(ch: Chip, b: bv8, rest: seq<bv8>)
    requires b & 0xF8 == 0x80
    ensures Sendable(ch, [b] + rest)
    ensures var d := Transaction(ch, [b] + rest).core;
      d == RequestToSend(ch.core, b) && d.txs == ch.core.txs + Frames(RtsSends(ch.core, b))
  {
    hide Step, Opened, Feed, RequestToSend, RtsSends;
    RtsOpened(ch, b);
    FeedOver(Opened(ch, b), rest);
    CommandFirst(ch, b, rest);
    RtsAscending(ch.core, b);
  }

  lemma RtsOpened(ch: Chip, b: bv8)
    requires b & 0xF8 == 0x80
    ensures var d := Opened(ch, b); Over(d.spi) && d.core == RequestToSend(ch.core, b)
  {
    hide RequestToSend, LoadIndex;
    RtsCode(b);
  }

  lemma RtsCode(b: bv8)
    requires b & 0xF8 == 0x80
    ensures b != SPI_RESET && b != SPI_READ && b != SPI_WRITE && b != SPI_BIT_MODIFY && b != SPI_READ_STATUS && b != SPI_RX_STATUS
    ensures !IsReadRx(b) && !IsLoadTx(b) && IsRts(b) && Opcode(b) == Done
  {
  }

  // ----- status commands and unknown commands -----

  /** Every byte of `out` is the reply of READ STATUS, or of RX STATUS. */
  ghost predicate AllReply(t: Txn, r: Regs, out: seq<bv8>) {
    forall i :: 0 <= i < |out| ==> if t == Status then StatusReply(r, out[i]) else RxReply(r, out[i])
  }

  lemma {:induction false} FeedStatus(ch: Chip, dummies: seq<bv8>)
    requires ch.spi.csLow && ch.spi.pos > 0 && (ch.spi.txn == Status || ch.spi.txn == RxStat)
    ensures Feedable(ch, dummies) && Feed(ch, dummies).core == ch.core
    ensures AllReply(ch.spi.txn, ch.core.regs, Replies(ch, dummies))
    decreases |dummies|
  {
    hide Step, Output, Allowed, StatusReply, RxReply;
    if dummies != [] {
      StatusStep(ch, dummies[0]);
      FeedStatus(Step(ch, Byte(dummies[0])), dummies[1..]);
      ReplyFirst(ch.spi.txn, ch.core.regs, Replies(ch, dummies));
    }
  }

  lemma ReplyFirst(t: Txn, r: Regs, out: seq<bv8>)
    requires out != [] && AllReply(t, r, out[1..])
    requires if t == Status then StatusReply(r, out[0]) else RxReply(r, out[0])
    ensures AllReply(t, r, out)
  {
    hide StatusReply, RxReply;
    assert forall i :: 0 < i < |out| ==> out[i] == out[1..][i - 1];
  }

  lemma StatusStep(ch: Chip, b: bv8)
    requires ch.spi.csLow && ch.spi.pos > 0 && (ch.spi.txn == Status || ch.spi.txn == RxStat)
    ensures Allowed(ch, Byte(b))
    ensures var d := Step(ch, Byte(b)); d.core == ch.core && d.spi == ch.spi.(pos := ch.spi.pos + 1)
    ensures var o := Output(ch.spi, ch.core.regs, b);
      if ch.spi.txn == Status then StatusReply(ch.core.regs, o) else RxReply(ch.core.regs, o)
  {
    hide StatusReply, RxReply, ReadStatus, RxStatus;
    RepliesMean(ch.spi, ch.core.regs, b);
  }

  lemma StatusOpened(ch: Chip, cmd: bv8)
    requires cmd == 0xA0 || cmd == 0xB0
    ensures var d := Opened(ch, cmd);
      d.core == ch.core && d.spi.csLow && d.spi.pos > 0 && d.spi.txn == if cmd == 0xA0 then Status else RxStat
  {
  }

  /** READ STATUS and RX STATUS: every byte clocked out is the reply, and nothing changes. */
  lemma StatusTransaction(ch: Chip, dummies: seq<bv8>)
    ensures Sendable(ch, [0xA0] + dummies) && Transaction(ch, [0xA0] + dummies).core == ch.core
    ensures Sendable(ch, [0xB0] + dummies) && Transaction(ch, [0xB0] + dummies).core == ch.core
    ensures AllReply(Status, ch.core.regs, Answer(ch, [0xA0] + dummies)[1..])
    ensures AllReply(RxStat, ch.core.regs, Answer(ch, [0xB0] + dummies)[1..])
  {
    hide Step, Opened, AllReply;
    StatusOpened(ch, 0xA0);
    StatusOpened(ch, 0xB0);
    FeedStatus(Opened(ch, 0xA0), dummies);
    FeedStatus(Opened(ch, 0xB0), dummies);
    CommandFirst(ch, 0xA0, dummies);
    CommandFirst(ch, 0xB0, dummies);
  }

  /** The command bytes of table 12-1. */
  predicate Known(b: bv8) {
    || b == 0xC0 || b == 0x03 || b == 0x02 || b == 0x05 || b == 0xA0 || b == 0xB0
    || 0x80 <= b <= 0x87 || 0x40 <= b <= 0x45 || b == 0x90 || b == 0x92 || b == 0x94 || b == 0x96
  }

  lemma UnknownCode(b: bv8)
    requires !Known(b)
    ensures b != SPI_RESET && !IsRts(b) && b != SPI_READ_STATUS && b != SPI_RX_STATUS && Opcode(b) == Done
  {
  }

  lemma UnknownOpened(ch: Chip, b: bv8)
    requires !Known(b)
    ensures var d := Opened(ch, b); d.core == ch.core && Over(d.spi)
  {
    hide Known, Opcode, IsRts, LoadIndex;
    UnknownCode(b);
  }

  /** Any other command byte, and all bytes after it, change nothing and are answered with 0. */
  lemma UnknownIgnored(ch: Chip, b: bv8, rest: seq<bv8>)
    requires !Known(b)
    ensures Sendable(ch, [b] + rest)
    ensures Transaction(ch, [b] + rest).core == ch.core
    ensures Answer(ch, [b] + rest)[1..] == Zeros(|rest|)
  {
    hide Step, Opened, Feed, Known;
    UnknownOpened(ch, b);
    FeedOver(Opened(ch, b), rest);
    CommandFirst(ch, b, rest);
  }

  // ----- buffer commands of any length -----

  /** The bytes that still fall in the register file. */
  function InFile(a: nat, data: seq<bv8>): (d: seq<bv8>)
    ensures a + |d| <= REGS_SIZE || d == []
    ensures d <= data
  {
    if a >= REGS_SIZE then [] else if a + |data| <= REGS_SIZE then data else data[..REGS_SIZE - a]
  }

  lemma LoadPast(ch: Chip, b: bv8)
    requires Loading(ch.spi) && LoadAddr(ch.spi) >= REGS_SIZE
    ensures Allowed(ch, Byte(b))
    ensures var d := Step(ch, Byte(b)); d.core == ch.core && Loading(d.spi) && LoadAddr(d.spi) == LoadAddr(ch.spi) + 1
  {
  }

  lemma {:induction false} FeedLoadAny(ch: Chip, data: seq<bv8>)
    requires Loading(ch.spi)
    ensures Feedable(ch, data)
    ensures LoadAddr(ch.spi) >= REGS_SIZE ==> Feed(ch, data).core == ch.core
    ensures LoadAddr(ch.spi) < REGS_SIZE ==>
      Feed(ch, data).core == ch.core.(regs := Splice(ch.core.regs, LoadAddr(ch.spi), InFile(LoadAddr(ch.spi), data)))
    decreases |data|
  {
    hide Step, Allowed, Loading, LoadAddr, Splice;
    var a := LoadAddr(ch.spi);
    if data == [] {
      SpliceNothing(ch.core.regs, a);
    } else if a >= REGS_SIZE {
      LoadPast(ch, data[0]);
      FeedLoadAny(Step(ch, Byte(data[0])), data[1..]);
    } else {
      LoadStep(ch, data[0]);
      FeedLoadAny(Step(ch, Byte(data[0])), data[1..]);
      var fit := InFile(a, data);
      assert fit[0] == data[0];
      if a + 1 < REGS_SIZE {
        assert fit[1..] == InFile(a + 1, data[1..]);
        SpliceNext(ch.core.regs, a, fit);
      } else {
        assert fit == [data[0]];
        SpliceOne(ch.core.regs, a, data[0]);
      }
    }
  }

  lemma SpliceNothing(r: Regs, a: nat)
    ensures a < REGS_SIZE ==> Splice(r, a, []) == r
  {
  }

  lemma SpliceOne(r: Regs, a: nat, b: bv8)
    requires a < REGS_SIZE
    ensures Splice(r, a, [b]) == r[a := b]
  {
  }

  /** LOAD TX BUFFER of any length: the bytes go to consecutive registers from SIDH or D0 on, on
      through the rest of the file, and those beyond 0x7F are lost. */
  lemma LoadTxAny(ch: Chip, n: TxIndex, dataOnly: bool, data: seq<bv8>)
    ensures var a := LoadStart(n, dataOnly); var bytes := [LoadCmd(n, dataOnly)] + data;
      && Sendable(ch, bytes)
      && Transaction(ch, bytes).core == ch.core.(regs := Splice(ch.core.regs, a, InFile(a, data)))
  {
    hide Step, Opened, LoadCmd, InFile, Splice;
    LoadStarts(ch, n, dataOnly);
    FeedLoadAny(Opened(ch, LoadCmd(n, dataOnly)), data);
    CommandFirst(ch, LoadCmd(n, dataOnly), data);
  }

  /** `out` are the registers from a on, 0 beyond the file. */
  predicate ReadsFrom(r: Regs, a: nat, out: seq<bv8>) {
    forall i :: 0 <= i < |out| ==> out[i] == RegAt(r, a + i)
  }

  /** CANINTF with the value v, and the INT line brought up to date. */
  function Flagged(c: Core, v: bv8): Core { UpdateInt(c.(regs := c.regs[CANINTF := v])) }

  lemma FlaggedExact(c: Core, v: bv8)
    ensures var d := Flagged(c, v);
      && d.regs == c.regs[0x2C := v] && LineFollows(c, d) && d.mode == c.mode && SameTraces(c, d)
  {
    UpdateIntFollows(c.(regs := c.regs[0x2C := v]));
  }

  lemma FlaggedTwice(c: Core, v: bv8)
    ensures Flagged(Flagged(c, v), v) == Flagged(c, v)
  {
    hide IntLevel;
    var d := c.(regs := c.regs[CANINTF := v]);
    assert d.regs[CANINTF := v] == d.regs;
  }

  lemma ClearIs(c: Core, n: RxIndex)
    ensures ClearRxFlag(c, n) == Flagged(c, c.regs[0x2C] & !RxFlag(n))
  {
    hide RxFlag, UpdateInt;
  }

  lemma ClearRegsOnly(c: Core, n: RxIndex)
    ensures var d := ClearRxFlag(c, n);
      && d.regs == c.regs[0x2C := c.regs[0x2C] & !RxFlag(n)] && LineFollows(c, d) && d.mode == c.mode && SameTraces(c, d)
  {
    hide RxFlag, Flagged, LineFollows, ClearRxFlag;
    ClearIs(c, n);
    FlaggedExact(c, c.regs[0x2C] & !RxFlag(n));
  }

  /** Clearing a flag twice is clearing it once. */
  lemma ClearAgain(c: Core, n: RxIndex)
    ensures ClearRxFlag(ClearRxFlag(c, n), n) == ClearRxFlag(c, n)
  {
    hide RxFlag, Flagged, LineFollows, ClearRxFlag;
    var v := c.regs[0x2C] & !RxFlag(n);
    ClearIs(c, n);
    FlaggedExact(c, v);
    ClearIs(Flagged(c, v), n);
    ClearTwice(c.regs[0x2C], n);
    FlaggedTwice(c, v);
  }

  lemma ClearTwice(i: bv8, n: RxIndex)
    ensures (i & !RxFlag(n)) & !RxFlag(n) == i & !RxFlag(n)
  {
  }

  lemma {:induction false} FeedReadRxAny(ch: Chip, dummies: seq<bv8>)
    requires ch.spi.csLow && ch.spi.pos > 0 && ch.spi.txn == ReadRx
    ensures Feedable(ch, dummies) && ReadsFrom(ch.core.regs, ReadRxAddr(ch.spi), Replies(ch, dummies))
    ensures Feed(ch, dummies).core ==
      if |dummies| > 0 && ch.spi.rxOff + |dummies| >= ReadRxTotal(ch.spi) then ClearRxFlag(ch.core, ch.spi.rxBuf)
      else ch.core
    decreases |dummies|
  {
    hide ClearRxFlag, Step, Output, Allowed;
    if dummies != [] {
      ReadRxStep(ch, dummies[0]);
      var d := Step(ch, Byte(dummies[0]));
      FeedReadRxAny(d, dummies[1..]);
      ClearRegsOnly(ch.core, ch.spi.rxBuf);
      ClearAgain(ch.core, ch.spi.rxBuf);
      hide ReadRxTotal, LineFollows;
      ReadsNext(ch.core.regs, d.core.regs, ReadRxAddr(ch.spi), Replies(ch, dummies), Replies(d, dummies[1..]));
    }
  }

  lemma ReadsNext(r: Regs, q: Regs, a: nat, out: seq<bv8>, rest: seq<bv8>)
    requires a > 0x2C && (forall i :: 0x2C < i < REGS_SIZE ==> q[i] == r[i])
    requires out == [RegAt(r, a)] + rest && ReadsFrom(q, a + 1, rest)
    ensures ReadsFrom(r, a, out)
  {
    forall i | 0 <= i < |out| ensures out[i] == RegAt(r, a + i) {
      if i > 0 {
        assert out[i] == rest[i - 1] == RegAt(q, a + 1 + (i - 1));
      }
    }
  }

  /** READ RX BUFFER of any length: the registers from SIDH or D0 on, on through the rest of the
      file and 0 beyond it; the receive flag goes, and only that, once 13 or 8 bytes were read. */
  lemma ReadRxAny(ch: Chip, n: RxIndex, dataOnly: bool, dummies: seq<bv8>)
    ensures var bytes := [ReadRxCmd(n, dataOnly)] + dummies; var d := ch.core;
      && Sendable(ch, bytes)
      && ReadsFrom(d.regs, RxCtrl(n) + (if dataOnly then 6 else 1), Answer(ch, bytes)[1..])
      && var e := Transaction(ch, bytes).core;
      if |dummies| < (if dataOnly then 8 else 13) then e == d
      else e.regs == d.regs[0x2C := d.regs[0x2C] & (if n == 0 then 0xFE else 0xFD)] && LineFollows(d, e)
           && e.mode == d.mode && SameTraces(d, e)
  {
    hide Step, ClearRxFlag, Opened, ReadRxCmd, LineFollows;
    var cmd := ReadRxCmd(n, dataOnly);
    ReadRxStarts(ch, n, dataOnly);
    FeedReadRxAny(Opened(ch, cmd), dummies);
    CommandFirst(ch, cmd, dummies);
    ClearRegsOnly(ch.core, n);
  }

  // ----- unfinished transactions -----

  /** BIT MODIFY does nothing until it has address, mask and data. */
  lemma Unfinished(ch: Chip, a: bv8, mask: bv8)
    ensures Sendable(ch, [0x05, a, mask]) && Transaction(ch, [0x05, a, mask]).core == ch.core
    ensures Sendable(ch, [0x05, a]) && Transaction(ch, [0x05, a]).core == ch.core
  {
    hide Step, Opened, Allowed;
    ModifyPhases(ch, a, mask);
    var d := Opened(ch, 0x05);
    FeedFirst(Step(d, Byte(a)), mask, []);
    FeedFirst(d, a, [mask]);
    FeedFirst(d, a, []);
    CommandFirst(ch, 0x05, [a, mask]);
    CommandFirst(ch, 0x05, [a]);
    assert [a] + [mask] == [a, mask] && [0x05] + [a, mask] == [0x05, a, mask] && [0x05] + [a] == [0x05, a];
    assert [mask] + [] == [mask] && [a] + [] == [a];
  }
}
