/** The MCP2515 controller as the program keeps it: one object whose register file and
    transaction fields are updated in place. Every method is tied to the functions of
    Mcp2515Core and Mcp2515Spi. */
module Mcp2515Device {
  import opened Mcp2515Regs
  import opened Mcp2515Core
  import opened Mcp2515Commands
  import opened Mcp2515Spi
  import opened Mcp2515Routing
  import opened Mcp2515Transactions

  class Controller {
    const regs: array<bv8>
    var mode: bv8
    var csLow: bool
    var txnPos: nat
    var txnCmd: bv8
    var txnAddr: bv8
    var txnMask: bv8
    var txnState: Txn
    var loadTxBuf: TxIndex
    var loadTxOff: nat
    var readRxBuf: RxIndex
    var readRxOff: nat
    var readRxDataOnly: bool
    var intAsserted: bool
    ghost var ints: seq<bool>
    ghost var txs: seq<Frame>
    ghost var got: seq<(nat, Frame)>
    ghost var sent: nat

    ghost predicate Valid() { regs.Length == REGS_SIZE }

    ghost function CoreOf(): Core
      requires Valid()
      reads this, regs
    {
      Core(regs[..], mode, intAsserted, ints, txs, got, sent)
    }

    ghost function SpiOf(): Spi
      reads this
    {
      Spi(csLow, txnPos, txnCmd, txnAddr, txnMask, txnState, loadTxBuf, loadTxOff, readRxBuf, readRxOff, readRxDataOnly)
    }

    ghost function State(): Chip
      requires Valid()
      reads this, regs
    {
      Chip(CoreOf(), SpiOf())
    }

    constructor ()
      ensures Valid() && fresh(regs) && State() == Fresh()
    {
      regs := new bv8[REGS_SIZE](i => 0);
      mode, csLow, txnPos, txnCmd, txnAddr, txnMask, txnState := 0, false, 0, 0, 0, 0, Idle;
      loadTxBuf, loadTxOff, readRxBuf, readRxOff, readRxDataOnly, intAsserted := 0, 0, 0, 0, false, false;
      ints, txs, got, sent := [], [], [], 0;
      new;
      Reset();
    }

    method WipeRegs()
      requires Valid()
      modifies regs
      ensures regs[..] == ResetRegs()
    {
      forall i | 0 <= i < regs.Length {
        regs[i] := 0;
      }
      regs[CANCTRL] := 0x87;
      regs[CANSTAT] := MODE_CONFIG << 5;
    }

    method ResetTransaction()
      requires Valid()
      modifies this`csLow, this`txnPos, this`txnState, this`loadTxBuf, this`loadTxOff, this`readRxBuf, this`readRxOff, this`readRxDataOnly
      ensures SpiOf() == ResetSpi(old(SpiOf()))
    {
      csLow, txnPos, txnState := false, 0, Idle;
      loadTxBuf, loadTxOff, readRxBuf, readRxOff, readRxDataOnly := 0, 0, 0, 0, false;
    }

    method Reset()
      requires Valid()
      modifies this, regs
      ensures CoreOf() == Mcp2515Core.Reset(old(CoreOf())) && SpiOf() == ResetSpi(old(SpiOf()))
    {
      hide ResetRegs;
      WipeRegs();
      mode := MODE_CONFIG;
      ResetTransaction();
      if intAsserted {
        ints := ints + [false];
      }
      intAsserted := false;
    }

    method SetReg(a: nat, v: bv8)
      requires Valid() && a < REGS_SIZE
      modifies regs
      ensures CoreOf() == old(CoreOf()).(regs := old(CoreOf()).regs[a := v])
    {
      regs[a] := v;
      assert regs[..] == old(regs[..])[a := v];
    }

    method SetMode(m: bv8)
      requires Valid()
      modifies this`mode, regs
      ensures CoreOf() == Mcp2515Core.SetMode(old(CoreOf()), m)
    {
      mode := m;
      SetReg(CANSTAT, WithMode(regs[CANSTAT], m));
      SetReg(CANCTRL, WithMode(regs[CANCTRL], m));
    }

    method UpdateIntPin()
      requires Valid()
      modifies this`intAsserted, this`ints
      ensures CoreOf() == UpdateInt(old(CoreOf()))
    {
      var should := regs[CANINTF] & regs[CANINTE] != 0;
      assert should == IntLevel(regs[..]);
      hide IntLevel;
      if should != intAsserted {
        intAsserted := should;
        ints := ints + [should];
      }
    }

    method UpdateErrorState()
      requires Valid()
      modifies regs
      ensures CoreOf() == UpdateError(old(CoreOf()))
      ensures Thresholds(regs[EFLG], regs[TEC], regs[REC])
    {
      UpdateMeets(CoreOf());
      var tec, rec := regs[TEC], regs[REC];
      var e := regs[EFLG] & (RX0OVR | RX1OVR);
      FlagsCollected(e, tec, rec);
      if tec >= 96 || rec >= 96 {
        e := e | 0x01;
      }
      if tec >= 96 {
        e := e | 0x04;
      }
      if rec >= 96 {
        e := e | 0x02;
      }
      if tec >= 128 {
        e := e | 0x10;
      }
      if rec >= 128 {
        e := e | 0x08;
      }
      if tec == 255 {
        e := e | TXBO;
      }
      hide ErrFlags;
      SetReg(EFLG, e);
    }

    method FindMatchingFilter(f: Frame) returns (hit: int, which: int)
      requires Valid()
      ensures hit == FirstHit(regs[..], f, 0) && -1 <= hit < 6
      ensures which == if hit < 0 then -1 else if hit < 2 then 0 else 1
    {
      hide UnpackId, Pack, MatchFilter;
      var mask0 := Pack(regs[RXM0SIDH], regs[RXM0SIDH + 1], regs[RXM0SIDH + 2], regs[RXM0SIDH + 3]);
      var mask1 := Pack(regs[RXM1SIDH], regs[RXM1SIDH + 1], regs[RXM1SIDH + 2], regs[RXM1SIDH + 3]);
      for fi := 0 to 2
        invariant FirstHit(regs[..], f, 0) == FirstHit(regs[..], f, fi)
      {
        var a := FilterAddr(fi);
        var filter := UnpackId(regs[a], regs[a + 1], regs[a + 2], regs[a + 3]);
        assert FilterHit(regs[..], f, fi) <==> MatchFilter(Ident(f.id, f.ext), filter, mask0);
        if MatchFilter(Ident(f.id, f.ext), filter, mask0) {
          return fi, 0;
        }
      }
      for fi := 2 to 6
        invariant FirstHit(regs[..], f, 0) == FirstHit(regs[..], f, fi)
      {
        var a := FilterAddr(fi);
        var filter := UnpackId(regs[a], regs[a + 1], regs[a + 2], regs[a + 3]);
        assert FilterHit(regs[..], f, fi) <==> MatchFilter(Ident(f.id, f.ext), filter, mask1);
        if MatchFilter(Ident(f.id, f.ext), filter, mask1) {
          return fi, 1;
        }
      }
      return -1, -1;
    }

    method StoreId(b: nat, f: Frame)
      requires Valid() && b + 14 <= REGS_SIZE
      modifies regs
      ensures regs[b + 1..b + 5] == IdBytes(f)
      ensures forall a :: 0 <= a < REGS_SIZE && !(b < a < b + 5) ==> regs[a] == old(regs[a])
    {
      if f.ext {
        regs[b + 1] := ((f.id >> 21) & 0xFF) as bv8;
        regs[b + 2] := ((((f.id >> 18) & 7) as bv8) << 5) | EXIDE | (((f.id >> 16) & 3) as bv8);
        regs[b + 3] := ((f.id >> 8) & 0xFF) as bv8;
        regs[b + 4] := (f.id & 0xFF) as bv8;
      } else {
        regs[b + 1] := ((f.id >> 3) & 0xFF) as bv8;
        regs[b + 2] := ((f.id & 7) as bv8) << 5;
        regs[b + 3] := 0;
        regs[b + 4] := 0;
      }
    }

    method StoreData(b: nat, f: Frame)
      requires Valid() && b + 14 <= REGS_SIZE
      modifies regs
      ensures regs[b + 6..b + 14] == DataBytes(f)
      ensures forall a :: 0 <= a < REGS_SIZE && !(b + 6 <= a < b + 14) ==> regs[a] == old(regs[a])
    {
      hide DataBytes;
      for i := 0 to 8
        invariant forall k :: 0 <= k < i ==> regs[b + 6 + k] == DataBytes(f)[k]
        invariant forall a :: 0 <= a < REGS_SIZE && !(b + 6 <= a < b + 14) ==> regs[a] == old(regs[a])
      {
        DataByteAt(f, i);
        regs[b + 6 + i] := if i < f.dlc as int then f.data[i] else 0;
      }
    }

    method StoreBytes(b: nat, f: Frame)
      requires Valid() && b + 14 <= REGS_SIZE
      modifies regs
      ensures regs[b + 1..b + 14] == FrameBytes(f)
      ensures forall a :: 0 <= a < REGS_SIZE && !(b < a < b + 14) ==> regs[a] == old(regs[a])
    {
      hide IdBytes, DataBytes;
      StoreId(b, f);
      regs[b + 5] := (f.dlc & 0x0F) | (if f.rtr then DLC_RTR else 0);
      StoreData(b, f);
      assert regs[b + 1..b + 14] == regs[b + 1..b + 5] + [regs[b + 5]] + regs[b + 6..b + 14];
      assert regs[b + 1..b + 5] == IdBytes(f);
    }

    /** Filter-hit bits replaced, RXRTR mirrored. */
    method ControlByte(prior: bv8, n: RxIndex, f: Frame, filter: bv8) returns (ctrl: bv8)
      ensures ctrl == RxCtrlByte(prior, n, f, filter)
    {
      ctrl := prior;
      if n == 0 {
        ctrl := ctrl & !(0x01 | RXRTR);
        ctrl := ctrl | (filter & 0x01);
      } else {
        ctrl := ctrl & !(0x07 | RXRTR);
        ctrl := ctrl | (filter & 0x07);
      }
      if f.rtr {
        ctrl := ctrl | RXRTR;
      }
    }

    method StoreFrame(n: RxIndex, f: Frame, filter: bv8)
      requires Valid()
      modifies regs
      ensures regs[..] == Splice(old(regs[..]), RxCtrl(n), [RxCtrlByte(old(regs[RxCtrl(n)]), n, f, filter)] + FrameBytes(f))
    {
      hide FrameBytes, RxCtrlByte;
      var b := RxCtrl(n);
      StoreBytes(b, f);
      var ctrl := ControlByte(regs[b], n, f, filter);
      regs[b] := ctrl;
      assert forall a :: b < a < b + 14 ==> regs[a] == regs[b + 1..b + 14][a - b - 1];
    }

    method DepositInRxb(n: RxIndex, f: Frame, filter: bv8)
      requires Valid()
      modifies this`intAsserted, this`ints, this`got, regs
      ensures CoreOf() == Deposit(old(CoreOf()), n, f, filter)
    {
      hide UpdateInt, FrameBytes, RxCtrlByte;
      StoreFrame(n, f, filter);
      SetReg(CANINTF, regs[CANINTF] | RxFlag(n));
      got := got + [(n, f)];
      UpdateIntPin();
    }

    /** Which buffer takes the frame, by the order in which the program asks. */
    method JudgeInbound(f: Frame) returns (v: Verdict)
      requires Valid()
      ensures v == Judge(regs[..], f)
    {
      hide FirstHit;
      var mode0 := (regs[RXB0CTRL] & 0x60) >> 5;
      var mode1 := (regs[RXB1CTRL] & 0x60) >> 5;
      assert mode0 == RxMode(regs[..], 0) && mode1 == RxMode(regs[..], 1);
      hide RxMode;
      var busy0 := Has(regs[CANINTF], RX0IF);
      var busy1 := Has(regs[CANINTF], RX1IF);
      var takes0, filter0 := false, -1;
      if !busy0 && TypeAdmitted(mode0, f.ext) {
        if mode0 == RXM_ANY {
          takes0, filter0 := true, 0;
        } else {
          var hit, which := FindMatchingFilter(f);
          if hit >= 0 && which == 0 {
            takes0, filter0 := true, hit;
          }
        }
      }
      if takes0 {
        return Store(0, FilterByte(filter0));
      }
      if !TypeAdmitted(mode1, f.ext) {
        return Drop(if busy0 then RX0OVR else 0);
      }
      if busy1 {
        return Drop(if busy0 then RX0OVR | RX1OVR else RX1OVR);
      }
      var takes1, filter1 := false, -1;
      if mode1 == RXM_ANY {
        takes1, filter1 := true, 2;
      } else {
        var hit, which := FindMatchingFilter(f);
        if hit >= 0 {
          if which == 1 {
            takes1, filter1 := true, hit - 2;
          } else if which == 0 && Has(regs[RXB0CTRL], BUKT) {
            takes1, filter1 := true, hit;
          }
        }
      }
      if takes1 {
        return Store(1, FilterByte(filter1));
      }
      return Drop(0);
    }

    method RouteInbound(f: Frame) returns (accepted: bool)
      requires Valid()
      modifies this`intAsserted, this`ints, this`got, regs
      ensures (CoreOf(), accepted) == Route(old(CoreOf()), f)
    {
      hide Deposit, Judge;
      var v := JudgeInbound(f);
      match v
      case Store(n, filter) =>
        DepositInRxb(n, f, filter);
        return true;
      case Drop(overflow) =>
        SetReg(EFLG, regs[EFLG] | overflow);
        return false;
    }

    /** Decrement an error counter that is not zero. */
    method DecrementCounter(counter: nat)
      requires Valid() && counter < REGS_SIZE
      modifies regs
      ensures CoreOf() == CountDown(old(CoreOf()), counter)
    {
      hide UpdateError;
      if regs[counter] > 0 {
        SetReg(counter, regs[counter] - 1);
        UpdateErrorState();
      }
    }

    method RxFrame(f: Frame) returns (accepted: bool)
      requires Valid()
      modifies this`intAsserted, this`ints, this`got, regs
      ensures (CoreOf(), accepted) == Mcp2515Core.RxFrame(old(CoreOf()), f)
    {
      hide Route, CountDown;
      if mode == MODE_SLEEP || mode == MODE_CONFIG {
        return false;
      }
      if Has(regs[EFLG], TXBO) {
        return false;
      }
      accepted := RouteInbound(f);
      if accepted {
        DecrementCounter(REC);
      }
    }

    method ExtractTxFrame(n: TxIndex) returns (f: Frame)
      requires Valid()
      ensures f == Extract(regs[..], n)
    {
      var b := TxCtrl(n);
      var i := UnpackId(regs[b + 1], regs[b + 2], regs[b + 3], regs[b + 4]);
      f := Frame(i.id, i.ext, Has(regs[b + 5], DLC_RTR), regs[b + 5] & 0x0F, regs[b + 6..b + 14]);
      hide UnpackId;
      assert regs[..][b + 6..b + 14] == regs[b + 6..b + 14];
    }

    method MarkTxComplete(n: TxIndex)
      requires Valid()
      modifies this`sent, regs
      ensures CoreOf() == MarkComplete(old(CoreOf()), n)
    {
      SetReg(TxCtrl(n), regs[TxCtrl(n)] & !TXREQ);
      SetReg(CANINTF, regs[CANINTF] | TxFlag(n));
      sent := sent + 1;
    }

    method DeliverLoopback(n: TxIndex)
      requires Valid()
      modifies this`intAsserted, this`ints, this`got, this`sent, regs
      ensures CoreOf() == Mcp2515Core.DeliverLoopback(old(CoreOf()), n)
    {
      hide UpdateInt, Route, CountDown, MarkComplete, Extract;
      var f := ExtractTxFrame(n);
      MarkTxComplete(n);
      DecrementCounter(TEC);
      var _ := RouteInbound(f);
      UpdateIntPin();
    }

    method DeliverNormal(n: TxIndex)
      requires Valid()
      modifies this`intAsserted, this`ints, this`txs, this`sent, regs
      ensures CoreOf() == Mcp2515Core.DeliverNormal(old(CoreOf()), n)
    {
      hide UpdateInt, CountDown, MarkComplete, Extract;
      var f := ExtractTxFrame(n);
      MarkTxComplete(n);
      DecrementCounter(TEC);
      UpdateIntPin();
      txs := txs + [f];
    }

    method WriteCanctrl(v: bv8)
      requires Valid()
      modifies this`mode, regs
      ensures CoreOf() == Mcp2515Core.WriteCanctrl(old(CoreOf()), v)
    {
      hide UpdateError, Mcp2515Core.SetMode;
      var req := ModeOf(v);
      var wasBusOff := Has(regs[EFLG], TXBO);
      SetReg(CANCTRL, v);
      if req <= MODE_CONFIG {
        SetMode(req);
      }
      if wasBusOff {
        SetReg(TEC, 0);
        SetReg(REC, 0);
        UpdateErrorState();
      }
    }

    method WriteTxCtrl(n: TxIndex, v: bv8)
      requires Valid()
      modifies this`intAsserted, this`ints, this`txs, this`got, this`sent, regs
      ensures CoreOf() == Mcp2515Core.WriteTxCtrl(old(CoreOf()), n, v)
    {
      hide Mcp2515Core.DeliverLoopback, Mcp2515Core.DeliverNormal;
      var a := TxCtrl(n);
      var wasReq := Has(regs[a], TXREQ);
      var newReq := Has(v, TXREQ);
      SetReg(a, v);
      if !wasReq && newReq {
        if Has(regs[EFLG], TXBO) {
          // Bus-off: the request stays pending.
        } else if mode == MODE_LOOPBACK {
          DeliverLoopback(n);
        } else if mode == MODE_NORMAL {
          DeliverNormal(n);
        }
      }
    }

    method ApplyRegWrite(a: nat, v: bv8)
      requires Valid() && a < REGS_SIZE
      modifies this`mode, this`intAsserted, this`ints, this`txs, this`got, this`sent, regs
      ensures CoreOf() == RegWrite(old(CoreOf()), a, v)
    {
      hide UpdateInt, Mcp2515Core.WriteCanctrl, Mcp2515Core.WriteTxCtrl;
      if a == CANCTRL {
        WriteCanctrl(v);
      } else if a == CANSTAT {
      } else if a == CANINTF || a == CANINTE {
        SetReg(a, v);
        UpdateIntPin();
      } else if a == TEC || a == REC {
      } else if IsTxCtrl(a) {
        WriteTxCtrl((a - TXB0CTRL) / 0x10, v);
      } else {
        SetReg(a, v);
      }
    }

    method ModifyBits(a: bv8, mask: bv8, v: bv8)
      requires Valid()
      modifies this`mode, this`intAsserted, this`ints, this`txs, this`got, this`sent, regs
      ensures CoreOf() == BitModify(old(CoreOf()), a as int, mask, v)
    {
      hide RegWrite, Merge;
      if a as int < REGS_SIZE {
        var cur := regs[a as int];
        ApplyRegWrite(a as int, Merge(cur, mask, v));
      }
    }

    // ----- error events -----

    method RaiseErrorFlags(merr: bool)
      requires Valid()
      modifies this`intAsserted, this`ints, regs
      ensures CoreOf() == RaiseError(old(CoreOf()), merr)
    {
      hide UpdateInt;
      SetReg(CANINTF, regs[CANINTF] | ERRIF | (if merr then MERRF else 0));
      UpdateIntPin();
    }

    method InjectTxErrors(count: int)
      requires Valid()
      modifies this`intAsserted, this`ints, regs
      ensures CoreOf() == Mcp2515Core.InjectTxErrors(old(CoreOf()), count)
      ensures count > 0 ==>
        && regs[TEC] as int == AtMost255(old(regs[TEC]) as int + 8 * count) && regs[REC] == old(regs[REC])
        && regs[CANINTF] == old(regs[CANINTF]) | 0xA0 && Thresholds(regs[EFLG], regs[TEC], regs[REC])
    {
      hide UpdateError, RaiseError, SaturatingAdd, Thresholds;
      if count <= 0 {
        return;
      }
      TxErrorsExact(CoreOf(), count);
      SetReg(TEC, SaturatingAdd(regs[TEC], 8 * count));
      UpdateErrorState();
      RaiseErrorFlags(true);
    }

    method InjectRxErrors(count: int)
      requires Valid()
      modifies this`intAsserted, this`ints, regs
      ensures CoreOf() == Mcp2515Core.InjectRxErrors(old(CoreOf()), count)
      ensures count > 0 ==>
        && regs[REC] as int == AtMost255(old(regs[REC]) as int + count) && regs[TEC] == old(regs[TEC])
        && regs[CANINTF] == old(regs[CANINTF]) | 0x20 && Thresholds(regs[EFLG], regs[TEC], regs[REC])
    {
      hide UpdateError, RaiseError, SaturatingAdd, Thresholds;
      if count <= 0 {
        return;
      }
      RxErrorsExact(CoreOf(), count);
      SetReg(REC, SaturatingAdd(regs[REC], count));
      UpdateErrorState();
      RaiseErrorFlags(false);
    }

    method ForceBusOff()
      requires Valid()
      modifies this`intAsserted, this`ints, regs
      ensures CoreOf() == Mcp2515Core.ForceBusOff(old(CoreOf()))
    {
      hide UpdateError, RaiseError;
      SetReg(TEC, 255);
      UpdateErrorState();
      RaiseErrorFlags(true);
    }

    method ForceErrorPassive()
      requires Valid()
      modifies this`intAsserted, this`ints, regs
      ensures CoreOf() == Mcp2515Core.ForceErrorPassive(old(CoreOf()))
    {
      hide UpdateError, RaiseError;
      SetReg(TEC, 128);
      UpdateErrorState();
      RaiseErrorFlags(false);
    }

    method RecoverBusOff()
      requires Valid()
      modifies regs
      ensures CoreOf() == Mcp2515Core.RecoverBusOff(old(CoreOf()))
    {
      hide UpdateError;
      SetReg(TEC, 0);
      SetReg(REC, 0);
      UpdateErrorState();
    }

    // ----- SPI -----

    method SelectChip()
      requires Valid()
      modifies this`csLow, this`txnPos, this`txnState
      ensures State() == Step(old(State()), Select)
    {
      csLow, txnPos, txnState := true, 0, Idle;
    }

    method DeselectChip()
      requires Valid()
      modifies this`csLow, this`txnState
      ensures State() == Step(old(State()), Deselect)
    {
      csLow, txnState := false, Idle;
    }

    method RequestBuffers(b: bv8)
      requires Valid()
      modifies this`mode, this`intAsserted, this`ints, this`txs, this`got, this`sent, regs
      ensures CoreOf() == RequestToSend(old(CoreOf()), b)
    {
      hide RegWrite;
      for n := 0 to 3
        invariant n == 0 ==> CoreOf() == old(CoreOf())
        invariant n == 1 ==> CoreOf() == RequestTx(old(CoreOf()), b, 0)
        invariant n == 2 ==> CoreOf() == RequestTx(RequestTx(old(CoreOf()), b, 0), b, 1)
        invariant n == 3 ==> CoreOf() == RequestToSend(old(CoreOf()), b)
      {
        if Has(b, RtsBit(n)) {
          ApplyRegWrite(TxCtrl(n), regs[TxCtrl(n)] | TXREQ);
        }
      }
    }

    /** READ RX BUFFER and LOAD TX BUFFER note which buffer the transaction is about. */
    method ChooseBuffer(b: bv8)
      requires Valid() && (IsReadRx(b) || IsLoadTx(b))
      modifies this`readRxBuf, this`readRxOff, this`readRxDataOnly, this`loadTxBuf, this`loadTxOff, this`txnState
      ensures SpiOf() == if IsReadRx(b)
        then old(SpiOf()).(rxBuf := if Has(b, 4) then 1 else 0, rxOff := 0, dataOnly := Has(b, 2), txn := ReadRx)
        else old(SpiOf()).(loadBuf := LoadIndex(b), loadOff := if Has(b, 1) then 6 else 1, txn := LoadTx)
    {
      if IsReadRx(b) {
        readRxBuf := if Has(b, 4) then 1 else 0;
        readRxOff := 0;
        readRxDataOnly := Has(b, 2);
        txnState := ReadRx;
      } else {
        loadTxBuf := LoadIndex(b);
        loadTxOff := if Has(b, 1) then 6 else 1;
        txnState := LoadTx;
      }
    }

    /** A command that only opens a phase. */
    method OpenPhase(b: bv8)
      requires Valid() && b != SPI_RESET
      modifies this`txnCmd, this`readRxBuf, this`readRxOff, this`readRxDataOnly, this`loadTxBuf, this`loadTxOff, this`txnState
      ensures SpiOf() == Command(old(SpiOf()), b)
    {
      hide Opcode, LoadIndex, Has;
      CommandsDisjoint(b);
      txnCmd := b;
      if b == SPI_READ || b == SPI_WRITE || b == SPI_BIT_MODIFY {
        txnState := NeedAddr;
      } else if b == SPI_READ_STATUS {
        txnState := Status;
      } else if b == SPI_RX_STATUS {
        txnState := RxStat;
      } else if IsReadRx(b) || IsLoadTx(b) {
        ChooseBuffer(b);
      } else {
        txnState := Done;
      }
    }

    /** The first byte of a transaction. */
    method CommandByte(b: bv8) returns (out: bv8)
      requires Valid() && csLow && txnPos == 0
      modifies this, regs
      ensures CoreOf() == Apply(old(CoreOf()), ByteEffect(old(SpiOf()), old(CoreOf()).regs, b))
      ensures SpiOf() == Command(old(SpiOf()), b)
      ensures out == Output(old(SpiOf()), old(CoreOf()).regs, b)
    {
      hide Apply, ByteEffect, Output, Mcp2515Core.Reset, ReadStatus, RxStatus, RequestToSend, Opcode, LoadIndex, IsRts;
      CommandEffect(CoreOf(), SpiOf(), b);
      if b == SPI_RESET {
        Reset();
        txnCmd := b;
        txnState := Done;
        return 0;
      }
      out := if b == SPI_READ_STATUS then ReadStatus(regs[..]) else if b == SPI_RX_STATUS then RxStatus(regs[..]) else 0;
      if IsRts(b) {
        RequestBuffers(b);
      }
      OpenPhase(b);
    }

    method ClearFlag(n: RxIndex)
      requires Valid()
      modifies this`intAsserted, this`ints, regs
      ensures CoreOf() == ClearRxFlag(old(CoreOf()), n)
    {
      hide UpdateInt;
      SetReg(CANINTF, regs[CANINTF] & !RxFlag(n));
      UpdateIntPin();
    }

    method AddressByte(b: bv8) returns (out: bv8)
      requires Valid() && csLow && txnPos > 0 && WriteInFile(SpiOf()) && (txnState == NeedAddr || txnState == NeedMask)
      modifies this
      ensures CoreOf() == Apply(old(CoreOf()), ByteEffect(old(SpiOf()), old(CoreOf()).regs, b))
      ensures SpiOf() == Operand(old(SpiOf()), b)
      ensures out == Output(old(SpiOf()), old(CoreOf()).regs, b)
    {
      hide Apply, ByteEffect, Operand, Output, RegWrite, BitModify, ClearRxFlag, ReadStatus, RxStatus;
      QuietEffect(CoreOf(), SpiOf(), b);
      OperandSpi(SpiOf(), b);
      OperandOutput(SpiOf(), CoreOf().regs, b);
      if txnState == NeedAddr {
        txnAddr := b;
        txnState := if txnCmd == SPI_READ then ReadData else if txnCmd == SPI_WRITE then NeedData else NeedMask;
      } else {
        txnMask := b;
        txnState := NeedData;
      }
      out := 0;
    }

    method ModifyByte(b: bv8) returns (out: bv8)
      requires Valid() && csLow && txnPos > 0 && txnState == NeedData && txnCmd == SPI_BIT_MODIFY
      modifies this, regs
      ensures CoreOf() == Apply(old(CoreOf()), ByteEffect(old(SpiOf()), old(CoreOf()).regs, b))
      ensures SpiOf() == Operand(old(SpiOf()), b)
      ensures out == Output(old(SpiOf()), old(CoreOf()).regs, b)
    {
      hide Apply, ByteEffect, Operand, Output, BitModify;
      BitModifyEffect(CoreOf(), SpiOf(), b);
      OperandSpi(SpiOf(), b);
      OperandOutput(SpiOf(), CoreOf().regs, b);
      ModifyBits(txnAddr, txnMask, b);
      txnState := Done;
      out := 0;
    }

    method WriteByte(b: bv8) returns (out: bv8)
      requires Valid() && csLow && txnPos > 0 && txnState == NeedData && txnCmd != SPI_BIT_MODIFY && WriteInFile(SpiOf())
      modifies this, regs
      ensures CoreOf() == Apply(old(CoreOf()), ByteEffect(old(SpiOf()), old(CoreOf()).regs, b))
      ensures SpiOf() == Operand(old(SpiOf()), b)
      ensures out == Output(old(SpiOf()), old(CoreOf()).regs, b)
    {
      hide Apply, ByteEffect, Operand, Output, RegWrite;
      WriteEffect(CoreOf(), SpiOf(), b);
      ApplyRegWrite(txnAddr as int, b);
      txnAddr := txnAddr + 1;
      out := 0;
    }

    method LoadTxByte(b: bv8) returns (out: bv8)
      requires Valid() && csLow && txnPos > 0 && WriteInFile(SpiOf()) && txnState == LoadTx
      modifies this, regs
      ensures CoreOf() == Apply(old(CoreOf()), ByteEffect(old(SpiOf()), old(CoreOf()).regs, b))
      ensures SpiOf() == Operand(old(SpiOf()), b)
      ensures out == Output(old(SpiOf()), old(CoreOf()).regs, b)
    {
      hide Apply, ByteEffect, Operand, Output, RegWrite, BitModify, ClearRxFlag, ReadStatus, RxStatus;
      LoadEffect(CoreOf(), SpiOf(), b);
      OperandSpi(SpiOf(), b);
      OperandOutput(SpiOf(), CoreOf().regs, b);
      var a := TxCtrl(loadTxBuf) + loadTxOff;
      if a < REGS_SIZE {
        SetReg(a, b);
      }
      loadTxOff := loadTxOff + 1;
      out := 0;
    }

    method ReadRxByte(b: bv8) returns (out: bv8)
      requires Valid() && csLow && txnPos > 0 && WriteInFile(SpiOf()) && txnState == ReadRx
      modifies this, regs
      ensures CoreOf() == Apply(old(CoreOf()), ByteEffect(old(SpiOf()), old(CoreOf()).regs, b))
      ensures SpiOf() == Operand(old(SpiOf()), b)
      ensures out == Output(old(SpiOf()), old(CoreOf()).regs, b)
    {
      hide Apply, ByteEffect, Operand, Output, RegWrite, BitModify, ClearRxFlag, ReadStatus, RxStatus;
      ReadRxEffect(CoreOf(), SpiOf(), b);
      OperandSpi(SpiOf(), b);
      OperandOutput(SpiOf(), CoreOf().regs, b);
      var a := RxCtrl(readRxBuf) + (if readRxDataOnly then 6 else 1) + readRxOff;
      out := if a < REGS_SIZE then regs[a] else 0;
      readRxOff := readRxOff + 1;
      if readRxOff >= (if readRxDataOnly then 8 else 13) {
        ClearFlag(readRxBuf);
      }
    }

    method OutputByte(b: bv8) returns (out: bv8)
      requires Valid() && csLow && txnPos > 0 && WriteInFile(SpiOf())
      requires (txnState == ReadData || txnState == Status || txnState == RxStat || txnState == Idle || txnState == Done)
      modifies this
      ensures CoreOf() == Apply(old(CoreOf()), ByteEffect(old(SpiOf()), old(CoreOf()).regs, b))
      ensures SpiOf() == Operand(old(SpiOf()), b)
      ensures out == Output(old(SpiOf()), old(CoreOf()).regs, b)
    {
      hide Apply, ByteEffect, Operand, Output, RegWrite, BitModify, ClearRxFlag, ReadStatus, RxStatus;
      QuietEffect(CoreOf(), SpiOf(), b);
      OperandSpi(SpiOf(), b);
      OperandOutput(SpiOf(), CoreOf().regs, b);
      out := 0;
      if txnState == ReadData {
        out := RegAt(regs[..], txnAddr as int);
        txnAddr := txnAddr + 1;
      } else if txnState == Status {
        out := ReadStatus(regs[..]);
      } else if txnState == RxStat {
        out := RxStatus(regs[..]);
      }
    }

    /** Any further byte of a transaction. */
    method OperandByte(b: bv8) returns (out: bv8)
      requires Valid() && csLow && txnPos > 0 && WriteInFile(SpiOf())
      modifies this, regs
      ensures CoreOf() == Apply(old(CoreOf()), ByteEffect(old(SpiOf()), old(CoreOf()).regs, b))
      ensures SpiOf() == Operand(old(SpiOf()), b)
      ensures out == Output(old(SpiOf()), old(CoreOf()).regs, b)
    {
      hide *;
      match txnState
      case NeedAddr => out := AddressByte(b);
      case NeedMask => out := AddressByte(b);
      case NeedData =>
        if txnCmd == SPI_BIT_MODIFY {
          out := ModifyByte(b);
        } else {
          out := WriteByte(b);
        }
      case LoadTx => out := LoadTxByte(b);
      case ReadRx => out := ReadRxByte(b);
      case _ => out := OutputByte(b);
    }

    method SpiByte(b: bv8) returns (out: bv8)
      requires Valid() && WriteInFile(SpiOf())
      modifies this, regs
      ensures State() == Step(old(State()), Byte(b))
      ensures out == Output(old(SpiOf()), old(CoreOf()).regs, b)
      ensures AsksStatus(old(SpiOf()), b) ==> StatusReply(old(regs[..]), out)
      ensures AsksRxStatus(old(SpiOf()), b) ==> RxReply(old(regs[..]), out)
    {
      hide Apply, Command, Operand, ByteEffect, Output, StatusReply, RxReply, AsksStatus, AsksRxStatus;
      RepliesMean(SpiOf(), regs[..], b);
      if !csLow {
        NotSelected(SpiOf(), CoreOf(), b);
        return 0;
      }
      if txnPos == 0 {
        out := CommandByte(b);
      } else {
        out := OperandByte(b);
      }
      txnPos := txnPos + 1;
    }

    /** One stimulus of any kind: what the theorems on runs call a step. */
    method Perform(e: Event) returns (out: bv8, accepted: bool)
      requires Valid() && Allowed(State(), e)
      modifies this, regs
      ensures State() == Step(old(State()), e)
      ensures out == if e.Byte? then Output(old(SpiOf()), old(CoreOf()).regs, e.b) else 0
      ensures accepted == (e.Arrive? && Mcp2515Core.RxFrame(old(CoreOf()), e.f).1)
    {
      hide ByteEffect, NextSpi, Output, RegWrite, Mcp2515Core.RxFrame, CsLow, CsHigh;
      hide Mcp2515Core.InjectTxErrors, Mcp2515Core.InjectRxErrors;
      hide Mcp2515Core.ForceBusOff, Mcp2515Core.ForceErrorPassive, Mcp2515Core.RecoverBusOff;
      out, accepted := 0, false;
      match e
      case Select => SelectChip();
      case Deselect => DeselectChip();
      case Byte(b) => out := SpiByte(b);
      case Arrive(f) => accepted := RxFrame(f);
      case HostWrite(a, v) =>
        if a < REGS_SIZE {
          ApplyRegWrite(a, v);
        }
      case TxErrors(n) => InjectTxErrors(n);
      case RxErrors(n) => InjectRxErrors(n);
      case GoBusOff => ForceBusOff();
      case GoPassive => ForceErrorPassive();
      case Recover => RecoverBusOff();
    }
  }

  lemma FlagsCollected(e: bv8, tec: bv8, rec: bv8)
    ensures var e1 := if tec >= 96 || rec >= 96 then e | 0x01 else e;
      var e2 := if tec >= 96 then e1 | 0x04 else e1;
      var e3 := if rec >= 96 then e2 | 0x02 else e2;
      var e4 := if tec >= 128 then e3 | 0x10 else e3;
      var e5 := if rec >= 128 then e4 | 0x08 else e4;
      (if tec == 255 then e5 | TXBO else e5) == e | ErrFlags(tec, rec)
  {
  }

  lemma CommandsDisjoint(b: bv8)
    ensures IsRts(b) ==> Opcode(b) == Done
    ensures IsReadRx(b) ==> Opcode(b) == ReadRx
    ensures IsLoadTx(b) ==> Opcode(b) == LoadTx
    ensures b == SPI_READ || b == SPI_WRITE || b == SPI_BIT_MODIFY <==> Opcode(b) == NeedAddr
    ensures b == SPI_READ_STATUS ==> Opcode(b) == Status
    ensures b == SPI_RX_STATUS ==> Opcode(b) == RxStat
  {
  }

  lemma CommandEffect(c: Core, s: Spi, b: bv8)
    requires s.csLow && s.pos == 0
    ensures Apply(c, ByteEffect(s, c.regs, b)) ==
      if b == SPI_RESET then Mcp2515Core.Reset(c) else if IsRts(b) then RequestToSend(c, b) else c
    ensures Output(s, c.regs, b) ==
      if b == SPI_READ_STATUS then ReadStatus(c.regs) else if b == SPI_RX_STATUS then RxStatus(c.regs) else 0
  {
    hide Mcp2515Core.Reset, RequestToSend, ReadStatus, RxStatus;
  }

  // The effect of an operand byte, phase by phase.

  lemma QuietEffect(c: Core, s: Spi, b: bv8)
    requires WriteInFile(s) && s.csLow && s.pos > 0 && s.txn != NeedData && s.txn != LoadTx && s.txn != ReadRx
    ensures Apply(c, ByteEffect(s, c.regs, b)) == c
  {
  }

  lemma WriteEffect(c: Core, s: Spi, b: bv8)
    requires WriteInFile(s) && s.csLow && s.pos > 0 && s.txn == NeedData && s.cmd != SPI_BIT_MODIFY
    ensures Apply(c, ByteEffect(s, c.regs, b)) == RegWrite(c, s.addr as int, b)
    ensures Operand(s, b) == s.(addr := s.addr + 1)
    ensures Output(s, c.regs, b) == 0
  {
    hide RegWrite;
  }

  lemma BitModifyRequest(s: Spi, r: Regs, b: bv8)
    requires s.csLow && s.pos > 0 && s.txn == NeedData && s.cmd == SPI_BIT_MODIFY
    ensures s.addr as int < REGS_SIZE ==>
      ByteEffect(s, r, b) == Write(s.addr as int, Merge(r[s.addr as int], s.mask, b))
    ensures s.addr as int >= REGS_SIZE ==> ByteEffect(s, r, b) == Nothing
  {
    hide Merge;
  }

  lemma BitModifyEffect(c: Core, s: Spi, b: bv8)
    requires s.csLow && s.pos > 0 && s.txn == NeedData && s.cmd == SPI_BIT_MODIFY
    ensures Apply(c, ByteEffect(s, c.regs, b)) == BitModify(c, s.addr as int, s.mask, b)
  {
    hide Merge, RegWrite, ByteEffect;
    BitModifyRequest(s, c.regs, b);
  }

  lemma LoadEffect(c: Core, s: Spi, b: bv8)
    requires WriteInFile(s) && s.csLow && s.pos > 0 && s.txn == LoadTx
    ensures Apply(c, ByteEffect(s, c.regs, b)) ==
      if LoadAddr(s) < REGS_SIZE then c.(regs := c.regs[LoadAddr(s) := b]) else c
  {
  }

  lemma ReadRxEffect(c: Core, s: Spi, b: bv8)
    requires WriteInFile(s) && s.csLow && s.pos > 0 && s.txn == ReadRx
    ensures Apply(c, ByteEffect(s, c.regs, b)) ==
      if s.rxOff + 1 >= ReadRxTotal(s) then ClearRxFlag(c, s.rxBuf) else c
  {
    hide ClearRxFlag;
  }

  lemma OperandOutput(s: Spi, r: Regs, b: bv8)
    requires s.csLow && s.pos > 0
    ensures Output(s, r, b) ==
      if s.txn == ReadData then RegAt(r, s.addr as int)
      else if s.txn == ReadRx then RegAt(r, ReadRxAddr(s))
      else if s.txn == Status then ReadStatus(r)
      else if s.txn == RxStat then RxStatus(r)
      else 0
  {
    hide ReadStatus, RxStatus;
  }

  lemma NotSelected(s: Spi, c: Core, b: bv8)
    requires !s.csLow && WriteInFile(s)
    ensures Apply(c, ByteEffect(s, c.regs, b)) == c && Output(s, c.regs, b) == 0
  {
  }

  /** The data length code in plain integers. */
  lemma DataByteAt(f: Frame, i: nat)
    requires i < 8
    ensures DataBytes(f)[i] == if i < f.dlc as int then f.data[i] else 0
  {
  }
}
