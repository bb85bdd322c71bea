/** What single commands and calls mean, told without the functions that compute them: status
    bytes, mode requests, error calls and recorded filter numbers. */
module Mcp2515Commands {
  import opened Mcp2515Regs
  import opened Mcp2515Core
  import opened Mcp2515Spi
  import opened Mcp2515Routing
  import opened Mcp2515Invariant

  // ----- status bytes -----

  /** Figure 12-9 of DS21801G: receive flags, then request and completion of each transmit buffer. */
  ghost predicate StatusReply(r: Regs, out: bv8) {
    && (Has(out, 0x01) <==> Full(r, 0))
    && (Has(out, 0x02) <==> Full(r, 1))
    && (Has(out, 0x04) <==> Has(r[0x30], 0x08))
    && (Has(out, 0x08) <==> Has(r[CANINTF], 0x04))
    && (Has(out, 0x10) <==> Has(r[0x40], 0x08))
    && (Has(out, 0x20) <==> Has(r[CANINTF], 0x08))
    && (Has(out, 0x40) <==> Has(r[0x50], 0x08))
    && (Has(out, 0x80) <==> Has(r[CANINTF], 0x10))
  }

  lemma ReadStatusMeans(r: Regs)
    ensures StatusReply(r, ReadStatus(r))
  {
  }

  /** Figure 12-10: which buffers are full, and kind and filter number of the first full one. */
  ghost predicate RxReply(r: Regs, out: bv8) {
    && (Has(out, 0x40) <==> Full(r, 0))
    && (Has(out, 0x80) <==> Full(r, 1))
    && (Full(r, 0) || Full(r, 1) ==>
          var b := RxCtrl(if Full(r, 0) then 0 else 1);
          && (Has(out, 0x10) <==> FrameAt(r, b).ext)
          && (Has(out, 0x08) <==> FrameAt(r, b).rtr)
          && out & 0x07 == r[b] & (if Full(r, 0) then 1 else 7))
    && (!Full(r, 0) && !Full(r, 1) ==> out == 0)
  }

  lemma RxStatusMeans(r: Regs)
    ensures RxReply(r, RxStatus(r))
  {
  }

  /** The byte is READ STATUS itself, or a further byte clocked out after it. */
  predicate AsksStatus(s: Spi, b: bv8) { s.csLow && if s.pos == 0 then b == SPI_READ_STATUS else s.txn == Status }

  predicate AsksRxStatus(s: Spi, b: bv8) { s.csLow && if s.pos == 0 then b == SPI_RX_STATUS else s.txn == RxStat }

  lemma RepliesMean(s: Spi, r: Regs, b: bv8)
    ensures AsksStatus(s, b) ==> StatusReply(r, Output(s, r, b))
    ensures AsksRxStatus(s, b) ==> RxReply(r, Output(s, r, b))
  {
    hide StatusReply, RxReply, ReadStatus, RxStatus;
    ReadStatusMeans(r);
    RxStatusMeans(r);
  }

  // ----- modes -----

  lemma ModeBits(b: bv8, m: bv8)
    requires m <= MODE_CONFIG
    ensures ModeOf(WithMode(b, m)) == m && WithMode(b, m) & 0x1F == b & 0x1F
  {
  }

  lemma ModeRestored(v: bv8)
    ensures WithMode(v, ModeOf(v)) == v
  {
  }

  /** The registers that leaving bus-off rewrites. */
  predicate Recovered(a: nat) { a == TEC || a == REC || a == EFLG }

  /** A CANCTRL write stores the value; a mode that exists is entered at once and shows in
      OPMOD, another request leaves mode and CANSTAT alone. Nothing else changes, except that in
      bus-off the counters and EFLG are rewritten. */
  lemma ModeRequestExact(c: Core, v: bv8)
    ensures var d := RegWrite(c, CANCTRL, v); var m := ModeOf(v);
      && d.regs[CANCTRL] == v
      && d.mode == (if m <= MODE_CONFIG then m else c.mode)
      && (m <= MODE_CONFIG ==> ModeOf(d.regs[CANSTAT]) == m && d.regs[CANSTAT] & 0x1F == c.regs[CANSTAT] & 0x1F)
      && (m > MODE_CONFIG ==> d.regs[CANSTAT] == c.regs[CANSTAT])
      && (forall a :: 0 <= a < REGS_SIZE && a != CANCTRL && a != CANSTAT && !(BusOff(c) && Recovered(a)) ==> d.regs[a] == c.regs[a])
      && d.txs == c.txs && d.got == c.got && d.ints == c.ints && d.sent == c.sent
  {
    hide RegWrite, Requested, RecoverBusOff, ModeOf, BusOff;
    CanctrlIs(c, v);
    RequestedFields(c, v);
    RecoverFields(Requested(c, v));
  }

  lemma CanctrlIs(c: Core, v: bv8)
    ensures RegWrite(c, CANCTRL, v) == if BusOff(c) then RecoverBusOff(Requested(c, v)) else Requested(c, v)
  {
    hide UpdateError, SetMode, ModeOf, BusOff;
  }

  lemma RequestedFields(c: Core, v: bv8)
    ensures var d := Requested(c, v); var m := ModeOf(v);
      && d.regs[CANCTRL] == v
      && d.mode == (if m <= MODE_CONFIG then m else c.mode)
      && (m <= MODE_CONFIG ==> ModeOf(d.regs[CANSTAT]) == m && d.regs[CANSTAT] & 0x1F == c.regs[CANSTAT] & 0x1F)
      && (m > MODE_CONFIG ==> d.regs[CANSTAT] == c.regs[CANSTAT])
      && (forall a :: 0 <= a < REGS_SIZE && a != CANCTRL && a != CANSTAT ==> d.regs[a] == c.regs[a])
      && d.txs == c.txs && d.got == c.got && d.ints == c.ints && d.sent == c.sent
  {
    hide WithMode, ModeOf;
    ModeRestored(v);
    if ModeOf(v) <= MODE_CONFIG {
      ModeBits(c.regs[CANSTAT], ModeOf(v));
    }
  }

  lemma RecoverFields(c: Core)
    ensures var d := RecoverBusOff(c);
      && (forall a :: 0 <= a < REGS_SIZE && !Recovered(a) ==> d.regs[a] == c.regs[a])
      && d.mode == c.mode && d.txs == c.txs && d.got == c.got && d.ints == c.ints && d.sent == c.sent
  {
    hide ErrFlags;
  }

  // ----- errors -----

  /** The data sheet's thresholds for the six state bits of EFLG. */
  ghost predicate Thresholds(e: bv8, tec: bv8, rec: bv8) {
    && (Has(e, 0x01) <==> tec >= 96 || rec >= 96)
    && (Has(e, 0x02) <==> rec >= 96) && (Has(e, 0x04) <==> tec >= 96)
    && (Has(e, 0x08) <==> rec >= 128) && (Has(e, 0x10) <==> tec >= 128)
    && (Has(e, 0x20) <==> tec == 255)
  }

  lemma FlagThresholds(tec: bv8, rec: bv8, high: bv8)
    ensures Thresholds((high & 0xC0) | ErrFlags(tec, rec), tec, rec)
    ensures ((high & 0xC0) | ErrFlags(tec, rec)) & 0xC0 == high & 0xC0
  {
  }

  lemma UpdateMeets(c: Core)
    ensures var d := UpdateError(c).regs;
      Thresholds(d[EFLG], c.regs[TEC], c.regs[REC]) && d[EFLG] & 0xC0 == c.regs[EFLG] & 0xC0
  {
    hide ErrFlags, Thresholds;
    FlagThresholds(c.regs[TEC], c.regs[REC], c.regs[EFLG]);
  }

  lemma RaisedFlags(i: bv8)
    ensures i | ERRIF | 0 == i | 0x20 && i | ERRIF | MERRF == i | 0xA0
  {
  }

  function AtMost255(v: nat): nat { if v > 255 then 255 else v }

  /** n injected transmit errors raise TEC by 8 each, up to 255, and flag a message error. */
  lemma TxErrorsExact(c: Core, n: nat)
    requires n > 0
    ensures var d := InjectTxErrors(c, n);
      && d.regs[TEC] as int == AtMost255(c.regs[TEC] as int + 8 * n)
      && d.regs[REC] == c.regs[REC] && d.regs[CANINTF] == c.regs[CANINTF] | 0xA0
      && Thresholds(d.regs[EFLG], d.regs[TEC], d.regs[REC])
  {
    hide SaturatingAdd, Thresholds, RaiseError, SetCounter;
    var v := SaturatingAdd(c.regs[TEC], 8 * n);
    CounterSet(c, TEC, v, true);
  }

  /** n injected receive errors raise REC by 1 each, up to 255, and flag no message error. */
  lemma RxErrorsExact(c: Core, n: nat)
    requires n > 0
    ensures var d := InjectRxErrors(c, n);
      && d.regs[REC] as int == AtMost255(c.regs[REC] as int + n)
      && d.regs[TEC] == c.regs[TEC] && d.regs[CANINTF] == c.regs[CANINTF] | 0x20
      && Thresholds(d.regs[EFLG], d.regs[TEC], d.regs[REC])
  {
    hide SaturatingAdd, Thresholds, RaiseError, SetCounter;
    var v := SaturatingAdd(c.regs[REC], n);
    CounterSet(c, REC, v, false);
  }

  lemma CounterSet(c: Core, counter: nat, v: bv8, merr: bool)
    requires counter == TEC || counter == REC
    ensures var d := RaiseError(SetCounter(c, counter, v), merr);
      && d.regs[counter] == v && d.regs[if counter == TEC then REC else TEC] == c.regs[if counter == TEC then REC else TEC]
      && d.regs[CANINTF] == c.regs[CANINTF] | (if merr then 0xA0 else 0x20)
      && Thresholds(d.regs[EFLG], d.regs[TEC], d.regs[REC])
  {
    hide ErrFlags, Thresholds;
    UpdateMeets(c.(regs := c.regs[counter := v]));
    RaisedFlags(c.regs[CANINTF]);
  }

  // ----- filter numbers -----

  /** Filter k is the lowest that lets f through. */
  predicate Lowest(r: Regs, f: Frame, k: nat)
    requires k < 6
  {
    FilterHit(r, f, k) && forall j :: 0 <= j < k ==> !FilterHit(r, f, j)
  }

  lemma LowestIsFirst(r: Regs, f: Frame, k: nat)
    requires k < 6 && Lowest(r, f, k)
    ensures FirstHit(r, f, 0) == k
  {
    FirstHitIsLowest(r, f, 0);
  }

  const NUMBERS: seq<bv8> := [0, 1, 2, 3]

  lemma NumberBytes(k: nat)
    requires k < 4
    ensures FilterByte(k) == NUMBERS[k]
  {
  }

  lemma FilhitBits(prior: bv8, n: nat, f: Frame, filter: bv8)
    requires n < 2 && filter <= 3 && (n == 0 ==> filter <= 1)
    ensures RxCtrlByte(prior, n, f, filter) & FilhitMask(n) == filter
  {
  }

  /** A stored frame leaves the number of the lowest filter that lets it in: 0 or 1 in RXB0; in
      RXB1 the number less two, or 0 or 1 after a rollover. A receive-any buffer records 0 or 2,
      whether a filter matches or not. */
  lemma FilterNumberExact(c: Core, f: Frame)
    ensures var d := Route(c, f).0.regs;
      && (Takes0(c.regs, f) && RxMode(c.regs, 0) == RXM_ANY ==> d[RXB0CTRL] & 1 == 0)
      && (Takes1(c.regs, f) && RxMode(c.regs, 1) == RXM_ANY ==> d[RXB1CTRL] & 7 == 2)
    ensures var d := Route(c, f).0.regs;
      forall k: nat :: k < 6 && Lowest(c.regs, f, k) ==>
        && (Takes0(c.regs, f) && RxMode(c.regs, 0) != RXM_ANY ==> k < 2 && d[RXB0CTRL] & 1 == NUMBERS[k])
        && (Takes1(c.regs, f) && RxMode(c.regs, 1) != RXM_ANY ==>
              d[RXB1CTRL] & 7 == NUMBERS[if k < 2 then k else k - 2])
    ensures (Takes0(c.regs, f) && RxMode(c.regs, 0) != RXM_ANY) || (Takes1(c.regs, f) && RxMode(c.regs, 1) != RXM_ANY) ==>
      exists k: nat :: k < 6 && Lowest(c.regs, f, k)
  {
    hide FilterHit, RxCtrlByte, FrameBytes, Takes0, Takes1, RxMode, Full, FirstHit, Lowest;
    JudgeMeans(c.regs, f);
    var v := Judge(c.regs, f);
    if v.Store? {
      VerdictFilter(c.regs, f);
      DepositHolds(c, v.n, f, v.filter);
      FilhitBits(c.regs[RxCtrl(v.n)], v.n, f, v.filter);
      var h := FirstHit(c.regs, f, 0);
      FirstIsLowest(c.regs, f);
      forall k: nat | k < 6 && Lowest(c.regs, f, k) ensures k == h {
        LowestIsFirst(c.regs, f, k);
      }
      hide FilterByte;
      if h >= 0 {
        NumberBytes(if h < 2 then h else h - 2);
      }
    }
  }

  lemma FirstIsLowest(r: Regs, f: Frame)
    ensures var h := FirstHit(r, f, 0); -1 <= h < 6 && (h >= 0 ==> Lowest(r, f, h))
  {
    FirstHitIsLowest(r, f, 0);
  }

  lemma VerdictFilter(r: Regs, f: Frame)
    requires Judge(r, f).Store?
    ensures var v := Judge(r, f); var h := FirstHit(r, f, 0);
      && (v.n == 0 && RxMode(r, 0) == RXM_ANY ==> v.filter == 0)
      && (v.n == 0 && RxMode(r, 0) != RXM_ANY ==> 0 <= h < 2 && v.filter == FilterByte(h))
      && (v.n == 1 && RxMode(r, 1) == RXM_ANY ==> v.filter == 2)
      && (v.n == 1 && RxMode(r, 1) != RXM_ANY ==> h >= 0 && v.filter == FilterByte(if h < 2 then h else h - 2))
      && v.filter <= 3 && (v.n == 0 ==> v.filter <= 1)
  {
    FirstIsLowest(r, f);
    hide FirstHit, RxMode;
  }
}
