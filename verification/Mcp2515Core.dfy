/** What one register access, one inbound frame or one error event does to the MCP2515
    model, as functions on the controller's state. The class Mcp2515Device.Controller
    is proved against these functions. */
module Mcp2515Core {
  import opened Mcp2515Regs

  /** The controller without its SPI transaction. `ints` are the levels passed to the
      interrupt callback so far, `txs` the frames passed to the transmit callback, `got`
      the frames deposited with their receive buffer, and `sent` counts completed
      transmissions (loopback included). */
  datatype Core = Core(
    regs: Regs, mode: bv8, intLine: bool,
    ints: seq<bool>, txs: seq<Frame>, got: seq<(nat, Frame)>, sent: nat)

  predicate Has(b: bv8, bit: bv8) { b & bit != 0 }

  predicate BusOff(c: Core) { Has(c.regs[EFLG], TXBO) }

  // ----- interrupt line, mode, error state -----

  predicate IntLevel(r: Regs) { r[CANINTF] & r[CANINTE] != 0 }

  function UpdateInt(c: Core): Core {
    if IntLevel(c.regs) == c.intLine then c
    else c.(intLine := IntLevel(c.regs), ints := c.ints + [IntLevel(c.regs)])
  }

  /** `b` with its three mode bits set to `m`. */
  function WithMode(b: bv8, m: bv8): bv8 { (b & 0x1F) | (m << 5) }

  /** The mode that a CANCTRL value asks for. */
  function ModeOf(b: bv8): bv8 { b >> 5 }

  function SetMode(c: Core, m: bv8): Core {
    c.(mode := m,
       regs := c.regs[CANSTAT := WithMode(c.regs[CANSTAT], m)][CANCTRL := WithMode(c.regs[CANCTRL], m)])
  }

  /** EFLG bits 0-5 as thresholds of the two counters. */
  function ErrFlags(tec: bv8, rec: bv8): bv8 {
    (if tec >= 96 || rec >= 96 then 0x01 else 0)
    | (if tec >= 96 then 0x04 else 0)
    | (if rec >= 96 then 0x02 else 0)
    | (if tec >= 128 then 0x10 else 0)
    | (if rec >= 128 then 0x08 else 0)
    | (if tec == 255 then TXBO else 0)
  }

  datatype ErrState = Active | Passive | Offline

  /** The fault-confinement state that EFLG announces. */
  function StateOf(r: Regs): ErrState {
    if Has(r[EFLG], TXBO) then Offline else if Has(r[EFLG], 0x18) then Passive else Active
  }

  function UpdateError(c: Core): Core {
    c.(regs := c.regs[EFLG := (c.regs[EFLG] & 0xC0) | ErrFlags(c.regs[TEC], c.regs[REC])])
  }

  // ----- identifiers and filters -----

  datatype Ident = Ident(id: bv32, ext: bool)

  function UnpackId(sidh: bv8, sidl: bv8, eid8: bv8, eid0: bv8): Ident {
    if Has(sidl, EXIDE) then
      Ident(Pack(sidh, sidl, eid8, eid0) & 0x1FFF_FFFF, true)
    else
      Ident((((sidh as bv32) << 3) | ((sidl as bv32) >> 5)) & 0x7FF, false)
  }

  function IdentAt(r: Regs, at: nat): Ident
    requires at + 4 <= REGS_SIZE
  {
    UnpackId(r[at], r[at + 1], r[at + 2], r[at + 3])
  }

  function EncodedId(i: Ident): bv32 {
    if i.ext then i.id & 0x1FFF_FFFF else (i.id & 0x7FF) << 18
  }

  /** Four identifier bytes as one 29-bit value. */
  function Pack(b0: bv8, b1: bv8, b2: bv8, b3: bv8): bv32 {
    ((b0 as bv32) << 21) | (((b1 >> 5) as bv32) << 18) | (((b1 & 3) as bv32) << 16)
    | ((b2 as bv32) << 8) | (b3 as bv32)
  }

  function MaskAt(r: Regs, at: nat): bv32
    requires at + 4 <= REGS_SIZE
  {
    Pack(r[at], r[at + 1], r[at + 2], r[at + 3])
  }

  predicate MatchFilter(frame: Ident, filter: Ident, mask: bv32) {
    frame.ext == filter.ext && (EncodedId(frame) ^ EncodedId(filter)) & mask == 0
  }

  function FilterAddr(k: nat): nat
    requires k < 6
  {
    if k < 3 then RXF0SIDH + 4 * k else RXF3SIDH + 4 * (k - 3)
  }

  /** Acceptance filter k (RXM0 masks filters 0 and 1, RXM1 the others) lets `f` through. */
  predicate FilterHit(r: Regs, f: Frame, k: nat)
    requires k < 6
  {
    MatchFilter(Ident(f.id, f.ext), IdentAt(r, FilterAddr(k)),
                MaskAt(r, if k < 2 then RXM0SIDH else RXM1SIDH))
  }

  /** The first filter from k on that lets `f` through, or -1. */
  function FirstHit(r: Regs, f: Frame, k: nat): (h: int)
    requires k <= 6
    decreases 6 - k
  {
    if k == 6 then -1 else if FilterHit(r, f, k) then k else FirstHit(r, f, k + 1)
  }

  // ----- receive path -----

  function IdBytes(f: Frame): (s: seq<bv8>)
    ensures |s| == 4
  {
    if f.ext then
      [((f.id >> 21) & 0xFF) as bv8,
       ((((f.id >> 18) & 7) as bv8) << 5) | EXIDE | (((f.id >> 16) & 3) as bv8),
       ((f.id >> 8) & 0xFF) as bv8,
       (f.id & 0xFF) as bv8]
    else
      [((f.id >> 3) & 0xFF) as bv8, ((f.id & 7) as bv8) << 5, 0, 0]
  }

  /** The data bytes up to the data length code, then zeros. */
  function DataBytes(f: Frame): Payload {
    [if f.dlc > 0 then f.data[0] else 0, if f.dlc > 1 then f.data[1] else 0,
     if f.dlc > 2 then f.data[2] else 0, if f.dlc > 3 then f.data[3] else 0,
     if f.dlc > 4 then f.data[4] else 0, if f.dlc > 5 then f.data[5] else 0,
     if f.dlc > 6 then f.data[6] else 0, if f.dlc > 7 then f.data[7] else 0]
  }

  /** SIDH to D7 as a receive buffer stores them. */
  function FrameBytes(f: Frame): (s: seq<bv8>)
    ensures |s| == 13
  {
    IdBytes(f) + [(f.dlc & 0x0F) | (if f.rtr then DLC_RTR else 0)] + DataBytes(f)
  }

  function FilhitMask(n: nat): bv8 { if n == 0 then 0x01 else 0x07 }

  function RxCtrlByte(prior: bv8, n: nat, f: Frame, filter: bv8): bv8 {
    (prior & !(FilhitMask(n) | RXRTR)) | (filter & FilhitMask(n)) | (if f.rtr then RXRTR else 0)
  }

  function Deposit(c: Core, n: nat, f: Frame, filter: bv8): Core
    requires n < 2
  {
    var r := Splice(c.regs, RxCtrl(n), [RxCtrlByte(c.regs[RxCtrl(n)], n, f, filter)] + FrameBytes(f));
    UpdateInt(c.(regs := r[CANINTF := r[CANINTF] | RxFlag(n)], got := c.got + [(n, f)]))
  }

  predicate TypeAdmitted(rxm: bv8, ext: bool) {
    (rxm == RXM_STD ==> !ext) && (rxm == RXM_EXT ==> ext)
  }

  function RxMode(r: Regs, n: nat): bv8
    requires n < 2
  {
    (r[RxCtrl(n)] & 0x60) >> 5
  }

  /** What becomes of an inbound frame: stored in a buffer with a filter number, or
      dropped with overflow bits raised. */
  datatype Verdict = Store(n: nat, filter: bv8) | Drop(overflow: bv8)

  function Judge(r: Regs, f: Frame): (v: Verdict)
    ensures v.Store? ==> v.n < 2
    ensures v.Drop? ==> v.overflow & 0x3F == 0
  {
    var busy0 := Has(r[CANINTF], RX0IF);
    var busy1 := Has(r[CANINTF], RX1IF);
    var hit := FirstHit(r, f, 0);
    if !busy0 && TypeAdmitted(RxMode(r, 0), f.ext) && RxMode(r, 0) == RXM_ANY then Store(0, 0)
    else if !busy0 && TypeAdmitted(RxMode(r, 0), f.ext) && 0 <= hit < 2 then Store(0, FilterByte(hit))
    else if !TypeAdmitted(RxMode(r, 1), f.ext) then Drop(if busy0 then RX0OVR else 0)
    else if busy1 then Drop(if busy0 then RX0OVR | RX1OVR else RX1OVR)
    else if RxMode(r, 1) == RXM_ANY then Store(1, 2)
    else if hit >= 2 then Store(1, FilterByte(hit - 2))
    else if hit >= 0 && Has(r[RXB0CTRL], BUKT) then Store(1, FilterByte(hit))
    else Drop(0)
  }

  function FilterByte(k: int): bv8 {
    if k == 1 then 1 else if k == 2 then 2 else if k == 3 then 3 else 0
  }

  /** Offer `f` to the two receive buffers. */
  function Route(c: Core, f: Frame): (Core, bool) {
    match Judge(c.regs, f)
    case Store(n, filter) => (Deposit(c, n, f, filter), true)
    case Drop(overflow) => (Flag(c, overflow), false)
  }

  function Flag(c: Core, bits: bv8): Core {
    c.(regs := c.regs[EFLG := c.regs[EFLG] | bits])
  }

  function RxFrame(c: Core, f: Frame): (Core, bool) {
    if c.mode == MODE_SLEEP || c.mode == MODE_CONFIG || BusOff(c) then (c, false)
    else
      var (d, accepted) := Route(c, f);
      (if accepted then CountDown(d, REC) else d, accepted)
  }

  /** Decrement a non-zero error counter and recompute the error flags. */
  function CountDown(c: Core, counter: nat): Core
    requires counter < REGS_SIZE
  {
    if c.regs[counter] == 0 then c
    else UpdateError(c.(regs := c.regs[counter := c.regs[counter] - 1]))
  }

  // ----- transmit path -----

  /** The frame held by the buffer whose control register is `b`. */
  function FrameAt(r: Regs, b: nat): Frame
    requires b + 14 <= REGS_SIZE
  {
    var i := IdentAt(r, b + 1);
    Frame(i.id, i.ext, Has(r[b + 5], DLC_RTR), r[b + 5] & 0x0F, r[b + 6..b + 14])
  }

  function Extract(r: Regs, n: nat): Frame
    requires n < 3
  {
    FrameAt(r, TxCtrl(n))
  }

  function MarkComplete(c: Core, n: nat): Core
    requires n < 3
  {
    c.(regs := c.regs[TxCtrl(n) := c.regs[TxCtrl(n)] & !TXREQ][CANINTF := c.regs[CANINTF] | TxFlag(n)],
       sent := c.sent + 1)
  }

  function DeliverLoopback(c: Core, n: nat): Core
    requires n < 3
  {
    UpdateInt(Route(CountDown(MarkComplete(c, n), TEC), Extract(c.regs, n)).0)
  }

  function DeliverNormal(c: Core, n: nat): Core
    requires n < 3
  {
    var d := UpdateInt(CountDown(MarkComplete(c, n), TEC));
    d.(txs := d.txs + [Extract(c.regs, n)])
  }

  // ----- register access -----

  function WriteCanctrl(c: Core, v: bv8): Core {
    var d := c.(regs := c.regs[CANCTRL := v]);
    var e := if ModeOf(v) <= MODE_CONFIG then SetMode(d, ModeOf(v)) else d;
    if BusOff(c) then UpdateError(e.(regs := e.regs[TEC := 0][REC := 0])) else e
  }

  function WriteTxCtrl(c: Core, n: nat, v: bv8): Core
    requires n < 3
  {
    var d := c.(regs := c.regs[TxCtrl(n) := v]);
    if Has(c.regs[TxCtrl(n)], TXREQ) || !Has(v, TXREQ) || BusOff(c) then d
    else if c.mode == MODE_LOOPBACK then DeliverLoopback(d, n)
    else if c.mode == MODE_NORMAL then DeliverNormal(d, n)
    else d
  }

  predicate IsTxCtrl(a: int) { a == TXB0CTRL || a == TXB1CTRL || a == TXB2CTRL }

  function RegWrite(c: Core, a: nat, v: bv8): Core
    requires a < REGS_SIZE
  {
    if a == CANCTRL then WriteCanctrl(c, v)
    else if a == CANSTAT then c
    else if a == CANINTF || a == CANINTE then UpdateInt(c.(regs := c.regs[a := v]))
    else if a == TEC || a == REC then c
    else if IsTxCtrl(a) then WriteTxCtrl(c, (a - TXB0CTRL) / 0x10, v)
    else c.(regs := c.regs[a := v])
  }

  /** `cur` with the bits of `mask` taken from `v`. */
  function Merge(cur: bv8, mask: bv8, v: bv8): bv8 { (cur & !mask) | (v & mask) }

  function BitModify(c: Core, a: nat, mask: bv8, v: bv8): Core {
    if a >= REGS_SIZE then c else RegWrite(c, a, Merge(c.regs[a], mask, v))
  }

  // ----- error events -----

  function RaiseError(c: Core, merr: bool): Core {
    UpdateInt(c.(regs := c.regs[CANINTF := c.regs[CANINTF] | ERRIF | (if merr then MERRF else 0)]))
  }

  function SetCounter(c: Core, counter: nat, v: bv8): Core
    requires counter < REGS_SIZE
  {
    UpdateError(c.(regs := c.regs[counter := v]))
  }

  function InjectTxErrors(c: Core, count: int): Core {
    if count <= 0 then c
    else RaiseError(SetCounter(c, TEC, SaturatingAdd(c.regs[TEC], 8 * count)), true)
  }

  function InjectRxErrors(c: Core, count: int): Core {
    if count <= 0 then c
    else RaiseError(SetCounter(c, REC, SaturatingAdd(c.regs[REC], count)), false)
  }

  function ForceBusOff(c: Core): Core { RaiseError(SetCounter(c, TEC, 255), true) }

  function ForceErrorPassive(c: Core): Core { RaiseError(SetCounter(c, TEC, 128), false) }

  function RecoverBusOff(c: Core): Core {
    UpdateError(c.(regs := c.regs[TEC := 0][REC := 0]))
  }

  // ----- reset and status -----

  function ResetRegs(): Regs {
    var zero: Regs := seq(REGS_SIZE, i => 0);
    zero[CANCTRL := 0x87][CANSTAT := MODE_CONFIG << 5]
  }

  function Reset(c: Core): Core {
    c.(regs := ResetRegs(), mode := MODE_CONFIG, intLine := false,
       ints := if c.intLine then c.ints + [false] else c.ints)
  }

  function ReadStatus(r: Regs): bv8 {
    (if Has(r[CANINTF], RX0IF) then 0x01 else 0)
    | (if Has(r[CANINTF], RX1IF) then 0x02 else 0)
    | (if Has(r[TXB0CTRL], TXREQ) then 0x04 else 0)
    | (if Has(r[CANINTF], TxFlag(0)) then 0x08 else 0)
    | (if Has(r[TXB1CTRL], TXREQ) then 0x10 else 0)
    | (if Has(r[CANINTF], TxFlag(1)) then 0x20 else 0)
    | (if Has(r[TXB2CTRL], TXREQ) then 0x40 else 0)
    | (if Has(r[CANINTF], TxFlag(2)) then 0x80 else 0)
  }

  function RxStatus(r: Regs): bv8 {
    var rx0 := Has(r[CANINTF], RX0IF);
    var rx1 := Has(r[CANINTF], RX1IF);
    var flags := (if rx0 then 0x40 else 0) | (if rx1 then 0x80 else 0);
    if !rx0 && !rx1 then flags
    else
      var b := if rx0 then RXB0CTRL else RXB1CTRL;
      flags
      | (if Has(r[b + 2], EXIDE) then 0x10 else 0)
      | (if Has(r[b + 5], DLC_RTR) then 0x08 else 0)
      | (r[b] & FilhitMask(if rx0 then 0 else 1))
  }
}
