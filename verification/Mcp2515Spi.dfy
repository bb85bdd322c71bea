/** The byte-at-a-time SPI transaction machine, and runs of the whole controller under
    chip-select edges, SPI bytes, inbound frames, host register writes and error events. */
module Mcp2515Spi {
  import opened Mcp2515Regs
  import opened Mcp2515Core

  const SPI_RESET: bv8 := 0xC0
  const SPI_READ: bv8 := 0x03
  const SPI_WRITE: bv8 := 0x02
  const SPI_BIT_MODIFY: bv8 := 0x05
  const SPI_READ_STATUS: bv8 := 0xA0
  const SPI_RX_STATUS: bv8 := 0xB0

  datatype Txn = Idle | NeedAddr | NeedMask | NeedData | ReadData | LoadTx | ReadRx | Status | RxStat | Done

  type TxIndex = n: nat | n < 3
  type RxIndex = n: nat | n < 2

  datatype Spi = Spi(
    csLow: bool, pos: nat, cmd: bv8, addr: bv8, mask: bv8, txn: Txn,
    loadBuf: TxIndex, loadOff: nat, rxBuf: RxIndex, rxOff: nat, dataOnly: bool)

  datatype Chip = Chip(core: Core, spi: Spi)

  predicate IsRts(b: bv8) { b & 0xF8 == 0x80 }
  predicate IsReadRx(b: bv8) { b & 0xF8 == 0x90 && b & 0x09 == 0 }
  predicate IsLoadTx(b: bv8) { b & 0xF8 == 0x40 && b & 0x06 <= 0x04 }

  function LoadIndex(b: bv8): TxIndex { if b & 0x06 == 0 then 0 else if b & 0x06 == 2 then 1 else 2 }

  /** The bit of an RTS command that selects buffer n. */
  function RtsBit(n: TxIndex): bv8 { if n == 0 then 1 else if n == 1 then 2 else 4 }

  function RequestTx(c: Core, b: bv8, n: TxIndex): Core {
    if Has(b, RtsBit(n))
    then RegWrite(c, TxCtrl(n), c.regs[TxCtrl(n)] | TXREQ) else c
  }

  /** RTS: request the selected buffers in ascending order. */
  function RequestToSend(c: Core, b: bv8): Core {
    RequestTx(RequestTx(RequestTx(c, b, 0), b, 1), b, 2)
  }

  function CsLow(s: Spi): Spi { s.(csLow := true, pos := 0, txn := Idle) }

  function CsHigh(s: Spi): Spi { s.(csLow := false, txn := Idle) }

  function ResetSpi(s: Spi): Spi {
    s.(csLow := false, pos := 0, txn := Idle, loadBuf := 0, loadOff := 0, rxBuf := 0, rxOff := 0, dataOnly := false)
  }

  function RegAt(r: Regs, a: nat): bv8 { if a < REGS_SIZE then r[a] else 0 }

  function LoadByte(c: Core, a: nat, b: bv8): Core
    requires a < REGS_SIZE
  {
    c.(regs := c.regs[a := b])
  }

  function ClearRxFlag(c: Core, n: RxIndex): Core {
    UpdateInt(c.(regs := c.regs[CANINTF := c.regs[CANINTF] & !RxFlag(n)]))
  }

  /** What a stimulus does to the registers: at most one of the controller's operations. */
  datatype Effect =
    | Nothing
    | Write(a: nat, v: bv8)
    | Rts(b: bv8)
    | Load(a: nat, b: bv8)
    | Clear(buf: RxIndex)
    | Wipe
    | Receive(f: Frame)
    | Errors(tx: bool, n: int)
    | Force(off: bool)
    | Revive

  predicate Applicable(e: Effect) {
    (e.Write? || e.Load?) ==> e.a < REGS_SIZE
  }

  function Apply(c: Core, e: Effect): Core
    requires Applicable(e)
  {
    match e
    case Nothing => c
    case Write(a, v) => RegWrite(c, a, v)
    case Rts(b) => RequestToSend(c, b)
    case Load(a, b) => LoadByte(c, a, b)
    case Clear(n) => ClearRxFlag(c, n)
    case Wipe => Reset(c)
    case Receive(f) => RxFrame(c, f).0
    case Errors(tx, n) => if tx then InjectTxErrors(c, n) else InjectRxErrors(c, n)
    case Force(off) => if off then ForceBusOff(c) else ForceErrorPassive(c)
    case Revive => RecoverBusOff(c)
  }

  /** The next byte of a WRITE burst falls in the register file. */
  predicate WriteInFile(s: Spi) {
    s.csLow && s.pos > 0 && s.txn == NeedData && s.cmd != SPI_BIT_MODIFY ==> s.addr as int < REGS_SIZE
  }

  /** The register after the one the transmit-buffer loader filled last. */
  function LoadAddr(s: Spi): nat { TxCtrl(s.loadBuf) + s.loadOff }

  function ReadRxTotal(s: Spi): nat { if s.dataOnly then 8 else 13 }

  /** The effect of one byte on the registers. */
  function ByteEffect(s: Spi, r: Regs, b: bv8): Effect
    requires WriteInFile(s)
  {
    if !s.csLow then Nothing
    else if s.pos == 0 then
      if b == SPI_RESET then Wipe else if IsRts(b) then Rts(b) else Nothing
    else match s.txn
      case NeedData =>
        if s.cmd != SPI_BIT_MODIFY then Write(s.addr as int, b)
        else if s.addr as int < REGS_SIZE then Write(s.addr as int, Merge(r[s.addr as int], s.mask, b))
        else Nothing
      case LoadTx => if LoadAddr(s) < REGS_SIZE then Load(LoadAddr(s), b) else Nothing
      case ReadRx => if s.rxOff + 1 >= ReadRxTotal(s) then Clear(s.rxBuf) else Nothing
      case _ => Nothing
  }

  /** The phase that a command byte opens. */
  function Opcode(b: bv8): (t: Txn)
    ensures t == NeedAddr ==> b == SPI_READ || b == SPI_WRITE || b == SPI_BIT_MODIFY
    ensures t == Status ==> b == SPI_READ_STATUS
    ensures t == RxStat ==> b == SPI_RX_STATUS
    ensures t == ReadRx ==> IsReadRx(b)
    ensures t == LoadTx ==> IsLoadTx(b)
    ensures t in {NeedAddr, Status, RxStat, ReadRx, LoadTx, Done}
  {
    if b == SPI_READ || b == SPI_WRITE || b == SPI_BIT_MODIFY then NeedAddr
    else if b == SPI_READ_STATUS then Status
    else if b == SPI_RX_STATUS then RxStat
    else if IsReadRx(b) then ReadRx
    else if IsLoadTx(b) then LoadTx
    else Done
  }

  /** The transaction state that the first byte of a transaction leaves. */
  function Command(s: Spi, b: bv8): Spi {
    if b == SPI_RESET then ResetSpi(s).(cmd := b, txn := Done)
    else
      var t := Opcode(b);
      s.(cmd := b, txn := t,
         loadBuf := if t == LoadTx then LoadIndex(b) else s.loadBuf,
         loadOff := if t == LoadTx then (if Has(b, 1) then 6 else 1) else s.loadOff,
         rxBuf := if t == ReadRx then (if Has(b, 4) then 1 else 0) else s.rxBuf,
         rxOff := if t == ReadRx then 0 else s.rxOff,
         dataOnly := if t == ReadRx then Has(b, 2) else s.dataOnly)
  }

  /** The transaction state that any further byte leaves. */
  function Operand(s: Spi, b: bv8): Spi {
    match s.txn
    case NeedAddr =>
      s.(addr := b,
         txn := if s.cmd == SPI_READ then ReadData else if s.cmd == SPI_WRITE then NeedData else NeedMask)
    case NeedMask => s.(mask := b, txn := NeedData)
    case NeedData => if s.cmd == SPI_BIT_MODIFY then s.(txn := Done) else s.(addr := s.addr + 1)
    case ReadData => s.(addr := s.addr + 1)
    case LoadTx => s.(loadOff := s.loadOff + 1)
    case ReadRx => s.(rxOff := s.rxOff + 1)
    case _ => s
  }

  /** The same, case by case. */
  lemma OperandSpi(s: Spi, b: bv8)
    ensures Operand(s, b) ==
      if s.txn == NeedAddr then
        s.(addr := b, txn := if s.cmd == SPI_READ then ReadData else if s.cmd == SPI_WRITE then NeedData else NeedMask)
      else if s.txn == NeedMask then s.(mask := b, txn := NeedData)
      else if s.txn == NeedData then (if s.cmd == SPI_BIT_MODIFY then s.(txn := Done) else s.(addr := s.addr + 1))
      else if s.txn == ReadData then s.(addr := s.addr + 1)
      else if s.txn == LoadTx then s.(loadOff := s.loadOff + 1)
      else if s.txn == ReadRx then s.(rxOff := s.rxOff + 1)
      else s
  {
  }

  function NextSpi(s: Spi, b: bv8): Spi {
    if !s.csLow then s
    else
      var t := if s.pos == 0 then Command(s, b) else Operand(s, b);
      t.(pos := t.pos + 1)
  }

  /** The byte shifted out while `b` is shifted in. */
  function Output(s: Spi, r: Regs, b: bv8): bv8 {
    if !s.csLow then 0
    else if s.pos == 0 then
      if b == SPI_READ_STATUS then ReadStatus(r) else if b == SPI_RX_STATUS then RxStatus(r) else 0
    else match s.txn
      case ReadData => RegAt(r, s.addr as int)
      case ReadRx => RegAt(r, RxCtrl(s.rxBuf) + (if s.dataOnly then 6 else 1) + s.rxOff)
      case Status => ReadStatus(r)
      case RxStat => RxStatus(r)
      case _ => 0
  }

  // ----- runs -----

  datatype Event =
    | Select
    | Deselect
    | Byte(b: bv8)
    | Arrive(f: Frame)
    | HostWrite(a: nat, v: bv8)
    | TxErrors(n: int)
    | RxErrors(n: int)
    | GoBusOff
    | GoPassive
    | Recover

  /** The transaction state agrees with the command byte and with the number of bytes seen. */
  predicate PhaseInv(s: Spi) {
    && (s.csLow && s.pos == 0 ==> s.txn == Idle)
    && (s.csLow && s.pos > 0 ==> s.txn != Idle)
    && (!s.csLow ==> s.txn == Idle || s.txn == Done)
    && (s.txn == NeedAddr ==> (s.cmd == SPI_READ || s.cmd == SPI_WRITE || s.cmd == SPI_BIT_MODIFY) && s.pos == 1)
    && (s.txn == NeedMask ==> s.cmd == SPI_BIT_MODIFY && s.pos == 2)
    && (s.txn == NeedData ==> (s.cmd == SPI_WRITE && s.pos >= 2) || (s.cmd == SPI_BIT_MODIFY && s.pos == 3))
    && (s.txn == ReadData ==> s.cmd == SPI_READ && s.pos >= 2)
    && (s.txn == Status ==> s.cmd == SPI_READ_STATUS)
    && (s.txn == RxStat ==> s.cmd == SPI_RX_STATUS)
  }

  /** While a transmit buffer is loaded, target and offset follow from command and position. */
  predicate LoadInv(s: Spi) {
    s.txn == LoadTx ==>
      && IsLoadTx(s.cmd) && s.loadBuf == LoadIndex(s.cmd)
      && s.loadOff == (if Has(s.cmd, 1) then s.pos + 5 else s.pos)
  }

  /** While a receive buffer is read, source and offset follow from command and position. */
  predicate ReadInv(s: Spi) {
    s.txn == ReadRx ==>
      && IsReadRx(s.cmd) && s.rxBuf == (if Has(s.cmd, 4) then 1 else 0)
      && s.dataOnly == Has(s.cmd, 2) && s.rxOff + 1 == s.pos
  }

  predicate SpiInv(s: Spi) { PhaseInv(s) && LoadInv(s) && ReadInv(s) && (s.txn == LoadTx ==> s.loadOff > 0) }

  /** `e` does not push a WRITE burst past the register file. */
  predicate Allowed(ch: Chip, e: Event) { e.Byte? ==> WriteInFile(ch.spi) }

  function EffectOf(ch: Chip, e: Event): (f: Effect)
    requires Allowed(ch, e)
    ensures Applicable(f)
  {
    match e
    case Byte(b) => ByteEffect(ch.spi, ch.core.regs, b)
    case Arrive(f) => Receive(f)
    case HostWrite(a, v) => if a < REGS_SIZE then Write(a, v) else Nothing
    case TxErrors(n) => Errors(true, n)
    case RxErrors(n) => Errors(false, n)
    case GoBusOff => Force(true)
    case GoPassive => Force(false)
    case Recover => Revive
    case _ => Nothing
  }

  function Step(ch: Chip, e: Event): Chip
    requires Allowed(ch, e)
  {
    Chip(Apply(ch.core, EffectOf(ch, e)),
         match e
         case Select => CsLow(ch.spi)
         case Deselect => CsHigh(ch.spi)
         case Byte(b) => NextSpi(ch.spi, b)
         case _ => ch.spi)
  }

  ghost predicate Runnable(ch: Chip, es: seq<Event>)
    decreases |es|
  {
    es == [] || (Allowed(ch, es[0]) && Runnable(Step(ch, es[0]), es[1..]))
  }

  /** Every event of the run satisfies `p` in the state it meets. */
  ghost predicate Throughout(ch: Chip, es: seq<Event>, p: (Chip, Event) -> bool)
    requires Runnable(ch, es)
    decreases |es|
  {
    es == [] || (p(ch, es[0]) && Throughout(Step(ch, es[0]), es[1..], p))
  }

  /** The state after the events `es`, in order. */
  ghost function Run(ch: Chip, es: seq<Event>): Chip
    requires Runnable(ch, es)
    decreases |es|
  {
    if es == [] then ch else Run(Step(ch, es[0]), es[1..])
  }

  /** Runs grow at the end: one more event is one more step. */
  lemma {:induction false} RunAppend(ch: Chip, es: seq<Event>, e: Event)
    requires Runnable(ch, es) && Allowed(Run(ch, es), e)
    ensures Runnable(ch, es + [e]) && Run(ch, es + [e]) == Step(Run(ch, es), e)
    decreases |es|
  {
    hide Step, Allowed;
    if es == [] {
      assert [e][1..] == [];
      assert es + [e] == [e];
      assert Run(Step(ch, e), []) == Step(ch, e);
    } else {
      assert (es + [e])[1..] == es[1..] + [e];
      RunAppend(Step(ch, es[0]), es[1..], e);
    }
  }

  /** The state mcp2515_init leaves. */
  function Fresh(): Chip {
    Chip(Core(ResetRegs(), MODE_CONFIG, false, [], [], [], 0),
         Spi(false, 0, 0, 0, 0, Idle, 0, 0, 0, 0, false))
  }
}
