/** Register addresses and bit masks of the MCP2515 (data sheet DS21801G), the 128-byte
    register file, and the CAN frame that the controller exchanges with the bus. */
module Mcp2515Regs {

  const REGS_SIZE := 0x80

  const RXF0SIDH := 0x00
  const RXF1SIDH := 0x04
  const RXF2SIDH := 0x08
  const CANSTAT := 0x0E
  const CANCTRL := 0x0F
  const RXF3SIDH := 0x10
  const RXF4SIDH := 0x14
  const RXF5SIDH := 0x18
  const TEC := 0x1C
  const REC := 0x1D
  const RXM0SIDH := 0x20
  const RXM1SIDH := 0x24
  const CANINTE := 0x2B
  const CANINTF := 0x2C
  const EFLG := 0x2D
  const TXB0CTRL := 0x30
  const TXB1CTRL := 0x40
  const TXB2CTRL := 0x50
  const RXB0CTRL := 0x60
  const RXB1CTRL := 0x70

  const MODE_NORMAL: bv8 := 0
  const MODE_SLEEP: bv8 := 1
  const MODE_LOOPBACK: bv8 := 2
  const MODE_LISTENONLY: bv8 := 3
  const MODE_CONFIG: bv8 := 4

  const RX0IF: bv8 := 0x01
  const RX1IF: bv8 := 0x02
  const ERRIF: bv8 := 0x20
  const MERRF: bv8 := 0x80
  const TXREQ: bv8 := 0x08
  const TXBO: bv8 := 0x20
  const RX0OVR: bv8 := 0x40
  const RX1OVR: bv8 := 0x80
  const BUKT: bv8 := 0x04
  const RXRTR: bv8 := 0x08
  const EXIDE: bv8 := 0x08
  const DLC_RTR: bv8 := 0x40
  const RXM_FILTERED: bv8 := 0
  const RXM_STD: bv8 := 1
  const RXM_EXT: bv8 := 2
  const RXM_ANY: bv8 := 3

  type Regs = r: seq<bv8> | |r| == REGS_SIZE witness seq(REGS_SIZE, i => 0)

  type Payload = d: seq<bv8> | |d| == 8 witness [0, 0, 0, 0, 0, 0, 0, 0]

  datatype Frame = Frame(id: bv32, ext: bool, rtr: bool, dlc: bv8, data: Payload)

  /** The control register of transmit buffer n. */
  function TxCtrl(n: nat): (a: nat)
    requires n < 3
  {
    TXB0CTRL + 0x10 * n
  }

  /** The control register of receive buffer n. */
  function RxCtrl(n: nat): (a: nat)
    requires n < 2
  {
    RXB0CTRL + 0x10 * n
  }

  function RxFlag(n: nat): bv8
    requires n < 2
  {
    if n == 0 then RX0IF else RX1IF
  }

  function TxFlag(n: nat): bv8
    requires n < 3
  {
    if n == 0 then 0x04 else if n == 1 then 0x08 else 0x10
  }

  /** `r` with `bytes` written from address `at` on. */
  function Splice(r: Regs, at: nat, bytes: seq<bv8>): (s: Regs)
    requires at + |bytes| <= REGS_SIZE
    ensures forall i :: 0 <= i < REGS_SIZE ==> s[i] == if at <= i < at + |bytes| then bytes[i - at] else r[i]
  {
    r[..at] + bytes + r[at + |bytes|..]
  }

  /** The byte whose value is `v`. */
  function ToByte(v: nat): (b: bv8)
    requires v < 256
    ensures b as int == v
  {
    if v == 0 then 0 else ToByte(v - 1) + 1
  }

  function SaturatingAdd(a: bv8, n: int): (b: bv8)
    ensures 0 <= a as int + n <= 255 ==> b as int == a as int + n
    ensures a as int + n > 255 ==> b == 255
    ensures a as int + n < 0 ==> b == 0
  {
    var v := a as int + n;
    ToByte(if v < 0 then 0 else if v > 255 then 255 else v)
  }
}
