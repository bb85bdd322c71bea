/** Complete SPI transactions: bursts refine single accesses, and a frame written, sent and
    read back in loopback mode survives. */
module Mcp2515Transactions {
  import opened Mcp2515Regs
  import opened Mcp2515Core
  import opened Mcp2515Spi
  import opened Mcp2515Routing

  // ----- transactions -----

  ghost predicate Feedable(ch: Chip, bytes: seq<bv8>)
    decreases |bytes|
  {
    bytes == [] || (Allowed(ch, Byte(bytes[0])) && Feedable(Step(ch, Byte(bytes[0])), bytes[1..]))
  }

  ghost function Feed(ch: Chip, bytes: seq<bv8>): Chip
    requires Feedable(ch, bytes)
    decreases |bytes|
  {
    if bytes == [] then ch else Feed(Step(ch, Byte(bytes[0])), bytes[1..])
  }

  /** The bytes shifted out meanwhile. */
  ghost function Replies(ch: Chip, bytes: seq<bv8>): (out: seq<bv8>)
    requires Feedable(ch, bytes)
    ensures |out| == |bytes|
    decreases |bytes|
  {
    if bytes == [] then []
    else [Output(ch.spi, ch.core.regs, bytes[0])] + Replies(Step(ch, Byte(bytes[0])), bytes[1..])
  }

  ghost predicate Sendable(ch: Chip, bytes: seq<bv8>) { Feedable(Step(ch, Select), bytes) }

  /** Chip select low, `bytes`, chip select high. */
  ghost function Transaction(ch: Chip, bytes: seq<bv8>): Chip
    requires Sendable(ch, bytes)
  {
    Step(Feed(Step(ch, Select), bytes), Deselect)
  }

  ghost function Answer(ch: Chip, bytes: seq<bv8>): seq<bv8>
    requires Sendable(ch, bytes)
  {
    Replies(Step(ch, Select), bytes)
  }

  /** Feeding a command byte and then the rest. */
  lemma FeedFirst(ch: Chip, b: bv8, rest: seq<bv8>)
    requires Allowed(ch, Byte(b))
    ensures var d := Step(ch, Byte(b));
      && (Feedable(ch, [b] + rest) <==> Feedable(d, rest))
      && (Feedable(d, rest) ==> Feed(ch, [b] + rest) == Feed(d, rest)
                                && Replies(ch, [b] + rest) == [Output(ch.spi, ch.core.regs, b)] + Replies(d, rest))
  {
    assert ([b] + rest)[1..] == rest;
  }

  // ----- WRITE -----

  /** Writes of `data` to consecutive registers. */
  function WriteAll(c: Core, a: nat, data: seq<bv8>): Core
    requires a + |data| <= REGS_SIZE
    decreases |data|
  {
    if data == [] then c else WriteAll(RegWrite(c, a, data[0]), a + 1, data[1..])
  }

  predicate Writing(s: Spi) { s.csLow && s.pos >= 2 && s.txn == NeedData && s.cmd == SPI_WRITE }

  lemma Increment(a: bv8)
    ensures (a + 1) as int == (a as int + 1) % 256
    ensures a < 0x80 <==> a as int < 0x80
  {
  }

  lemma {:induction false} FeedWrite(ch: Chip, data: seq<bv8>)
    requires Writing(ch.spi) && ch.spi.addr as int + |data| <= REGS_SIZE
    ensures Feedable(ch, data) && Feed(ch, data).core == WriteAll(ch.core, ch.spi.addr as int, data)
    decreases |data|
  {
    hide RegWrite;
    if data != [] {
      Increment(ch.spi.addr);
      var d := Step(ch, Byte(data[0]));
      assert d.core == RegWrite(ch.core, ch.spi.addr as int, data[0]);
      FeedWrite(d, data[1..]);
    }
  }

  lemma SelectStarts(ch: Chip)
    ensures var d := Step(ch, Select); d.core == ch.core && d.spi.csLow && d.spi.pos == 0
  {
  }

  /** The state right after the command byte of a transaction. */
  function Opened(ch: Chip, cmd: bv8): Chip { Step(Step(ch, Select), Byte(cmd)) }

  lemma CommandFirst(ch: Chip, cmd: bv8, rest: seq<bv8>)
    requires Feedable(Opened(ch, cmd), rest)
    ensures Sendable(ch, [cmd] + rest)
    ensures Transaction(ch, [cmd] + rest).core == Feed(Opened(ch, cmd), rest).core
    ensures Answer(ch, [cmd] + rest)[1..] == Replies(Opened(ch, cmd), rest)
  {
    SelectStarts(ch);
    FeedFirst(Step(ch, Select), cmd, rest);
  }

  /** After a WRITE or READ command and its address. */
  lemma Addressed(ch: Chip, cmd: bv8, a: bv8)
    requires cmd == SPI_WRITE || cmd == SPI_READ
    ensures var d := Opened(ch, cmd);
      && Allowed(d, Byte(a))
      && var e := Step(d, Byte(a));
         && e.core == ch.core && e.spi.csLow && e.spi.pos == 2 && e.spi.cmd == cmd && e.spi.addr == a
         && e.spi.txn == if cmd == SPI_WRITE then NeedData else ReadData
  {
    var d := Opened(ch, cmd);
    assert d.core == ch.core && d.spi.csLow && d.spi.pos == 1 && d.spi.cmd == cmd && d.spi.txn == NeedAddr;
  }

  /** A WRITE burst inside the register file is a sequence of register writes. */
  lemma WriteBurst(ch: Chip, a: bv8, data: seq<bv8>)
    requires a as int + |data| <= REGS_SIZE
    ensures Sendable(ch, [SPI_WRITE, a] + data)
    ensures Transaction(ch, [SPI_WRITE, a] + data).core == WriteAll(ch.core, a as int, data)
  {
    hide Step, WriteAll, Opened;
    Addressed(ch, SPI_WRITE, a);
    FeedWrite(Step(Opened(ch, SPI_WRITE), Byte(a)), data);
    FeedFirst(Opened(ch, SPI_WRITE), a, data);
    CommandFirst(ch, SPI_WRITE, [a] + data);
    assert [SPI_WRITE, a] + data == [SPI_WRITE] + ([a] + data);
  }

  /** `data` written by one-byte WRITE transactions. */
  ghost function Singles(ch: Chip, a: bv8, data: seq<bv8>): Chip
    requires a as int + |data| <= REGS_SIZE
    decreases |data|
  {
    if data == [] then ch
    else
      WriteBurst(ch, a, data[..1]);
      Increment(a);
      Singles(Transaction(ch, [SPI_WRITE, a] + data[..1]), a + 1, data[1..])
  }

  /** A WRITE burst equals one-byte WRITE transactions: same registers, mode, interrupt level
      and callback traces. */
  lemma {:induction false} BurstRefinesSingles(ch: Chip, a: bv8, data: seq<bv8>)
    requires a as int + |data| <= REGS_SIZE
    ensures Sendable(ch, [SPI_WRITE, a] + data)
    ensures Transaction(ch, [SPI_WRITE, a] + data).core == Singles(ch, a, data).core
  {
    WriteBurst(ch, a, data);
    SinglesAre(ch, a, data);
  }

  lemma {:induction false} SinglesAre(ch: Chip, a: bv8, data: seq<bv8>)
    requires a as int + |data| <= REGS_SIZE
    ensures Singles(ch, a, data).core == WriteAll(ch.core, a as int, data)
    decreases |data|
  {
    hide RegWrite, Step, Transaction;
    if data != [] {
      WriteBurst(ch, a, data[..1]);
      Increment(a);
      var d := Transaction(ch, [SPI_WRITE, a] + data[..1]);
      assert WriteAll(ch.core, a as int, data[..1]) == RegWrite(ch.core, a as int, data[0]);
      SinglesAre(d, a + 1, data[1..]);
    }
  }

  // ----- READ -----

  predicate Reading(s: Spi) { s.csLow && s.pos >= 2 && s.txn == ReadData }

  /** `n` registers from address `a` on, wrapping after 0xFF; nothing is there above 0x7F. */
  function ReadOut(r: Regs, a: bv8, n: nat): (out: seq<bv8>)
    ensures |out| == n
    decreases n
  {
    if n == 0 then [] else [RegAt(r, a as int)] + ReadOut(r, a + 1, n - 1)
  }

  lemma SliceFirst(r: Regs, k: nat, n: nat)
    requires 0 < n && k + n <= REGS_SIZE
    ensures r[k..k + n] == [RegAt(r, k)] + r[k + 1..k + 1 + (n - 1)]
  {
  }

  /** Inside the file a READ burst is a slice of it. */
  lemma {:induction false} ReadOutInFile(r: Regs, a: bv8, k: nat, n: nat)
    requires a as int == k && k + n <= REGS_SIZE
    ensures ReadOut(r, a, n) == r[k..k + n]
    decreases n
  {
    if n > 0 {
      Increment(a);
      ReadOutInFile(r, a + 1, k + 1, n - 1);
      SliceFirst(r, k, n);
    }
  }

  lemma ReadStep(ch: Chip, b: bv8)
    requires Reading(ch.spi)
    ensures Allowed(ch, Byte(b)) && Output(ch.spi, ch.core.regs, b) == RegAt(ch.core.regs, ch.spi.addr as int)
    ensures var d := Step(ch, Byte(b)); d.core == ch.core && Reading(d.spi) && d.spi.addr == ch.spi.addr + 1
  {
  }

  lemma {:induction false} FeedRead(ch: Chip, dummies: seq<bv8>)
    requires Reading(ch.spi)
    ensures Feedable(ch, dummies) && Feed(ch, dummies).core == ch.core
    ensures Replies(ch, dummies) == ReadOut(ch.core.regs, ch.spi.addr, |dummies|)
    decreases |dummies|
  {
    hide Step, Output, Allowed, Reading;
    if dummies != [] {
      ReadStep(ch, dummies[0]);
      FeedRead(Step(ch, Byte(dummies[0])), dummies[1..]);
    }
  }

  /** A READ burst returns consecutive registers and changes none. */
  lemma ReadBurst(ch: Chip, a: bv8, dummies: seq<bv8>)
    ensures Sendable(ch, [SPI_READ, a] + dummies)
    ensures Transaction(ch, [SPI_READ, a] + dummies).core == ch.core
    ensures Answer(ch, [SPI_READ, a] + dummies)[2..] == ReadOut(ch.core.regs, a, |dummies|)
  {
    hide Step, ReadOut, Opened, Output, Feed;
    Addressed(ch, SPI_READ, a);
    var c2 := Step(Opened(ch, SPI_READ), Byte(a));
    FeedRead(c2, dummies);
    FeedFirst(Opened(ch, SPI_READ), a, dummies);
    CommandFirst(ch, SPI_READ, [a] + dummies);
    assert [SPI_READ, a] + dummies == [SPI_READ] + ([a] + dummies);
    AfterTwo(Answer(ch, [SPI_READ, a] + dummies), Replies(Opened(ch, SPI_READ), [a] + dummies), Replies(c2, dummies));
  }

  lemma AfterTwo(answer: seq<bv8>, tail: seq<bv8>, last: seq<bv8>)
    requires |answer| == |last| + 2 && |tail| == |last| + 1 && answer[1..] == tail && tail[1..] == last
    ensures answer[2..] == last
  {
    assert answer[2..] == answer[1..][1..];
  }

  // ----- LOAD TX BUFFER -----

  function LoadCmd(n: TxIndex, dataOnly: bool): bv8 {
    (if n == 0 then 0x40 else if n == 1 then 0x42 else 0x44) | (if dataOnly then 1 else 0)
  }

  predicate Loading(s: Spi) { s.csLow && s.pos > 0 && s.txn == LoadTx }

  lemma LoadStep(ch: Chip, b: bv8)
    requires Loading(ch.spi) && LoadAddr(ch.spi) < REGS_SIZE
    ensures Allowed(ch, Byte(b))
    ensures var d := Step(ch, Byte(b));
      d.core == LoadByte(ch.core, LoadAddr(ch.spi), b) && Loading(d.spi) && LoadAddr(d.spi) == LoadAddr(ch.spi) + 1
  {
  }

  lemma SpliceNext(r: Regs, a: nat, data: seq<bv8>)
    requires data != [] && a + |data| <= REGS_SIZE
    ensures Splice(r[a := data[0]], a + 1, data[1..]) == Splice(r, a, data)
  {
  }

  lemma {:induction false} FeedLoad(ch: Chip, data: seq<bv8>)
    requires Loading(ch.spi) && LoadAddr(ch.spi) + |data| <= REGS_SIZE
    ensures Feedable(ch, data)
    ensures Feed(ch, data).core == ch.core.(regs := Splice(ch.core.regs, LoadAddr(ch.spi), data))
    decreases |data|
  {
    if data == [] {
      assert Splice(ch.core.regs, LoadAddr(ch.spi), data) == ch.core.regs;
    } else {
      hide Step, Allowed, Loading, LoadAddr, Splice;
      LoadStep(ch, data[0]);
      FeedLoad(Step(ch, Byte(data[0])), data[1..]);
      SpliceNext(ch.core.regs, LoadAddr(ch.spi), data);
    }
  }

  lemma LoadStarts(ch: Chip, n: TxIndex, dataOnly: bool)
    ensures var d := Opened(ch, LoadCmd(n, dataOnly));
      && d.core == ch.core && d.spi.csLow && d.spi.pos == 1 && d.spi.txn == LoadTx
      && LoadAddr(d.spi) == TxCtrl(n) + if dataOnly then 6 else 1
  {
  }

  /** Plain registers: a write has no side effect. */
  predicate Plain(a: nat) {
    a < REGS_SIZE && !IsTxCtrl(a) && a !in {CANCTRL, CANSTAT, CANINTF, CANINTE, TEC, REC}
  }

  lemma {:induction false} WriteAllPlain(c: Core, a: nat, data: seq<bv8>)
    requires a + |data| <= REGS_SIZE && forall i :: a <= i < a + |data| ==> Plain(i)
    ensures WriteAll(c, a, data) == c.(regs := Splice(c.regs, a, data))
    decreases |data|
  {
    if data == [] {
      assert Splice(c.regs, a, data) == c.regs;
    } else {
      assert Plain(a);
      var d := c.(regs := c.regs[a := data[0]]);
      assert RegWrite(c, a, data[0]) == d;
      WriteAllPlain(d, a + 1, data[1..]);
      assert Splice(d.regs, a + 1, data[1..]) == Splice(c.regs, a, data);
    }
  }

  lemma TxBufferPlain(n: TxIndex)
    ensures forall i :: TxCtrl(n) < i < TxCtrl(n) + 14 ==> Plain(i)
  {
  }

  function LoadStart(n: TxIndex, dataOnly: bool): nat { TxCtrl(n) + if dataOnly then 6 else 1 }

  lemma LoadTxStores(ch: Chip, n: TxIndex, dataOnly: bool, data: seq<bv8>)
    requires |data| <= if dataOnly then 8 else 13
    ensures Sendable(ch, [LoadCmd(n, dataOnly)] + data)
    ensures Transaction(ch, [LoadCmd(n, dataOnly)] + data).core
      == ch.core.(regs := Splice(ch.core.regs, LoadStart(n, dataOnly), data))
  {
    hide Step, Opened, LoadCmd;
    var cmd := LoadCmd(n, dataOnly);
    LoadStarts(ch, n, dataOnly);
    FeedLoad(Opened(ch, cmd), data);
    CommandFirst(ch, cmd, data);
  }

  /** LOAD TX BUFFER equals a WRITE burst at SIDH (or at D0), and touches nothing else. */
  lemma LoadTxBurst(ch: Chip, n: TxIndex, dataOnly: bool, data: seq<bv8>)
    requires |data| <= if dataOnly then 8 else 13
    ensures var a := LoadStart(n, dataOnly); var bytes := [LoadCmd(n, dataOnly)] + data;
      && Sendable(ch, bytes)
      && Transaction(ch, bytes).core == ch.core.(regs := Splice(ch.core.regs, a, data))
      && Transaction(ch, bytes).core == WriteAll(ch.core, a, data)
  {
    hide Transaction, WriteAll, LoadCmd, Plain;
    LoadTxStores(ch, n, dataOnly, data);
    TxBufferPlain(n);
    WriteAllPlain(ch.core, LoadStart(n, dataOnly), data);
  }

  // ----- READ RX BUFFER -----

  function ReadRxCmd(n: RxIndex, dataOnly: bool): bv8 {
    (if n == 0 then 0x90 else 0x94) | (if dataOnly then 2 else 0)
  }

  function ReadRxAddr(s: Spi): nat { RxCtrl(s.rxBuf) + (if s.dataOnly then 6 else 1) + s.rxOff }

  lemma ReadRxStarts(ch: Chip, n: RxIndex, dataOnly: bool)
    ensures var d := Opened(ch, ReadRxCmd(n, dataOnly));
      && d.core == ch.core && d.spi.csLow && d.spi.pos == 1 && d.spi.txn == ReadRx
      && d.spi.rxBuf == n && d.spi.dataOnly == dataOnly && d.spi.rxOff == 0
  {
  }

  lemma ReadRxStep(ch: Chip, b: bv8)
    requires ch.spi.csLow && ch.spi.pos > 0 && ch.spi.txn == ReadRx
    ensures Allowed(ch, Byte(b)) && Output(ch.spi, ch.core.regs, b) == RegAt(ch.core.regs, ReadRxAddr(ch.spi))
    ensures var d := Step(ch, Byte(b));
      && d.spi == ch.spi.(rxOff := ch.spi.rxOff + 1, pos := ch.spi.pos + 1)
      && d.core == if ch.spi.rxOff + 1 >= ReadRxTotal(ch.spi) then ClearRxFlag(ch.core, ch.spi.rxBuf) else ch.core
  {
  }

  lemma {:induction false} FeedReadRx(ch: Chip, dummies: seq<bv8>)
    requires ch.spi.csLow && ch.spi.pos > 0 && ch.spi.txn == ReadRx
    requires ch.spi.rxOff + |dummies| <= ReadRxTotal(ch.spi)
    ensures Feedable(ch, dummies)
    ensures Replies(ch, dummies) == ch.core.regs[ReadRxAddr(ch.spi)..ReadRxAddr(ch.spi) + |dummies|]
    ensures Feed(ch, dummies).core ==
      if |dummies| > 0 && ch.spi.rxOff + |dummies| == ReadRxTotal(ch.spi) then ClearRxFlag(ch.core, ch.spi.rxBuf)
      else ch.core
    decreases |dummies|
  {
    hide ClearRxFlag, Step, Output, Allowed;
    if dummies != [] {
      ReadRxStep(ch, dummies[0]);
      var d, rest, a := Step(ch, Byte(dummies[0])), dummies[1..], ReadRxAddr(ch.spi);
      SliceFirst(ch.core.regs, a, |dummies|);
      hide RegAt, ReadRxTotal, RxCtrl;
      if rest == [] {
        assert Feed(d, rest) == d && Replies(d, rest) == [] && ch.core.regs[a + 1..a + 1 + |rest|] == [];
      } else {
        assert d.core == ch.core && ReadRxAddr(d.spi) == a + 1;
        FeedReadRx(d, rest);
      }
    }
  }

  /** READ RX BUFFER returns the registers a READ burst would, and clears RXnIF with its last byte. */
  lemma ReadRxBurst(ch: Chip, n: RxIndex, dataOnly: bool, dummies: seq<bv8>)
    requires |dummies| <= if dataOnly then 8 else 13
    ensures var a := RxCtrl(n) + if dataOnly then 6 else 1; var bytes := [ReadRxCmd(n, dataOnly)] + dummies;
      && Sendable(ch, bytes)
      && Answer(ch, bytes)[1..] == ch.core.regs[a..a + |dummies|]
      && Transaction(ch, bytes).core ==
           if |dummies| == (if dataOnly then 8 else 13) then ClearRxFlag(ch.core, n) else ch.core
  {
    hide Step, ClearRxFlag, Opened, ReadRxCmd;
    var cmd := ReadRxCmd(n, dataOnly);
    ReadRxStarts(ch, n, dataOnly);
    FeedReadRx(Opened(ch, cmd), dummies);
    CommandFirst(ch, cmd, dummies);
  }
}
