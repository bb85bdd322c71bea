/** The loopback round trip: LOAD TX BUFFER, RTS, READ RX BUFFER returns the frame. */
module Mcp2515Loopback {
  import opened Mcp2515Regs
  import opened Mcp2515Core
  import opened Mcp2515Spi
  import opened Mcp2515Routing
  import opened Mcp2515Transactions
  import opened Mcp2515Invariant

  type BufferBytes = s: seq<bv8> | |s| == 13 witness [0, 0, 0, 0, 0, 0, 0, 0, 0, 0, 0, 0, 0]

  /** What survives of 13 buffer bytes: the identifier bits that EXIDE selects, RTR and the
      length code, and the data bytes within that length. */
  function CanonicalBytes(b: BufferBytes): BufferBytes {
    var ext := Has(b[1], EXIDE);
    var dlc := b[4] & 0x0F;
    [b[0], if ext then b[1] & 0xEB else b[1] & 0xE0, if ext then b[2] else 0, if ext then b[3] else 0, b[4] & 0x4F]
    + [if dlc > 0 then b[5] else 0, if dlc > 1 then b[6] else 0, if dlc > 2 then b[7] else 0,
       if dlc > 3 then b[8] else 0, if dlc > 4 then b[9] else 0, if dlc > 5 then b[10] else 0,
       if dlc > 6 then b[11] else 0, if dlc > 7 then b[12] else 0]
  }

  // ----- encoding after decoding -----

  lemma ExtendedIdBytes(b0: bv8, b1: bv8, b2: bv8, b3: bv8, f: Frame)
    requires Has(b1, EXIDE) && Ident(f.id, f.ext) == UnpackId(b0, b1, b2, b3)
    ensures IdBytes(f) == [b0, b1 & 0xEB, b2, b3]
  {
  }

  lemma StandardIdBytes(b0: bv8, b1: bv8, b2: bv8, b3: bv8, f: Frame)
    requires !Has(b1, EXIDE) && Ident(f.id, f.ext) == UnpackId(b0, b1, b2, b3)
    ensures IdBytes(f) == [b0, b1 & 0xE0, 0, 0]
  {
  }

  lemma DlcByte(d: bv8)
    ensures ((d & 0x0F) & 0x0F) | (if Has(d, DLC_RTR) then DLC_RTR else 0) == d & 0x4F
  {
  }

  lemma ReencodeData(r: Regs, b: nat, s: BufferBytes)
    requires b + 14 <= REGS_SIZE && s == r[b + 1..b + 14]
    ensures DataBytes(FrameAt(r, b)) == CanonicalBytes(s)[5..]
  {
    hide IdentAt, UnpackId;
    var f := FrameAt(r, b);
    assert f.dlc == s[4] & 0x0F;
    assert f.data == s[5..];
  }

  lemma ReencodeHead(r: Regs, b: nat, s: BufferBytes)
    requires b + 14 <= REGS_SIZE && s == r[b + 1..b + 14]
    ensures IdBytes(FrameAt(r, b)) == CanonicalBytes(s)[..4]
  {
    hide UnpackId, IdBytes;
    var f := FrameAt(r, b);
    assert Ident(f.id, f.ext) == UnpackId(s[0], s[1], s[2], s[3]);
    if Has(s[1], EXIDE) {
      ExtendedIdBytes(s[0], s[1], s[2], s[3], f);
    } else {
      StandardIdBytes(s[0], s[1], s[2], s[3], f);
    }
  }

  /** Re-encoding a decoded buffer canonicalises it. */
  lemma ReencodeBuffer(r: Regs, b: nat)
    requires b + 14 <= REGS_SIZE
    ensures FrameBytes(FrameAt(r, b)) == CanonicalBytes(r[b + 1..b + 14])
  {
    hide IdBytes, DataBytes, IdentAt;
    var s: BufferBytes := r[b + 1..b + 14];
    var f, g := FrameAt(r, b), CanonicalBytes(s);
    ReencodeHead(r, b, s);
    ReencodeData(r, b, s);
    DlcByte(s[4]);
    assert g == g[..4] + [g[4]] + g[5..];
  }

  // ----- RTS -----

  function RtsCmd(n: TxIndex): bv8 { if n == 0 then 0x81 else if n == 1 then 0x82 else 0x84 }

  /** RTS for one buffer requests that buffer only. */
  lemma RtsRequests(ch: Chip, n: TxIndex)
    ensures Sendable(ch, [RtsCmd(n)])
    ensures Transaction(ch, [RtsCmd(n)]).core == RegWrite(ch.core, TxCtrl(n), ch.core.regs[TxCtrl(n)] | TXREQ)
  {
    hide RegWrite;
    var c1 := Opened(ch, RtsCmd(n));
    assert c1.core == RequestToSend(ch.core, RtsCmd(n));
    assert [RtsCmd(n)] + [] == [RtsCmd(n)];
    CommandFirst(ch, RtsCmd(n), []);
  }

  // ----- transmission in loopback mode -----

  /** Ready to loop a frame from buffer n. */
  predicate Looping(c: Core, n: TxIndex) {
    c.mode == MODE_LOOPBACK && !BusOff(c) && !Has(c.regs[TxCtrl(n)], TXREQ)
  }

  /** The filters, masks and modes of `r` send `f` to receive buffer m. */
  ghost predicate Lands(r: Regs, f: Frame, m: RxIndex) { if m == 0 then Takes0(r, f) else Takes1(r, f) }

  /** Nothing that routing looks at differs. */
  ghost predicate SameRouting(r: Regs, s: Regs) {
    && (forall a :: 0 <= a < CANSTAT || RXF3SIDH <= a < TEC || RXM0SIDH <= a < CANINTE ==> s[a] == r[a])
    && (forall a :: RXB0CTRL <= a < REGS_SIZE ==> s[a] == r[a])
    && (forall n: RxIndex :: Full(s, n) <==> Full(r, n))
  }

  lemma HitSame(r: Regs, s: Regs, f: Frame, k: nat)
    requires SameRouting(r, s) && k < 6
    ensures FilterHit(s, f, k) <==> FilterHit(r, f, k)
  {
    hide MatchFilter, UnpackId, Pack;
    var a, b := FilterAddr(k), if k < 2 then RXM0SIDH else RXM1SIDH;
    assert IdentAt(s, a) == IdentAt(r, a) && MaskAt(s, b) == MaskAt(r, b);
  }

  lemma LandsSame(r: Regs, s: Regs, f: Frame)
    requires SameRouting(r, s)
    ensures (Takes0(s, f) <==> Takes0(r, f)) && (Takes1(s, f) <==> Takes1(r, f))
  {
    forall k: nat | k < 6 ensures FilterHit(s, f, k) <==> FilterHit(r, f, k) {
      HitSame(r, s, f, k);
    }
    hide FilterHit, Full, TypeAdmitted, Has;
    assert HitsBuffer0(s, f) <==> HitsBuffer0(r, f);
    assert HitsBuffer1(s, f) <==> HitsBuffer1(r, f);
  }

  lemma CompletedRegs(c: Core, n: TxIndex)
    ensures var d := Completed(c, n);
      && (forall a :: 0 <= a < REGS_SIZE && a != TxCtrl(n) && a != CANINTF && a != TEC && a != EFLG ==> d.regs[a] == c.regs[a])
      && d.regs[CANINTF] == c.regs[CANINTF] | TxFlag(n) && d.regs[TxCtrl(n)] == c.regs[TxCtrl(n)] & !TXREQ
      && d.txs == c.txs
  {
    hide ErrFlags, TxFlag;
  }

  lemma CompletedBits(i: bv8, t: bv8, n: TxIndex)
    ensures Has(i | TxFlag(n), TxFlag(n)) && !Has(t & !TXREQ, TXREQ)
    ensures forall m: RxIndex :: Has(i | TxFlag(n), RxFlag(m)) <==> Has(i, RxFlag(m))
  {
  }

  lemma CompletedState(c: Core, n: TxIndex)
    ensures var d := Completed(c, n);
      && SameRouting(c.regs, d.regs)
      && Has(d.regs[CANINTF], TxFlag(n)) && !Has(d.regs[TxCtrl(n)], TXREQ)
      && d.txs == c.txs
  {
    CompletedRegs(c, n);
    CompletedBits(c.regs[CANINTF], c.regs[TxCtrl(n)], n);
    hide Completed, Has, TxFlag, RxFlag;
  }

  /** Buffer m and its flag are as they were. */
  predicate Untouched(r: Regs, s: Regs, m: RxIndex) {
    (forall a :: RxCtrl(m) <= a < RxCtrl(m) + 14 ==> s[a] == r[a]) && (Full(s, m) <==> Full(r, m))
  }

  /** Buffer m is full of the 13 bytes `image`, and the other one is as it was. */
  predicate Arrived(r: Regs, s: Regs, m: RxIndex, image: BufferBytes) {
    s[RxCtrl(m) + 1..RxCtrl(m) + 14] == image && Full(s, m) && Untouched(r, s, 1 - m)
  }

  /** The frame is in the buffer that routing selects, the other buffer is untouched; a frame
      that no buffer takes changes neither. */
  ghost predicate Landed(r: Regs, s: Regs, f: Frame, image: BufferBytes) {
    && (Lands(r, f, 0) ==> Arrived(r, s, 0, image))
    && (Lands(r, f, 1) ==> Arrived(r, s, 1, image))
    && (!Lands(r, f, 0) && !Lands(r, f, 1) ==> Untouched(r, s, 0) && Untouched(r, s, 1))
  }

  lemma UntouchedMoves(r: Regs, q: Regs, s: Regs, m: RxIndex)
    requires SameRouting(r, q) && Untouched(q, s, m)
    ensures Untouched(r, s, m)
  {
  }

  lemma LandedMoves(r: Regs, q: Regs, s: Regs, f: Frame, image: BufferBytes)
    requires SameRouting(r, q) && Landed(q, s, f, image)
    ensures Landed(r, s, f, image)
  {
    LandsSame(r, q, f);
    hide SameRouting, Untouched, Takes0, Takes1;
    if Untouched(q, s, 0) {
      UntouchedMoves(r, q, s, 0);
    }
    if Untouched(q, s, 1) {
      UntouchedMoves(r, q, s, 1);
    }
  }

  lemma StoredLands(c: Core, d: Core, f: Frame, m: RxIndex)
    requires StoredIn(c, d, f, m)
    ensures Arrived(c.regs, d.regs, m, FrameBytes(f))
  {
    hide FrameBytes, Canonical, FrameAt;
    FlagAdded(c.regs[CANINTF], m);
  }

  lemma FlagAdded(i: bv8, m: RxIndex)
    ensures Has(i | RxFlag(m), RxFlag(m)) && (Has(i | RxFlag(m), RxFlag(1 - m)) <==> Has(i, RxFlag(1 - m)))
  {
  }

  lemma RouteLands(c: Core, f: Frame)
    ensures Landed(c.regs, Route(c, f).0.regs, f, FrameBytes(f))
  {
    hide Route, FrameBytes, StoredIn, Takes0, Takes1, Overflow, Has;
    RoutingExact(c, f);
    TakesOne(c.regs, f);
    var d := Route(c, f).0;
    if Lands(c.regs, f, 0) {
      StoredLands(c, d, f, 0);
    } else if Lands(c.regs, f, 1) {
      StoredLands(c, d, f, 1);
    }
  }

  lemma TakesOne(r: Regs, f: Frame)
    ensures !(Takes0(r, f) && Takes1(r, f))
  {
  }

  lemma RouteKeepsTx(c: Core, f: Frame, n: TxIndex)
    requires Has(c.regs[CANINTF], TxFlag(n))
    ensures var d := Route(c, f).0;
      Has(d.regs[CANINTF], TxFlag(n)) && d.regs[TxCtrl(n)] == c.regs[TxCtrl(n)] && d.txs == c.txs
  {
    hide Route, FrameBytes, Takes0, Takes1, Overflow, FrameAt, Canonical, Has, TxFlag;
    RoutingExact(c, f);
    FlagSurvives(c.regs[CANINTF], n);
  }

  lemma FlagSurvives(i: bv8, n: TxIndex)
    requires Has(i, TxFlag(n))
    ensures Has(i | RxFlag(0), TxFlag(n)) && Has(i | RxFlag(1), TxFlag(n))
  {
  }

  lemma FlagCleared(i: bv8, n: TxIndex, m: RxIndex)
    ensures Has(i, TxFlag(n)) ==> Has(i & !RxFlag(m), TxFlag(n))
    ensures !Has(i & !RxFlag(m), RxFlag(m)) && (Has(i & !RxFlag(m), RxFlag(1 - m)) <==> Has(i, RxFlag(1 - m)))
  {
  }

  /** The request is complete and nothing has reached the bus. */
  predicate Sent(c: Core, d: Core, n: TxIndex) {
    Has(d.regs[CANINTF], TxFlag(n)) && !Has(d.regs[TxCtrl(n)], TXREQ) && d.txs == c.txs
  }

  lemma UpdateIntKeeps(c: Core)
    ensures UpdateInt(c).regs == c.regs && UpdateInt(c).txs == c.txs
  {
  }

  lemma LoopbackDelivers(c: Core, n: TxIndex)
    ensures var d, f := DeliverLoopback(c, n), Extract(c.regs, n);
      Landed(c.regs, d.regs, f, FrameBytes(f)) && Sent(c, d, n)
  {
    hide Completed, Route, Extract, FrameBytes, Landed, SameRouting, UpdateInt, DeliverLoopback, Has, TxFlag;
    var e, f := Completed(c, n), Extract(c.regs, n);
    CompletedState(c, n);
    RouteLands(e, f);
    RouteKeepsTx(e, f, n);
    LandedMoves(c.regs, e.regs, Route(e, f).0.regs, f, FrameBytes(f));
    UpdateIntKeeps(Route(e, f).0);
    DeliverIs(c, n);
  }

  lemma DeliverIs(c: Core, n: TxIndex)
    ensures DeliverLoopback(c, n) == UpdateInt(Route(Completed(c, n), Extract(c.regs, n)).0)
  {
  }

  /** TXBnCTRL with TXREQ set. */
  function Requesting(c: Core, n: TxIndex): Core {
    c.(regs := c.regs[TxCtrl(n) := c.regs[TxCtrl(n)] | TXREQ])
  }

  lemma RequestDelivers(c: Core, n: TxIndex)
    requires Looping(c, n)
    ensures RegWrite(c, TxCtrl(n), c.regs[TxCtrl(n)] | TXREQ) == DeliverLoopback(Requesting(c, n), n)
  {
    hide DeliverLoopback, DeliverNormal;
    var v := c.regs[TxCtrl(n)] | TXREQ;
    assert RegWrite(c, TxCtrl(n), v) == WriteTxCtrl(c, n, v);
  }

  lemma RequestingSame(c: Core, n: TxIndex)
    ensures var d := Requesting(c, n);
      && SameRouting(c.regs, d.regs) && d.txs == c.txs
      && d.regs[TxCtrl(n) + 1..TxCtrl(n) + 14] == c.regs[TxCtrl(n) + 1..TxCtrl(n) + 14]
      && Extract(d.regs, n) == Extract(c.regs, n)
  {
    var a, d := TxCtrl(n), Requesting(c, n);
    assert d.regs[a + 1..a + 14] == c.regs[a + 1..a + 14] && d.regs[a + 6..a + 14] == c.regs[a + 6..a + 14];
    hide UnpackId, Has;
  }

  /** RTS in loopback mode: what the receive buffers hold afterwards. */
  lemma RtsLoops(ch: Chip, n: TxIndex)
    requires Looping(ch.core, n)
    ensures Sendable(ch, [RtsCmd(n)])
    ensures var c, d := ch.core, Transaction(ch, [RtsCmd(n)]).core;
      && Landed(c.regs, d.regs, Extract(c.regs, n), CanonicalBytes(c.regs[TxCtrl(n) + 1..TxCtrl(n) + 14]))
      && Sent(c, d, n)
  {
    hide Transaction, Extract, DeliverLoopback, FrameBytes, FrameAt, CanonicalBytes, RegWrite;
    hide Requesting, Landed, SameRouting, Looping;
    var c, a := ch.core, TxCtrl(n);
    var d := Requesting(c, n);
    RtsRequests(ch, n);
    RequestDelivers(c, n);
    RequestingSame(c, n);
    LoopbackDelivers(d, n);
    LandedMoves(c.regs, d.regs, DeliverLoopback(d, n).regs, Extract(c.regs, n), FrameBytes(Extract(d.regs, n)));
    ExtractIs(d.regs, n);
    ReencodeBuffer(d.regs, a);
  }

  lemma ExtractIs(r: Regs, n: TxIndex)
    ensures Extract(r, n) == FrameAt(r, TxCtrl(n))
  {
  }

  // ----- load, request, read -----

  /** The frame that 13 buffer bytes describe. */
  function FrameOf(b: BufferBytes): Frame {
    var i := UnpackId(b[0], b[1], b[2], b[3]);
    Frame(i.id, i.ext, Has(b[4], DLC_RTR), b[4] & 0x0F, b[5..])
  }

  function Loaded(c: Core, n: TxIndex, bytes: BufferBytes): Core {
    c.(regs := Splice(c.regs, TxCtrl(n) + 1, bytes))
  }

  lemma LoadedState(c: Core, n: TxIndex, bytes: BufferBytes)
    requires Looping(c, n)
    ensures var d := Loaded(c, n, bytes);
      && Looping(d, n) && d.regs[TxCtrl(n) + 1..TxCtrl(n) + 14] == bytes && SameRouting(c.regs, d.regs)
      && Extract(d.regs, n) == FrameOf(bytes)
  {
    hide UnpackId;
    var a, d := TxCtrl(n), Loaded(c, n, bytes);
    assert d.regs[a + 6..a + 14] == bytes[5..];
  }

  lemma ClearRegs(c: Core, m: RxIndex)
    ensures var d := ClearRxFlag(c, m);
      d.regs == c.regs[CANINTF := c.regs[CANINTF] & !RxFlag(m)] && d.txs == c.txs
  {
  }

  lemma ClearOutcome(c: Core, n: TxIndex, m: RxIndex)
    requires Has(c.regs[CANINTF], TxFlag(n))
    ensures var d := ClearRxFlag(c, m);
      && !Full(d.regs, m) && Untouched(c.regs, d.regs, 1 - m)
      && Has(d.regs[CANINTF], TxFlag(n)) && d.regs[TxCtrl(n)] == c.regs[TxCtrl(n)] && d.txs == c.txs
  {
    hide Has, TxFlag, RxFlag, ClearRxFlag;
    ClearRegs(c, m);
    FlagCleared(c.regs[CANINTF], n, m);
    var r, d := c.regs, ClearRxFlag(c, m).regs;
    assert d[CANINTF] == r[CANINTF] & !RxFlag(m);
    assert forall a :: 0 <= a < REGS_SIZE && a != CANINTF ==> d[a] == r[a];
  }

  /** Load and request in loopback mode, for any 13 bytes: the frame they describe lands, in
      canonical form, in the receive buffer that filters, modes and rollover select, and the
      other buffer is not touched; a frame that neither takes leaves both untouched. TXnIF is
      set, TXREQ clear, and nothing is put on the bus. */
  lemma LoopbackLands(ch: Chip, n: TxIndex, bytes: BufferBytes)
    requires Looping(ch.core, n)
    ensures var load := [LoadCmd(n, false)] + bytes;
      && Sendable(ch, load)
      && var c1 := Transaction(ch, load);
      && Sendable(c1, [RtsCmd(n)])
      && var d := Transaction(c1, [RtsCmd(n)]).core;
      && Landed(ch.core.regs, d.regs, FrameOf(bytes), CanonicalBytes(bytes))
      && Sent(ch.core, d, n)
  {
    hide Transaction, Looping, CanonicalBytes, Sendable, LoadCmd, RtsCmd, Landed, SameRouting;
    hide FrameOf, Extract, Splice, Has, TxFlag;
    var load := [LoadCmd(n, false)] + bytes;
    LoadTxStores(ch, n, false, bytes);
    LoadedState(ch.core, n, bytes);
    var c1 := Transaction(ch, load);
    assert c1.core == Loaded(ch.core, n, bytes);
    RtsLoops(c1, n);
    LandedMoves(ch.core.regs, c1.core.regs, Transaction(c1, [RtsCmd(n)]).core.regs, FrameOf(bytes), CanonicalBytes(bytes));
  }

  /** Reading the buffer the frame landed in gives the canonical form of the loaded bytes and
      clears its flag, and touches neither the other buffer nor the transmit flags. */
  lemma LoopbackRoundTrip(ch: Chip, n: TxIndex, bytes: BufferBytes, m: RxIndex, dummies: BufferBytes)
    requires Looping(ch.core, n) && Lands(ch.core.regs, FrameOf(bytes), m)
    ensures var load := [LoadCmd(n, false)] + bytes; var read := [ReadRxCmd(m, false)] + dummies;
      && Sendable(ch, load)
      && var c1 := Transaction(ch, load);
      && Sendable(c1, [RtsCmd(n)])
      && var c2 := Transaction(c1, [RtsCmd(n)]);
      && Sendable(c2, read)
      && Answer(c2, read)[1..] == CanonicalBytes(bytes)
      && var d := Transaction(c2, read).core;
      && !Full(d.regs, m) && Untouched(ch.core.regs, d.regs, 1 - m) && Sent(ch.core, d, n)
  {
    hide Transaction, Looping, CanonicalBytes, Answer, Sendable, ClearRxFlag, LoadCmd, RtsCmd, ReadRxCmd;
    hide Full, Takes0, Takes1, FrameOf, Has, TxFlag, Untouched;
    var read := [ReadRxCmd(m, false)] + dummies;
    LoopbackLands(ch, n, bytes);
    var c2 := Transaction(Transaction(ch, [LoadCmd(n, false)] + bytes), [RtsCmd(n)]);
    ReadRxBurst(c2, m, false, dummies);
    ClearOutcome(c2.core, n, m);
    UntouchedChain(ch.core.regs, c2.core.regs, ClearRxFlag(c2.core, m).regs, 1 - m);
  }

  lemma UntouchedChain(r: Regs, q: Regs, s: Regs, m: RxIndex)
    ensures Untouched(r, q, m) && Untouched(q, s, m) ==> Untouched(r, s, m)
  {
  }
}
