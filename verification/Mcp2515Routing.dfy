/** Acceptance filtering and receive routing, against definitions that do not mention how
    the controller computes them. */
module Mcp2515Routing {
  import opened Mcp2515Regs
  import opened Mcp2515Core

  // ----- identifiers -----

  /** A frame as a receive buffer can represent it. */
  predicate WellFormed(f: Frame) {
    && f.id <= (if f.ext then 0x1FFF_FFFF else 0x7FF) && f.dlc <= 15 && f.data == DataBytes(f)
  }

  /** `f` cut down to what the 13 bytes of a buffer hold. */
  function Canonical(f: Frame): (g: Frame)
    ensures WellFormed(f) ==> g == f
  {
    f.(id := f.id & (if f.ext then 0x1FFF_FFFF else 0x7FF), dlc := f.dlc & 0x0F, data := DataBytes(f))
  }

  /** `b` is the 14-byte image in `r` of a buffer holding `f`. */
  predicate Holds(r: Regs, b: nat, f: Frame)
    requires b + 14 <= REGS_SIZE
  {
    r[b + 1..b + 14] == FrameBytes(f)
  }

  lemma ExtendedId(f: Frame)
    requires f.ext
    ensures var s := IdBytes(f); f.id & 0x1FFF_FFFF == Pack(s[0], s[1], s[2], s[3])
  {
  }

  lemma ExtendedMark(f: Frame)
    requires f.ext
    ensures Has(IdBytes(f)[1], EXIDE)
  {
  }

  lemma UnpackExtended(s0: bv8, s1: bv8, s2: bv8, s3: bv8)
    requires Has(s1, EXIDE)
    ensures UnpackId(s0, s1, s2, s3) == Ident(Pack(s0, s1, s2, s3), true)
  {
  }

  lemma ExtendedIdRoundTrip(f: Frame)
    requires f.ext
    ensures var s := IdBytes(f); UnpackId(s[0], s[1], s[2], s[3]) == Ident(f.id & 0x1FFF_FFFF, true)
  {
    hide Pack, IdBytes, Has, UnpackId;
    var s := IdBytes(f);
    ExtendedId(f);
    ExtendedMark(f);
    UnpackExtended(s[0], s[1], s[2], s[3]);
  }

  lemma StandardIdRoundTrip(f: Frame)
    requires !f.ext
    ensures var s := IdBytes(f); UnpackId(s[0], s[1], s[2], s[3]) == Ident(f.id & 0x7FF, false)
  {
    hide Pack;
  }

  lemma StoredIdRoundTrip(f: Frame)
    ensures var s := IdBytes(f); UnpackId(s[0], s[1], s[2], s[3]) == Ident(Canonical(f).id, f.ext)
  {
    hide UnpackId;
    if f.ext {
      ExtendedIdRoundTrip(f);
    } else {
      StandardIdRoundTrip(f);
    }
  }

  lemma DlcRoundTrip(dlc: bv8, rtr: bool)
    ensures var d := (dlc & 0x0F) | (if rtr then DLC_RTR else 0);
      d & 0x0F == dlc & 0x0F && (Has(d, DLC_RTR) <==> rtr)
  {
  }

  /** Decoding a stored frame gives the frame back. */
  lemma StoredFrameRoundTrip(r: Regs, b: nat, f: Frame)
    requires b + 14 <= REGS_SIZE && Holds(r, b, f)
    ensures FrameAt(r, b) == Canonical(f)
  {
    hide UnpackId, IdBytes, DataBytes, Has;
    var s := r[b + 1..b + 14];
    StoredIdRoundTrip(f);
    assert forall i :: 0 <= i < 4 ==> r[b + 1 + i] == s[i] == IdBytes(f)[i];
    assert r[b + 5] == s[4] == (f.dlc & 0x0F) | (if f.rtr then DLC_RTR else 0);
    DlcRoundTrip(f.dlc, f.rtr);
    assert r[b + 6..b + 14] == s[5..] == DataBytes(f);
  }

  // ----- filters -----

  /** Filter and frame are of the same kind and agree on every identifier bit that the mask
      selects, compared register by register; a standard frame has 11 identifier bits. */
  predicate BitsAgree(f: Frame, a0: bv8, a1: bv8, a2: bv8, a3: bv8, m0: bv8, m1: bv8, m2: bv8, m3: bv8) {
    var s := IdBytes(f);
    && (Has(a1, EXIDE) <==> f.ext)
    && (s[0] ^ a0) & m0 == 0
    && (s[1] ^ a1) & m1 & (if f.ext then 0xE3 else 0xE0) == 0
    && (f.ext ==> (s[2] ^ a2) & m2 == 0 && (s[3] ^ a3) & m3 == 0)
  }

  predicate SelectedBitsAgree(r: Regs, f: Frame, filter: nat, mask: nat)
    requires filter + 4 <= REGS_SIZE && mask + 4 <= REGS_SIZE
  {
    BitsAgree(f, r[filter], r[filter + 1], r[filter + 2], r[filter + 3],
              r[mask], r[mask + 1], r[mask + 2], r[mask + 3])
  }

  function MaskAddr(k: nat): nat { if k < 2 then RXM0SIDH else RXM1SIDH }

  lemma ExtendedBits(s0: bv8, s1: bv8, s2: bv8, s3: bv8, a0: bv8, a1: bv8, a2: bv8, a3: bv8,
                     m0: bv8, m1: bv8, m2: bv8, m3: bv8)
    requires (Pack(s0, s1, s2, s3) ^ Pack(a0, a1, a2, a3)) & Pack(m0, m1, m2, m3) == 0
    ensures (s0 ^ a0) & m0 == 0 && (s1 ^ a1) & m1 & 0xE3 == 0 && (s2 ^ a2) & m2 == 0 && (s3 ^ a3) & m3 == 0
  {
  }

  lemma ExtendedBitsBack(s0: bv8, s1: bv8, s2: bv8, s3: bv8, a0: bv8, a1: bv8, a2: bv8, a3: bv8,
                         m0: bv8, m1: bv8, m2: bv8, m3: bv8)
    requires (s0 ^ a0) & m0 == 0 && (s1 ^ a1) & m1 & 0xE3 == 0 && (s2 ^ a2) & m2 == 0 && (s3 ^ a3) & m3 == 0
    ensures (Pack(s0, s1, s2, s3) ^ Pack(a0, a1, a2, a3)) & Pack(m0, m1, m2, m3) == 0
  {
  }

  lemma ExtendedFilter(r: Regs, a: nat)
    requires a + 4 <= REGS_SIZE && Has(r[a + 1], EXIDE)
    ensures IdentAt(r, a) == Ident(Pack(r[a], r[a + 1], r[a + 2], r[a + 3]), true)
    ensures EncodedId(IdentAt(r, a)) == Pack(r[a], r[a + 1], r[a + 2], r[a + 3])
  {
  }

  /** The filter comparison of an extended frame, on the packed registers. */
  lemma ExtendedMatch(r: Regs, f: Frame, a: nat)
    requires a + 4 <= REGS_SIZE && f.ext && Has(r[a + 1], EXIDE)
    ensures IdentAt(r, a).ext
    ensures var s := IdBytes(f);
      EncodedId(Ident(f.id, true)) ^ EncodedId(IdentAt(r, a))
      == Pack(s[0], s[1], s[2], s[3]) ^ Pack(r[a], r[a + 1], r[a + 2], r[a + 3])
  {
    ExtendedId(f);
    ExtendedFilter(r, a);
  }

  lemma ExtendedHitAgrees(r: Regs, f: Frame, a: nat, m: nat)
    requires a + 4 <= REGS_SIZE && m + 4 <= REGS_SIZE && f.ext && Has(r[a + 1], EXIDE)
    requires MatchFilter(Ident(f.id, f.ext), IdentAt(r, a), MaskAt(r, m))
    ensures SelectedBitsAgree(r, f, a, m)
  {
    hide EncodedId, IdentAt, Pack, IdBytes;
    var s := IdBytes(f);
    ExtendedMatch(r, f, a);
    ExtendedBits(s[0], s[1], s[2], s[3], r[a], r[a + 1], r[a + 2], r[a + 3], r[m], r[m + 1], r[m + 2], r[m + 3]);
  }

  lemma ExtendedAgreeHits(r: Regs, f: Frame, a: nat, m: nat)
    requires a + 4 <= REGS_SIZE && m + 4 <= REGS_SIZE && f.ext && Has(r[a + 1], EXIDE)
    requires SelectedBitsAgree(r, f, a, m)
    ensures MatchFilter(Ident(f.id, f.ext), IdentAt(r, a), MaskAt(r, m))
  {
    hide EncodedId, IdentAt, Pack, IdBytes;
    var s := IdBytes(f);
    ExtendedMatch(r, f, a);
    ExtendedBitsBack(s[0], s[1], s[2], s[3], r[a], r[a + 1], r[a + 2], r[a + 3], r[m], r[m + 1], r[m + 2], r[m + 3]);
  }

  /** A standard identifier in two registers, aligned as the filters are. */
  function StandardId(b0: bv8, b1: bv8): bv32 {
    ((((b0 as bv32) << 3) | ((b1 as bv32) >> 5)) & 0x7FF) << 18
  }

  function StandardXor(id: bv32, a0: bv8, a1: bv8): bv32 {
    ((id & 0x7FF) << 18) ^ StandardId(a0, a1)
  }

  lemma StandardFilter(r: Regs, a: nat)
    requires a + 4 <= REGS_SIZE && !Has(r[a + 1], EXIDE)
    ensures !IdentAt(r, a).ext && EncodedId(IdentAt(r, a)) == StandardId(r[a], r[a + 1])
  {
  }

  lemma StandardMatch(r: Regs, f: Frame, a: nat)
    requires a + 4 <= REGS_SIZE && !Has(r[a + 1], EXIDE)
    ensures !IdentAt(r, a).ext
    ensures EncodedId(Ident(f.id, false)) ^ EncodedId(IdentAt(r, a)) == StandardXor(f.id, r[a], r[a + 1])
  {
    StandardFilter(r, a);
  }

  lemma StandardBits(id: bv32, a0: bv8, a1: bv8, m0: bv8, m1: bv8, m2: bv8, m3: bv8)
    requires StandardXor(id, a0, a1) & Pack(m0, m1, m2, m3) == 0
    ensures (((id >> 3) & 0xFF) as bv8 ^ a0) & m0 == 0 && ((((id & 7) as bv8) << 5) ^ a1) & m1 & 0xE0 == 0
  {
  }

  lemma StandardBitsBack(id: bv32, a0: bv8, a1: bv8, m0: bv8, m1: bv8, m2: bv8, m3: bv8)
    requires (((id >> 3) & 0xFF) as bv8 ^ a0) & m0 == 0 && ((((id & 7) as bv8) << 5) ^ a1) & m1 & 0xE0 == 0
    ensures StandardXor(id, a0, a1) & Pack(m0, m1, m2, m3) == 0
  {
  }

  lemma StandardHitAgrees(r: Regs, f: Frame, a: nat, m: nat)
    requires a + 4 <= REGS_SIZE && m + 4 <= REGS_SIZE && !f.ext && !Has(r[a + 1], EXIDE)
    requires MatchFilter(Ident(f.id, f.ext), IdentAt(r, a), MaskAt(r, m))
    ensures SelectedBitsAgree(r, f, a, m)
  {
    hide EncodedId, IdentAt, Pack, StandardXor;
    StandardMatch(r, f, a);
    StandardBits(f.id, r[a], r[a + 1], r[m], r[m + 1], r[m + 2], r[m + 3]);
  }

  lemma StandardAgreeHits(r: Regs, f: Frame, a: nat, m: nat)
    requires a + 4 <= REGS_SIZE && m + 4 <= REGS_SIZE && !f.ext && !Has(r[a + 1], EXIDE)
    requires SelectedBitsAgree(r, f, a, m)
    ensures MatchFilter(Ident(f.id, f.ext), IdentAt(r, a), MaskAt(r, m))
  {
    hide EncodedId, IdentAt, Pack, StandardXor;
    StandardMatch(r, f, a);
    StandardBitsBack(f.id, r[a], r[a + 1], r[m], r[m + 1], r[m + 2], r[m + 3]);
  }

  lemma HitAgrees(r: Regs, f: Frame, k: nat)
    requires k < 6
    ensures FilterHit(r, f, k) <==> SelectedBitsAgree(r, f, FilterAddr(k), MaskAddr(k))
  {
    hide Pack, EncodedId, IdBytes;
    var a, m := FilterAddr(k), MaskAddr(k);
    if f.ext && Has(r[a + 1], EXIDE) {
      if FilterHit(r, f, k) {
        ExtendedHitAgrees(r, f, a, m);
      }
      if SelectedBitsAgree(r, f, a, m) {
        ExtendedAgreeHits(r, f, a, m);
      }
    } else if !f.ext && !Has(r[a + 1], EXIDE) {
      if FilterHit(r, f, k) {
        StandardHitAgrees(r, f, a, m);
      }
      if SelectedBitsAgree(r, f, a, m) {
        StandardAgreeHits(r, f, a, m);
      }
    }
  }

  /** Where filter k and its mask are. */
  const FILTERS: seq<nat> := [0x00, 0x04, 0x08, 0x10, 0x14, 0x18]
  const MASKS: seq<nat> := [0x20, 0x20, 0x24, 0x24, 0x24, 0x24]

  lemma Tables(k: nat)
    requires k < 6
    ensures FILTERS[k] == FilterAddr(k) && MASKS[k] == MaskAddr(k)
  {
  }

  /** A filter lets exactly the frames of its kind through that agree on the selected bits. */
  lemma FilterHitMeans(r: Regs, f: Frame, k: nat)
    requires k < 6
    ensures FilterHit(r, f, k) <==> SelectedBitsAgree(r, f, FILTERS[k], MASKS[k])
  {
    Tables(k);
    hide FilterHit, SelectedBitsAgree, FilterAddr, MaskAddr;
    HitAgrees(r, f, k);
  }

  lemma MaskedAlike(s: bv8, a: bv8, b: bv8, m: bv8, n: bv8)
    requires (a ^ b) & 0xE8 == 0 && (m ^ n) & 0xE0 == 0
    ensures (s ^ a) & m & 0xE0 == (s ^ b) & n & 0xE0 && (Has(a, EXIDE) <==> Has(b, EXIDE))
  {
  }

  /** For a standard frame the EID part of masks and filters does not matter. */
  lemma StandardIgnoresEid(r: Regs, q: Regs, f: Frame, k: nat)
    requires k < 6 && !f.ext
    requires r[FilterAddr(k)] == q[FilterAddr(k)] && r[MaskAddr(k)] == q[MaskAddr(k)]
    requires (r[FilterAddr(k) + 1] ^ q[FilterAddr(k) + 1]) & 0xE8 == 0
    requires (r[MaskAddr(k) + 1] ^ q[MaskAddr(k) + 1]) & 0xE0 == 0
    ensures FilterHit(r, f, k) <==> FilterHit(q, f, k)
  {
    hide FilterHit;
    var a, m, s := FilterAddr(k), MaskAddr(k), IdBytes(f);
    HitAgrees(r, f, k);
    HitAgrees(q, f, k);
    MaskedAlike(s[1], r[a + 1], q[a + 1], r[m + 1], q[m + 1]);
    assert SelectedBitsAgree(r, f, a, m) <==> SelectedBitsAgree(q, f, a, m);
  }

  /** The search reports the lowest matching filter. */
  lemma {:induction false} FirstHitIsLowest(r: Regs, f: Frame, k: nat)
    requires k <= 6
    ensures var h := FirstHit(r, f, k);
      && (h < 0 <==> forall j :: k <= j < 6 ==> !FilterHit(r, f, j))
      && (h >= 0 ==> k <= h < 6 && FilterHit(r, f, h) && forall j :: k <= j < h ==> !FilterHit(r, f, j))
    decreases 6 - k
  {
    if k < 6 && !FilterHit(r, f, k) {
      FirstHitIsLowest(r, f, k + 1);
    }
  }

  // ----- admission -----

  ghost predicate HitsBuffer0(r: Regs, f: Frame) { exists k: nat :: k < 2 && FilterHit(r, f, k) }

  ghost predicate HitsBuffer1(r: Regs, f: Frame) { exists k: nat :: 2 <= k < 6 && FilterHit(r, f, k) }

  predicate Full(r: Regs, n: nat)
    requires n < 2
  {
    Has(r[CANINTF], RxFlag(n))
  }

  ghost predicate Takes0(r: Regs, f: Frame) {
    && !Full(r, 0)
    && (RxMode(r, 0) == RXM_ANY || (TypeAdmitted(RxMode(r, 0), f.ext) && HitsBuffer0(r, f)))
  }

  ghost predicate Takes1(r: Regs, f: Frame) {
    && !Takes0(r, f) && !Full(r, 1) && TypeAdmitted(RxMode(r, 1), f.ext)
    && (RxMode(r, 1) == RXM_ANY
        || (if HitsBuffer0(r, f) then Has(r[RXB0CTRL], BUKT) else HitsBuffer1(r, f)))
  }

  /** The overflow bits of a dropped frame. RX0OVR also rises for frames that no filter of
      RXB0 matches, and a frame lost only for want of BUKT raises nothing. */
  function Overflow(r: Regs, f: Frame): bv8 {
    var shut := !TypeAdmitted(RxMode(r, 1), f.ext);
    (if Full(r, 0) && (shut || Full(r, 1)) then RX0OVR else 0)
    | (if !shut && Full(r, 1) then RX1OVR else 0)
  }

  lemma JudgeMeans(r: Regs, f: Frame)
    ensures var v := Judge(r, f);
      && (v.Store? && v.n == 0 <==> Takes0(r, f)) && (v.Store? && v.n == 1 <==> Takes1(r, f))
      && (v.Drop? ==> v.overflow == Overflow(r, f))
  {
    FirstHitIsLowest(r, f, 0);
    var h := FirstHit(r, f, 0);
    assert HitsBuffer0(r, f) <==> 0 <= h < 2;
    assert !HitsBuffer0(r, f) ==> (HitsBuffer1(r, f) <==> h >= 2);
  }

  lemma OverflowBits(r: Regs, f: Frame)
    ensures var shut := !TypeAdmitted(RxMode(r, 1), f.ext);
      && (Has(Overflow(r, f), RX0OVR) <==> Full(r, 0) && (shut || Full(r, 1)))
      && (Has(Overflow(r, f), RX1OVR) <==> !shut && Full(r, 1))
      && (Overflow(r, f) == 0 <==> if shut then !Full(r, 0) else !Full(r, 1))
  {
  }

  /** Exactly when routing, once reached, drops a frame with no overflow bit raised: no buffer
      takes it, and RXB1 is free if it admits the frame's kind, else RXB0 is. */
  lemma SilentDropExact(r: Regs, f: Frame)
    ensures Judge(r, f) == Drop(0) <==>
      && !Takes0(r, f) && !Takes1(r, f)
      && (if TypeAdmitted(RxMode(r, 1), f.ext) then !Full(r, 1) else !Full(r, 0))
  {
    hide Judge, Takes0, Takes1, Overflow;
    JudgeMeans(r, f);
    OverflowBits(r, f);
  }

  /** For a frame that matches RXF0 or RXF1 while RXB0 is full that means: RXB1 is free and admits
      its kind, but neither receives anything nor takes RXB0's overflow. */
  lemma MatchLostSilently(r: Regs, f: Frame)
    requires HitsBuffer0(r, f) && Full(r, 0)
    ensures Judge(r, f) == Drop(0) <==>
      && TypeAdmitted(RxMode(r, 1), f.ext) && !Full(r, 1)
      && RxMode(r, 1) != RXM_ANY && !Has(r[RXB0CTRL], BUKT)
  {
    hide Judge, RxMode, HitsBuffer0, HitsBuffer1, Full;
    SilentDropExact(r, f);
  }

  /** A register file that is zero but for CANINTF: filtered buffers, filters that let every
      standard frame through, and no rollover. */
  function OnlyFlags(flags: bv8): Regs {
    var zero: Regs := seq(REGS_SIZE, i => 0);
    zero[CANINTF := flags]
  }

  lemma OnlyFlagsModes(flags: bv8)
    ensures var r := OnlyFlags(flags);
      && RxMode(r, 0) == 0 && RxMode(r, 1) == 0 && r[RXB0CTRL] == 0
      && forall k: nat, f: Frame :: k < 6 && f.id == 0 ==> (FilterHit(r, f, k) <==> !f.ext)
  {
    ZeroIdent();
    hide UnpackId, EncodedId, Pack;
    var r := OnlyFlags(flags);
    forall k: nat, f: Frame | k < 6 && f.id == 0 ensures FilterHit(r, f, k) <==> !f.ext {
      assert IdentAt(r, FilterAddr(k)) == Ident(0, false);
    }
  }

  lemma ZeroIdent()
    ensures UnpackId(0, 0, 0, 0) == Ident(0, false) && EncodedId(Ident(0, false)) == 0
  {
  }

  lemma FlagExamples()
    ensures Has(RX0IF, RX0IF) && !Has(RX0IF, RX1IF) && Has(RX1IF, RX1IF) && !Has(RX1IF, RX0IF) && !Has(0, BUKT) && !Has(0, RX1OVR)
  {
  }

  // ----- routing -----

  /** The bits of the control register of buffer n that a stored frame leaves alone: all but
      RXRTR and the filter number. In RXB0 the rollover bit BUKT is one of them. */
  function Settings(n: nat): bv8 { if n == 0 then 0xF6 else 0xF0 }

  /** `d` is `c` with `f` stored in buffer n, its flag raised, and nothing else touched. */
  ghost predicate StoredIn(c: Core, d: Core, f: Frame, n: nat)
    requires n < 2
  {
    && Holds(d.regs, RxCtrl(n), f)
    && FrameAt(d.regs, RxCtrl(n)) == Canonical(f)
    && d.regs[CANINTF] == c.regs[CANINTF] | RxFlag(n)
    && d.got == c.got + [(n, f)]
    && (forall a :: 0 <= a < REGS_SIZE && a != CANINTF && !(RxCtrl(n) <= a < RxCtrl(n) + 14) ==> d.regs[a] == c.regs[a])
    && d.regs[RxCtrl(n)] & Settings(n) == c.regs[RxCtrl(n)] & Settings(n)
    && (Has(d.regs[RxCtrl(n)], RXRTR) <==> f.rtr)
    && d.mode == c.mode && d.txs == c.txs && d.sent == c.sent
  }

  lemma CtrlBits(prior: bv8, n: nat, f: Frame, filter: bv8)
    ensures var ctrl := RxCtrlByte(prior, n, f, filter);
      ctrl & Settings(n) == prior & Settings(n) && (Has(ctrl, RXRTR) <==> f.rtr)
  {
  }

  lemma SpliceReads(r: Regs, b: nat, image: seq<bv8>, flags: bv8)
    requires CANINTF < b <= REGS_SIZE - 14 && |image| == 14
    ensures var d := Splice(r, b, image)[CANINTF := flags];
      d[b] == image[0] && d[b + 1..b + 14] == image[1..]
  {
    hide Splice;
    var d := Splice(r, b, image)[CANINTF := flags];
    forall i | 0 <= i < 13 ensures d[b + 1..b + 14][i] == image[1..][i] {
    }
  }

  lemma DepositHolds(c: Core, n: nat, f: Frame, filter: bv8)
    requires n < 2
    ensures var d := Deposit(c, n, f, filter).regs;
      && Holds(d, RxCtrl(n), f)
      && d[RxCtrl(n)] == RxCtrlByte(c.regs[RxCtrl(n)], n, f, filter)
  {
    hide FrameBytes, RxCtrlByte, Splice;
    var image := [RxCtrlByte(c.regs[RxCtrl(n)], n, f, filter)] + FrameBytes(f);
    SpliceReads(c.regs, RxCtrl(n), image, Splice(c.regs, RxCtrl(n), image)[CANINTF] | RxFlag(n));
  }

  lemma DepositStores(c: Core, n: nat, f: Frame, filter: bv8)
    requires n < 2
    ensures StoredIn(c, Deposit(c, n, f, filter), f, n)
  {
    DepositHolds(c, n, f, filter);
    CtrlBits(c.regs[RxCtrl(n)], n, f, filter);
    StoredFrameRoundTrip(Deposit(c, n, f, filter).regs, RxCtrl(n), f);
  }

  /** An accepted frame raises exactly one flag that was clear and lands, decodable, in the
      buffer that type, filters and BUKT select; a dropped one changes only overflow bits. */
  lemma RoutingExact(c: Core, f: Frame)
    ensures var (d, accepted) := Route(c, f);
      && (accepted <==> Takes0(c.regs, f) || Takes1(c.regs, f))
      && (Takes0(c.regs, f) ==> !Full(c.regs, 0) && StoredIn(c, d, f, 0))
      && (Takes1(c.regs, f) ==> !Full(c.regs, 1) && StoredIn(c, d, f, 1))
      && (!accepted ==> d == c.(regs := c.regs[EFLG := c.regs[EFLG] | Overflow(c.regs, f)]))
  {
    hide Settings;
    JudgeMeans(c.regs, f);
    var v := Judge(c.regs, f);
    if v.Store? {
      DepositStores(c, v.n, f, v.filter);
    }
  }

  /** From the bus: an accepted frame is routed as above and then lowers a non-zero REC by
      one; a controller that is asleep, being configured or bus-off takes no notice. */
  lemma ReceptionExact(c: Core, f: Frame)
    ensures var (d, accepted) := RxFrame(c, f);
      var deaf := c.mode == MODE_SLEEP || c.mode == MODE_CONFIG || BusOff(c);
      && (accepted <==> !deaf && (Takes0(c.regs, f) || Takes1(c.regs, f)))
      && (accepted ==>
            var n := if Takes0(c.regs, f) then 0 else 1;
            && !Full(c.regs, n) && d.regs[CANINTF] == c.regs[CANINTF] | RxFlag(n)
            && FrameAt(d.regs, RxCtrl(n)) == Canonical(f)
            && d.regs[REC] as int == (if c.regs[REC] == 0 then 0 else c.regs[REC] as int - 1)
            && (forall a :: RxCtrl(1 - n) <= a < RxCtrl(1 - n) + 14 ==> d.regs[a] == c.regs[a]))
      && (!accepted && !deaf ==> d == c.(regs := c.regs[EFLG := c.regs[EFLG] | Overflow(c.regs, f)]))
      && (deaf ==> d == c)
      && d.txs == c.txs && d.sent == c.sent
  {
    hide Route, CountDown, Takes0, Takes1, Overflow, FrameAt, Canonical, Holds, Full, RxMode;
    RoutingExact(c, f);
    var e := Route(c, f).0;
    if RxFrame(c, f).1 {
      var n := if Takes0(c.regs, f) then 0 else 1;
      CountDownSparesBuffers(e, n);
    }
  }

  lemma CountDownSparesBuffers(c: Core, n: nat)
    requires n < 2
    ensures var d := CountDown(c, REC);
      && d.regs[CANINTF] == c.regs[CANINTF] && d.txs == c.txs && d.sent == c.sent
      && d.regs[REC] as int == (if c.regs[REC] == 0 then 0 else c.regs[REC] as int - 1)
      && (forall a :: RXB0CTRL <= a < REGS_SIZE ==> d.regs[a] == c.regs[a])
      && FrameAt(d.regs, RxCtrl(n)) == FrameAt(c.regs, RxCtrl(n))
  {
    var d := CountDown(c, REC);
    assert forall a :: RXB0CTRL <= a < REGS_SIZE ==> d.regs[a] == c.regs[a];
    assert d.regs[RxCtrl(n) + 6..RxCtrl(n) + 14] == c.regs[RxCtrl(n) + 6..RxCtrl(n) + 14];
  }

  // ----- lost frames, at the bus -----

  /** The controller takes no notice of the bus. */
  predicate Deaf(c: Core) { c.mode == MODE_SLEEP || c.mode == MODE_CONFIG || BusOff(c) }

  lemma CountDownOverflow(c: Core)
    ensures CountDown(c, REC).regs[EFLG] & 0xC0 == c.regs[EFLG] & 0xC0
  {
  }

  lemma OverflowOr(e: bv8, x: bv8)
    ensures Has(e | x, RX0OVR) <==> Has(e, RX0OVR) || Has(x, RX0OVR)
    ensures Has(e | x, RX1OVR) <==> Has(e, RX1OVR) || Has(x, RX1OVR)
    ensures e & 0xC0 == 0 && x & 0x3F == 0 ==> (e | x == e <==> x == 0)
  {
  }

  lemma OverflowHigh(e: bv8, d: bv8)
    requires d & 0xC0 == e & 0xC0
    ensures (Has(d, RX0OVR) <==> Has(e, RX0OVR)) && (Has(d, RX1OVR) <==> Has(e, RX1OVR))
  {
  }

  /** The three fates of a frame from the bus, as far as the error flags show. */
  lemma ReceptionFlags(c: Core, f: Frame)
    ensures var (d, accepted) := RxFrame(c, f);
      && (Deaf(c) ==> !accepted && d == c)
      && (accepted ==> d != c && d.regs[EFLG] & 0xC0 == c.regs[EFLG] & 0xC0)
      && (!Deaf(c) && !accepted ==> d == c.(regs := c.regs[EFLG := c.regs[EFLG] | Overflow(c.regs, f)]))
  {
    hide Route, CountDown, Overflow, FrameAt, Takes0, Takes1, Holds, Canonical;
    RoutingExact(c, f);
    var e := Route(c, f).0;
    CountDownOverflow(e);
    CountDownGot(e);
  }

  lemma CountDownGot(c: Core)
    ensures CountDown(c, REC).got == c.got
  {
  }

  /** Each overflow bit rises exactly then: the controller listens, no buffer takes the frame,
      and for RX0OVR RXB0 is full and RXB1 full or closed to the frame's kind, for RX1OVR RXB1
      is full and open to it. Whether a filter matches plays no part beyond RXB0's admission. */
  lemma OverflowExact(c: Core, f: Frame)
    ensures var d, r := RxFrame(c, f).0, c.regs;
      && (Has(d.regs[EFLG], RX0OVR) <==>
            (Has(r[EFLG], RX0OVR)
             || (!Deaf(c) && Full(r, 0) && (TypeAdmitted(RxMode(r, 1), f.ext) ==> Full(r, 1)))))
      && (Has(d.regs[EFLG], RX1OVR) <==>
            (Has(r[EFLG], RX1OVR)
             || (!Deaf(c) && !Takes0(r, f) && TypeAdmitted(RxMode(r, 1), f.ext) && Full(r, 1))))
  {
    hide RxFrame, Overflow, RxMode, Has, Deaf;
    var (d, accepted) := RxFrame(c, f);
    ReceptionExact(c, f);
    ReceptionFlags(c, f);
    OverflowBits(c.regs, f);
    OverflowOr(c.regs[EFLG], Overflow(c.regs, f));
    DeafIs(c);
    if accepted {
      OverflowHigh(c.regs[EFLG], d.regs[EFLG]);
    }
  }

  lemma DeafIs(c: Core)
    ensures Deaf(c) <==> c.mode == MODE_SLEEP || c.mode == MODE_CONFIG || BusOff(c)
  {
  }

  /** With both overflow bits clear, exactly the frames that change nothing at all: the
      controller is deaf, or no buffer takes the frame and RXB1, if open to its kind, or else
      RXB0 is free. */
  lemma SilentLossExact(c: Core, f: Frame)
    ensures c.regs[EFLG] & 0xC0 == 0 ==>
      (RxFrame(c, f) == (c, false) <==>
         Deaf(c) || (!Takes0(c.regs, f) && !Takes1(c.regs, f)
                     && if TypeAdmitted(RxMode(c.regs, 1), f.ext) then !Full(c.regs, 1) else !Full(c.regs, 0)))
  {
    hide RxFrame, Overflow, RxMode, Has, Deaf, Takes0, Takes1, Full;
    ReceptionExact(c, f);
    ReceptionFlags(c, f);
    OverflowBits(c.regs, f);
    OverflowSmall(c.regs, f);
    OverflowOr(c.regs[EFLG], Overflow(c.regs, f));
    DeafIs(c);
    var r := c.regs;
    assert c.(regs := r[EFLG := r[EFLG] | Overflow(r, f)]) == c <==> r[EFLG] | Overflow(r, f) == r[EFLG] by {
      FlagSame(r, r[EFLG] | Overflow(r, f));
    }
  }

  lemma FlagSame(r: Regs, v: bv8)
    ensures r[EFLG := v] == r <==> v == r[EFLG]
  {
    assert r[EFLG := r[EFLG]] == r;
    assert r[EFLG := v][EFLG] == v;
  }

  lemma OverflowSmall(r: Regs, f: Frame)
    ensures Overflow(r, f) & 0x3F == 0
  {
  }

  /** A frame from the bus that matches RXF0 or RXF1 while RXB0 is full is lost without a trace
      exactly when the controller is deaf, or RXB1 is free and open to its kind but neither
      receives anything nor takes RXB0's overflow. */
  lemma MatchLossExact(c: Core, f: Frame)
    ensures HitsBuffer0(c.regs, f) && Full(c.regs, 0) && c.regs[EFLG] & 0xC0 == 0 ==>
      (RxFrame(c, f) == (c, false) <==>
         Deaf(c) || (TypeAdmitted(RxMode(c.regs, 1), f.ext) && !Full(c.regs, 1)
                     && RxMode(c.regs, 1) != RXM_ANY && !Has(c.regs[RXB0CTRL], BUKT)))
  {
    hide RxFrame, RxMode, HitsBuffer0, HitsBuffer1, Full, Deaf, Has, Judge, Takes0, Takes1;
    SilentLossExact(c, f);
    SilentDropExact(c.regs, f);
    if HitsBuffer0(c.regs, f) && Full(c.regs, 0) {
      MatchLostSilently(c.regs, f);
    }
  }

  /** Listening, RXB0 full, RXB1 free: a standard frame that matches RXF0 is lost, and nothing at
      all changes. */
  lemma SilentLossExample(c: Core, f: Frame)
    requires c.regs == OnlyFlags(RX0IF) && c.mode == MODE_NORMAL && f.id == 0 && !f.ext
    ensures FilterHit(c.regs, f, 0) && Full(c.regs, 0) && !Deaf(c) && RxFrame(c, f) == (c, false)
  {
    var r := c.regs;
    OnlyFlagsModes(RX0IF);
    assert Full(r, 0) && !Full(r, 1) && !Has(r[RXB0CTRL], BUKT) && r[EFLG] & 0xC0 == 0 by {
      FlagExamples();
    }
    assert !Deaf(c);
    hide OnlyFlags, RxFrame, RxMode, Full, FilterHit, Deaf, Has;
    assert HitsBuffer0(r, f) by {
      var zero: nat := 0;
      assert FilterHit(r, f, zero);
    }
    MatchLossExact(c, f);
  }

  /** Listening, RXB0 free, RXB1 full: an extended frame that no filter matches raises RX1OVR. */
  lemma FalseOverflowExample(c: Core, f: Frame)
    requires c.regs == OnlyFlags(RX1IF) && c.mode == MODE_NORMAL && f.id == 0 && f.ext
    ensures (forall k: nat :: k < 6 ==> !FilterHit(c.regs, f, k))
    ensures !Has(c.regs[EFLG], RX1OVR) && Has(RxFrame(c, f).0.regs[EFLG], RX1OVR)
  {
    var r := c.regs;
    OnlyFlagsModes(RX1IF);
    assert !Full(r, 0) && Full(r, 1) && !Has(r[EFLG], RX1OVR) by {
      FlagExamples();
    }
    assert !Deaf(c);
    hide OnlyFlags, RxFrame, RxMode, Full, FilterHit, Deaf, Has;
    OverflowExact(c, f);
  }

  /** Asleep, the same frame is lost whatever the buffers hold. */
  lemma DeafLossExample(c: Core, f: Frame)
    requires c.mode == MODE_SLEEP && Full(c.regs, 0) && Full(c.regs, 1)
    ensures RxFrame(c, f) == (c, false) && Judge(c.regs, f) != Drop(0)
  {
    hide Judge, Has, RxMode;
    ReceptionFlags(c, f);
    SilentDropExact(c.regs, f);
  }
}
