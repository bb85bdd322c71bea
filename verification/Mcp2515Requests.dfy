/** When the controller transmits: exactly when a register write raises TXREQ of a buffer while
    the controller is in Normal mode and not bus-off. */
module Mcp2515Requests {
  import opened Mcp2515Regs
  import opened Mcp2515Core
  import opened Mcp2515Spi
  import opened Mcp2515Routing
  import opened Mcp2515Invariant
  import opened Mcp2515Commands

  /** Buffer n hands `frame` to the bus. */
  datatype Sending = Sending(n: TxIndex, frame: Frame)

  function Frames(s: seq<Sending>): (fs: seq<Frame>)
    ensures |fs| == |s| && forall k :: 0 <= k < |s| ==> fs[k] == s[k].frame
  {
    seq(|s|, k requires 0 <= k < |s| => s[k].frame)
  }

  lemma FramesJoin(a: seq<Sending>, b: seq<Sending>)
    ensures Frames(a + b) == Frames(a) + Frames(b)
  {
  }

  /** A controller on the bus that may send. */
  predicate Sends(c: Core) { c.mode == MODE_NORMAL && !BusOff(c) }

  function BufferOf(a: nat): (n: TxIndex)
    requires IsTxCtrl(a)
    ensures TxCtrl(n) == a && n == (a - TXB0CTRL) / 0x10
  {
    if a == TXB0CTRL then 0 else if a == TXB1CTRL then 1 else 2
  }

  /** What writing v to register a sends: the buffer's frame on a rising TXREQ, else nothing. */
  function WriteSends(c: Core, a: nat, v: bv8): seq<Sending>
    requires a < REGS_SIZE
  {
    if IsTxCtrl(a) && !Has(c.regs[a], TXREQ) && Has(v, TXREQ) && Sends(c)
    then [Sending(BufferOf(a), Extract(c.regs, BufferOf(a)))]
    else []
  }

  // ----- one write -----

  lemma RouteSpares(c: Core, f: Frame)
    ensures var d := Route(c, f).0;
      d.txs == c.txs && d.mode == c.mode && forall a :: TXB0CTRL <= a < RXB0CTRL ==> d.regs[a] == c.regs[a]
  {
    hide RxCtrlByte, FrameBytes;
    var v := Judge(c.regs, f);
    assert v.Store? ==> RxCtrl(v.n) >= RXB0CTRL;
  }

  lemma CountDownSpares(c: Core, counter: nat)
    requires counter == TEC || counter == REC
    ensures var d := CountDown(c, counter);
      && (forall a :: TXB0CTRL <= a < REGS_SIZE ==> d.regs[a] == c.regs[a])
      && d.mode == c.mode && d.txs == c.txs
    ensures counter == TEC && !BusOff(c) ==> !BusOff(CountDown(c, counter))
  {
  }

  lemma SameExtract(r: Regs, v: bv8, n: TxIndex)
    ensures Extract(r[TxCtrl(n) := v], n) == Extract(r, n)
  {
    var q := r[TxCtrl(n) := v];
    assert q[TxCtrl(n) + 6..TxCtrl(n) + 14] == r[TxCtrl(n) + 6..TxCtrl(n) + 14];
  }

  /** Only register `keep` of the transmit buffers changes. */
  predicate SparesBuffers(c: Core, d: Core, keep: nat) {
    d.mode == c.mode && forall a :: TXB0CTRL <= a < RXB0CTRL && a != keep ==> d.regs[a] == c.regs[a]
  }

  lemma LoopbackSpares(c: Core, n: TxIndex)
    ensures SparesBuffers(c, DeliverLoopback(c, n), TxCtrl(n)) && DeliverLoopback(c, n).txs == c.txs
  {
    hide CountDown, Route, Extract;
    CountDownSpares(MarkComplete(c, n), TEC);
    RouteSpares(CountDown(MarkComplete(c, n), TEC), Extract(c.regs, n));
  }

  lemma NormalSpares(c: Core, n: TxIndex)
    requires !BusOff(c)
    ensures var d := DeliverNormal(c, n);
      SparesBuffers(c, d, TxCtrl(n)) && !BusOff(d) && d.txs == c.txs + [Extract(c.regs, n)]
  {
    hide CountDown, Extract;
    CountDownSpares(MarkComplete(c, n), TEC);
  }

  lemma TxCtrlSends(c: Core, n: TxIndex, v: bv8)
    ensures var d := WriteTxCtrl(c, n, v);
      && d.txs == c.txs + Frames(WriteSends(c, TxCtrl(n), v))
      && SparesBuffers(c, d, TxCtrl(n))
      && (c.mode == MODE_NORMAL ==> (BusOff(d) <==> BusOff(c)))
  {
    hide DeliverLoopback, DeliverNormal, Extract;
    var e := c.(regs := c.regs[TxCtrl(n) := v]);
    SameExtract(c.regs, v, n);
    assert BusOff(e) <==> BusOff(c);
    LoopbackSpares(e, n);
    if !BusOff(e) {
      NormalSpares(e, n);
    }
  }

  /** Every register write, in every state: a rising TXREQ in Normal mode outside bus-off sends
      the buffer's frame, and no other write sends anything. */
  lemma WriteSendsExactly(c: Core, a: nat, v: bv8)
    requires a < REGS_SIZE
    ensures RegWrite(c, a, v).txs == c.txs + Frames(WriteSends(c, a, v))
    ensures forall n: TxIndex :: TxCtrl(n) != a ==> RegWrite(c, a, v).regs[TxCtrl(n)] == c.regs[TxCtrl(n)]
  {
    hide WriteTxCtrl, Extract;
    if a == CANCTRL {
      ModeRequestExact(c, v);
    } else if IsTxCtrl(a) {
      TxCtrlSends(c, BufferOf(a), v);
      assert RegWrite(c, a, v) == WriteTxCtrl(c, BufferOf(a), v);
    } else {
      assert RegWrite(c, a, v).txs == c.txs;
    }
  }

  // ----- RTS -----

  function RequestSends(c: Core, b: bv8, n: TxIndex): seq<Sending> {
    if Has(b, RtsBit(n)) then WriteSends(c, TxCtrl(n), c.regs[TxCtrl(n)] | TXREQ) else []
  }

  /** What RTS sends: the frames of the selected buffers that were not yet requested, in
      ascending order of the buffer index. */
  function RtsSends(c: Core, b: bv8): seq<Sending> {
    RequestSends(c, b, 0) + RequestSends(c, b, 1) + RequestSends(c, b, 2)
  }

  lemma RequestSpares(c: Core, b: bv8, n: TxIndex)
    ensures var d := RequestTx(c, b, n);
      && d.txs == c.txs + Frames(RequestSends(c, b, n))
      && SparesBuffers(c, d, TxCtrl(n))
      && (c.mode == MODE_NORMAL ==> (BusOff(d) <==> BusOff(c)))
  {
    hide WriteTxCtrl, Extract, WriteSends, BusOff;
    var v := c.regs[TxCtrl(n)] | TXREQ;
    TxCtrlSends(c, n, v);
    assert RegWrite(c, TxCtrl(n), v) == WriteTxCtrl(c, n, v) by {
      ControlWrite(c, n, v);
    }
    assert c.txs + Frames([]) == c.txs;
  }

  lemma ControlWrite(c: Core, n: TxIndex, v: bv8)
    ensures RegWrite(c, TxCtrl(n), v) == WriteTxCtrl(c, n, v)
  {
    hide WriteTxCtrl;
  }

  /** A request for one buffer does not change what a request for another sends. */
  lemma RequestsIndependent(c: Core, b: bv8, n: TxIndex, k: TxIndex)
    requires n != k
    ensures RequestSends(RequestTx(c, b, n), b, k) == RequestSends(c, b, k)
  {
    hide RequestTx, RtsBit, Frames;
    var d := RequestTx(c, b, n);
    RequestSpares(c, b, n);
    SameBuffer(c.regs, d.regs, k);
    hide BusOff, Has, Extract, WriteSends;
    SameWriteSends(c, d, k);
  }

  lemma SameWriteSends(c: Core, d: Core, k: TxIndex)
    requires d.mode == c.mode && (c.mode == MODE_NORMAL ==> (BusOff(d) <==> BusOff(c)))
    requires Extract(d.regs, k) == Extract(c.regs, k) && d.regs[TxCtrl(k)] == c.regs[TxCtrl(k)]
    ensures WriteSends(d, TxCtrl(k), d.regs[TxCtrl(k)] | TXREQ) == WriteSends(c, TxCtrl(k), c.regs[TxCtrl(k)] | TXREQ)
  {
    hide Extract, BusOff, Has;
  }

  lemma SameBuffer(r: Regs, q: Regs, k: TxIndex)
    requires forall a :: TxCtrl(k) <= a < TxCtrl(k) + 14 ==> q[a] == r[a]
    ensures Extract(q, k) == Extract(r, k) && q[TxCtrl(k)] == r[TxCtrl(k)]
  {
    assert q[TxCtrl(k) + 6..TxCtrl(k) + 14] == r[TxCtrl(k) + 6..TxCtrl(k) + 14];
  }

  /** RTS, in every state: the selected buffers whose TXREQ was clear send their frames, once
      each and in ascending order, if the controller is in Normal mode and not bus-off. */
  lemma RtsAscending(c: Core, b: bv8)
    ensures RequestToSend(c, b).txs == c.txs + Frames(RtsSends(c, b))
  {
    hide RequestTx, RequestSends, Frames;
    var c1 := RequestTx(c, b, 0);
    var c2 := RequestTx(c1, b, 1);
    RequestSpares(c, b, 0);
    RequestSpares(c1, b, 1);
    RequestSpares(c2, b, 2);
    RequestsIndependent(c, b, 0, 1);
    RequestsIndependent(c, b, 0, 2);
    RequestsIndependent(c1, b, 1, 2);
    FramesJoin(RequestSends(c, b, 0), RequestSends(c, b, 1));
    FramesJoin(RequestSends(c, b, 0) + RequestSends(c, b, 1), RequestSends(c, b, 2));
  }

  // ----- every stimulus -----

  /** What one operation sends: only register writes and RTS send at all. */
  function EffectSends(c: Core, e: Effect): seq<Sending>
    requires Applicable(e)
  {
    match e
    case Write(a, v) => WriteSends(c, a, v)
    case Rts(b) => RtsSends(c, b)
    case _ => []
  }

  lemma ErrorsSendNothing(c: Core, tx: bool, n: int)
    ensures var d := if tx then InjectTxErrors(c, n) else InjectRxErrors(c, n);
      d.txs == c.txs && forall a :: TXB0CTRL <= a < REGS_SIZE ==> d.regs[a] == c.regs[a]
  {
    hide ErrFlags, SaturatingAdd;
  }

  lemma ForceSendsNothing(c: Core, off: bool)
    ensures var d := if off then ForceBusOff(c) else ForceErrorPassive(c);
      d.txs == c.txs && forall a :: TXB0CTRL <= a < REGS_SIZE ==> d.regs[a] == c.regs[a]
  {
    hide ErrFlags;
  }

  lemma ReceiveSendsNothing(c: Core, f: Frame)
    ensures var d := RxFrame(c, f).0;
      d.txs == c.txs && forall a :: TXB0CTRL <= a < RXB0CTRL ==> d.regs[a] == c.regs[a]
  {
    hide Route, CountDown;
    RouteSpares(c, f);
    CountDownSpares(Route(c, f).0, REC);
  }

  lemma EffectSendsExactly(c: Core, e: Effect)
    requires Applicable(e)
    ensures Apply(c, e).txs == c.txs + Frames(EffectSends(c, e))
  {
    hide RegWrite, RequestToSend, RxFrame, InjectTxErrors, InjectRxErrors, ForceBusOff, ForceErrorPassive;
    hide ResetRegs, RecoverBusOff, WriteSends, RtsSends;
    match e
    case Write(a, v) => WriteSendsExactly(c, a, v);
    case Rts(b) => RtsAscending(c, b);
    case Receive(f) => ReceiveSendsNothing(c, f);
    case Errors(tx, n) => ErrorsSendNothing(c, tx, n);
    case Force(off) => ForceSendsNothing(c, off);
    case Revive => RecoverFields(c);
    case _ =>
  }

  // ----- runs -----

  /** The transmissions of a run, in order: each is a rising request, with the frame that its
      buffer held at that moment. */
  ghost function RunSends(ch: Chip, es: seq<Event>): seq<Sending>
    requires Runnable(ch, es)
    decreases |es|
  {
    if es == [] then [] else EffectSends(ch.core, EffectOf(ch, es[0])) + RunSends(Step(ch, es[0]), es[1..])
  }

  /** What a run hands to the bus is exactly the frames of its rising requests, in order. */
  lemma {:induction false} RunSendsExactly(ch: Chip, es: seq<Event>)
    requires Runnable(ch, es)
    ensures Run(ch, es).core.txs == ch.core.txs + Frames(RunSends(ch, es))
    decreases |es|
  {
    hide Apply, EffectSends;
    if es == [] {
      assert ch.core.txs + Frames([]) == ch.core.txs;
    } else {
      var d := Step(ch, es[0]);
      EffectSendsExactly(ch.core, EffectOf(ch, es[0]));
      RunSendsExactly(d, es[1..]);
      FramesJoin(EffectSends(ch.core, EffectOf(ch, es[0])), RunSends(d, es[1..]));
    }
  }

  // ----- a pending request -----

  /** `e` neither resets the controller nor stores a value without TXREQ in control register n. */
  predicate KeepsRequest(ch: Chip, e: Event, n: TxIndex) {
    Allowed(ch, e) ==>
      var f := EffectOf(ch, e);
      !f.Wipe? && (f.Load? ==> f.a != TxCtrl(n)) && (f.Write? && f.a == TxCtrl(n) ==> Has(f.v, TXREQ))
  }

  predicate Pending(c: Core, n: TxIndex) { Has(c.regs[TxCtrl(n)], TXREQ) }

  lemma PendingWrite(c: Core, a: nat, v: bv8, n: TxIndex)
    requires a < REGS_SIZE && Pending(c, n) && (a == TxCtrl(n) ==> Has(v, TXREQ))
    ensures Pending(RegWrite(c, a, v), n)
    ensures forall k :: 0 <= k < |WriteSends(c, a, v)| ==> WriteSends(c, a, v)[k].n != n
  {
    hide Has, Extract;
    WriteSendsExactly(c, a, v);
    if a == TxCtrl(n) {
      ControlWrite(c, n, v);
    }
    hide RegWrite;
  }

  lemma PendingRequestTx(c: Core, b: bv8, k: TxIndex, n: TxIndex)
    requires Pending(c, n)
    ensures Pending(RequestTx(c, b, k), n)
    ensures forall i :: 0 <= i < |RequestSends(c, b, k)| ==> RequestSends(c, b, k)[i].n != n
  {
    hide RegWrite, WriteSends;
    var v := c.regs[TxCtrl(k)] | TXREQ;
    RequestBit(c.regs[TxCtrl(k)]);
    PendingWrite(c, TxCtrl(k), v, n);
  }

  lemma RequestBit(v: bv8)
    ensures Has(v | TXREQ, TXREQ)
  {
  }

  lemma PendingRts(c: Core, b: bv8, n: TxIndex)
    requires Pending(c, n)
    ensures Pending(RequestToSend(c, b), n)
    ensures forall i :: 0 <= i < |RtsSends(c, b)| ==> RtsSends(c, b)[i].n != n
  {
    hide RequestTx, RequestSends, Pending;
    PendingRequestTx(c, b, 0, n);
    PendingRequestTx(c, b, 1, n);
    PendingRequestTx(c, b, 2, n);
    PendingRequestTx(RequestTx(c, b, 0), b, 1, n);
    PendingRequestTx(RequestTx(RequestTx(c, b, 0), b, 1), b, 2, n);
  }

  lemma StepKeepsPending(ch: Chip, e: Event, n: TxIndex)
    requires Allowed(ch, e) && KeepsRequest(ch, e, n) && Pending(ch.core, n)
    ensures Pending(Step(ch, e).core, n)
    ensures var s := EffectSends(ch.core, EffectOf(ch, e)); forall k :: 0 <= k < |s| ==> s[k].n != n
  {
    hide RegWrite, RequestToSend, RxFrame, InjectTxErrors, InjectRxErrors, ForceBusOff, ForceErrorPassive;
    hide RecoverBusOff, UpdateInt, WriteSends, RtsSends, Has;
    var c, f := ch.core, EffectOf(ch, e);
    assert Step(ch, e).core == Apply(c, f);
    match f
    case Write(a, v) => PendingWrite(c, a, v, n);
    case Rts(b) => PendingRts(c, b, n);
    case Receive(x) => ReceiveSendsNothing(c, x);
    case Errors(tx, m) => ErrorsSendNothing(c, tx, m);
    case Force(off) => ForceSendsNothing(c, off);
    case Revive => RecoverFields(c);
    case Clear(k) => ClearSpares(c, k);
    case _ =>
  }

  lemma ClearSpares(c: Core, k: RxIndex)
    ensures forall a :: TXB0CTRL <= a < REGS_SIZE ==> ClearRxFlag(c, k).regs[a] == c.regs[a]
  {
  }

  ghost predicate KeptPending(ch: Chip, es: seq<Event>, n: TxIndex)
    requires Runnable(ch, es)
    decreases |es|
  {
    es == [] || (KeepsRequest(ch, es[0], n) && KeptPending(Step(ch, es[0]), es[1..], n))
  }

  /** A pending request stays pending and its frame is never sent, whatever mode changes,
      recoveries and further requests follow, until TXREQ has been cleared. */
  lemma {:induction false} PendingNeverSent(ch: Chip, es: seq<Event>, n: TxIndex)
    requires Runnable(ch, es) && KeptPending(ch, es, n) && Pending(ch.core, n)
    ensures Pending(Run(ch, es).core, n)
    ensures forall k :: 0 <= k < |RunSends(ch, es)| ==> RunSends(ch, es)[k].n != n
    decreases |es|
  {
    hide Step, EffectSends, KeepsRequest;
    if es != [] {
      StepKeepsPending(ch, es[0], n);
      PendingNeverSent(Step(ch, es[0]), es[1..], n);
    }
  }

  /** The input that shows it: requested in Configuration mode, then switched to Normal. */
  lemma StuckRequest()
    ensures var es := [HostWrite(TXB0CTRL, TXREQ), HostWrite(CANCTRL, 0x07)];
      && Runnable(Fresh(), es)
      && var c := Run(Fresh(), es).core;
      && Sends(c) && Pending(c, 0) && c.txs == []
  {
    var request, normal := HostWrite(TXB0CTRL, TXREQ), HostWrite(CANCTRL, 0x07);
    var c := Fresh().core;
    RequestPends(c);
    var d := c.(regs := c.regs[TXB0CTRL := TXREQ]);
    ModeRequestExact(d, 0x07);
    hide RegWrite;
    assert [request][1..] == [] && [] + [request] == [request] && [request] + [normal] == [request, normal];
    RunAppend(Fresh(), [], request);
    RunAppend(Fresh(), [request], normal);
  }

  lemma RequestPends(c: Core)
    requires c.mode == MODE_CONFIG
    ensures RegWrite(c, TXB0CTRL, TXREQ) == c.(regs := c.regs[TXB0CTRL := TXREQ])
  {
  }
}
