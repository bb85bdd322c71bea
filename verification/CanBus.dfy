/** The synchronous CAN bus: up to eight controllers, and a broadcast that offers a frame to
    every attached controller but its sender. */
module CanBus {
  import opened Mcp2515Regs
  import opened Mcp2515Core
  import opened Mcp2515Spi
  import opened Mcp2515Device
  import opened Mcp2515Routing

  const MAX_NODES := 8

  // ----- a broadcast on values -----

  predicate InRange(order: seq<nat>, n: nat) { forall i :: 0 <= i < |order| ==> order[i] < n }

  predicate Distinct(s: seq<nat>) { forall i, j :: 0 <= i < j < |s| ==> s[i] != s[j] }

  /** Offer `f` to the controllers at the positions of `order`, one after the other: the
      controllers afterwards, and how many accepted. */
  function Offer(cs: seq<Core>, order: seq<nat>, f: Frame): (r: (seq<Core>, nat))
    requires InRange(order, |cs|)
    ensures |r.0| == |cs|
  {
    if order == [] then (cs, 0)
    else
      var k := order[|order| - 1];
      var (ds, n) := Offer(cs, order[..|order| - 1], f);
      var (c, accepted) := RxFrame(ds[k], f);
      (ds[k := c], if accepted then n + 1 else n)
  }

  ghost function Acceptors(cs: seq<Core>, order: seq<nat>, f: Frame): set<nat> {
    set k | k in order && k < |cs| && RxFrame(cs[k], f).1
  }

  /** Every controller that is offered the frame ends as if it were alone on the bus, the
      others stay as they are, and the count is that of the accepting ones. */
  lemma {:induction false} OfferMeans(cs: seq<Core>, order: seq<nat>, f: Frame)
    requires InRange(order, |cs|) && Distinct(order)
    ensures var (ds, n) := Offer(cs, order, f);
      && (forall k :: 0 <= k < |cs| ==> ds[k] == if k in order then RxFrame(cs[k], f).0 else cs[k])
      && n == |Acceptors(cs, order, f)|
  {
    hide RxFrame;
    if order == [] {
      assert Acceptors(cs, order, f) == {};
    } else {
      var front, k := order[..|order| - 1], order[|order| - 1];
      OfferMeans(cs, front, f);
      MemberSplit(order);
      var (ds, n) := Offer(cs, front, f);
      assert ds[k] == cs[k];
      assert Offer(cs, order, f).0 == ds[k := RxFrame(cs[k], f).0];
      var before := Acceptors(cs, front, f);
      assert Acceptors(cs, order, f) == if RxFrame(cs[k], f).1 then before + {k} else before;
    }
  }

  /** A broadcast triggers no further transmission. */
  lemma BroadcastSilent(cs: seq<Core>, order: seq<nat>, f: Frame)
    requires InRange(order, |cs|) && Distinct(order)
    ensures forall k :: 0 <= k < |cs| ==>
      Offer(cs, order, f).0[k].txs == cs[k].txs && Offer(cs, order, f).0[k].sent == cs[k].sent
  {
    hide RxFrame;
    OfferMeans(cs, order, f);
    forall k | 0 <= k < |cs| ensures RxFrame(cs[k], f).0.txs == cs[k].txs && RxFrame(cs[k], f).0.sent == cs[k].sent {
      ReceptionExact(cs[k], f);
    }
  }

  lemma MemberSplit(order: seq<nat>)
    requires order != [] && Distinct(order)
    ensures var front, k := order[..|order| - 1], order[|order| - 1];
      k !in front && forall j :: j in order <==> j in front || j == k
  {
    assert order == order[..|order| - 1] + [order[|order| - 1]];
  }

  /** Final states and count do not depend on the order in which the nodes are served. */
  lemma OrderIrrelevant(cs: seq<Core>, a: seq<nat>, b: seq<nat>, f: Frame)
    requires InRange(a, |cs|) && InRange(b, |cs|) && Distinct(a) && Distinct(b)
    requires forall k :: k in a <==> k in b
    ensures Offer(cs, a, f) == Offer(cs, b, f)
  {
    hide RxFrame;
    OfferMeans(cs, a, f);
    OfferMeans(cs, b, f);
    assert Offer(cs, a, f).0 == Offer(cs, b, f).0;
    assert Acceptors(cs, a, f) == Acceptors(cs, b, f);
  }

  /** The positions 0 to n - 1 in ascending order, without `skip`. */
  function Others(n: nat, skip: int): (order: seq<nat>)
    ensures InRange(order, n) && Distinct(order)
    ensures forall k :: k in order <==> 0 <= k < n && k != skip
  {
    if n == 0 then [] else
      var front := Others(n - 1, skip);
      if n - 1 == skip then front
      else
        assert forall k :: k in front + [n - 1] <==> k in front || k == n - 1;
        front + [n - 1]
  }

  lemma OfferNone(cs: seq<Core>, skip: int, f: Frame)
    ensures Offer(cs, Others(0, skip), f) == (cs, 0)
  {
  }

  lemma OthersSkip(i: nat, skip: int)
    requires i == skip
    ensures Others(i + 1, skip) == Others(i, skip)
  {
  }

  lemma OfferNext(cs: seq<Core>, i: nat, skip: int, f: Frame)
    requires i < |cs| && i != skip
    ensures var (ds, n) := Offer(cs, Others(i, skip), f); var (c, accepted) := RxFrame(ds[i], f);
      Offer(cs, Others(i + 1, skip), f) == (ds[i := c], if accepted then n + 1 else n)
  {
    hide RxFrame;
    var order := Others(i, skip);
    assert Others(i + 1, skip) == order + [i];
    assert (order + [i])[..|order|] == order;
  }

  /** End to end: a well-formed frame held by transmit buffer n of a controller in Normal mode
      goes out when its TXREQ rises, and every other controller that accepts it can read the
      same frame back from the buffer its filters choose. */
  lemma FrameCrossesBus(cs: seq<Core>, s: nat, n: TxIndex, v: bv8, f: Frame)
    requires s < |cs| && WellFormed(f) && Holds(cs[s].regs, TxCtrl(n), f)
    requires cs[s].mode == MODE_NORMAL && !BusOff(cs[s])
    requires !Has(cs[s].regs[TxCtrl(n)], TXREQ) && Has(v, TXREQ)
    ensures var sent := WriteTxCtrl(cs[s], n, v);
      var (ds, count) := Offer(cs[s := sent], Others(|cs|, s), f);
      && sent.txs == cs[s].txs + [f] && ds[s] == sent
      && (forall t :: 0 <= t < |cs| && t != s && RxFrame(cs[t], f).1 ==>
            FrameAt(ds[t].regs, RxCtrl(if Takes0(cs[t].regs, f) then 0 else 1)) == f)
      && (forall t :: 0 <= t < |cs| && t != s ==> ds[t].txs == cs[t].txs)
      && count == |Acceptors(cs, Others(|cs|, s), f)|
  {
    hide RxFrame, FrameAt, Takes0, Takes1, Offer, Others, Acceptors, DeliverNormal, WriteTxCtrl;
    SendAppends(cs[s], n, v, f);
    var es := cs[s := WriteTxCtrl(cs[s], n, v)];
    OfferMeans(es, Others(|cs|, s), f);
    SenderExcluded(cs, s, es[s], f);
    forall t | 0 <= t < |cs| && t != s
      ensures RxFrame(cs[t], f).0.txs == cs[t].txs
      ensures RxFrame(cs[t], f).1 ==> FrameAt(RxFrame(cs[t], f).0.regs, RxCtrl(if Takes0(cs[t].regs, f) then 0 else 1)) == f
    {
      ReceptionExact(cs[t], f);
    }
  }

  lemma SenderExcluded(cs: seq<Core>, s: nat, c: Core, f: Frame)
    requires s < |cs|
    ensures Acceptors(cs[s := c], Others(|cs|, s), f) == Acceptors(cs, Others(|cs|, s), f)
  {
    hide RxFrame;
  }

  lemma SendAppends(c: Core, n: TxIndex, v: bv8, f: Frame)
    requires c.mode == MODE_NORMAL && !BusOff(c) && WellFormed(f) && Holds(c.regs, TxCtrl(n), f)
    requires !Has(c.regs[TxCtrl(n)], TXREQ) && Has(v, TXREQ)
    ensures WriteTxCtrl(c, n, v).txs == c.txs + [f]
  {
    hide Extract, MarkComplete, CountDown;
    var d := c.(regs := c.regs[TxCtrl(n) := v]);
    assert d.regs[TxCtrl(n) + 1..TxCtrl(n) + 14] == c.regs[TxCtrl(n) + 1..TxCtrl(n) + 14];
    StoredFrameRoundTrip(d.regs, TxCtrl(n), f);
    ExtractedFrame(d.regs, n);
    assert WriteTxCtrl(c, n, v) == DeliverNormal(d, n);
    SentByDelivery(d, n);
  }

  lemma ExtractedFrame(r: Regs, n: TxIndex)
    ensures Extract(r, n) == FrameAt(r, TxCtrl(n))
  {
  }

  lemma SentByDelivery(c: Core, n: TxIndex)
    ensures DeliverNormal(c, n).txs == c.txs + [Extract(c.regs, n)]
  {
    hide Extract;
  }

  // ----- the bus object -----

  class Bus {
    const nodes: array<Controller?>
    var numNodes: nat
    var framesBroadcast: nat
    var framesDelivered: nat
    var framesInjected: nat

    /** The attached controllers are distinct, and so are their register files. */
    ghost predicate Valid()
      reads this`numNodes, nodes
    {
      && nodes.Length == MAX_NODES && numNodes <= MAX_NODES
      && (forall i :: 0 <= i < numNodes ==> nodes[i] != null && nodes[i].Valid())
      && (forall i, j :: 0 <= i < j < numNodes ==> nodes[i] != nodes[j] && nodes[i].regs != nodes[j].regs)
    }

    ghost function Attached(): (s: set<object>)
      requires Valid()
      reads this`numNodes, nodes
      ensures forall i :: 0 <= i < numNodes ==> nodes[i] in s && nodes[i].regs in s
      ensures this !in s && nodes !in s
    {
      (set i | 0 <= i < numNodes :: nodes[i] as object) + (set i | 0 <= i < numNodes :: nodes[i].regs as object)
    }

    ghost function Cores(n: nat): (cs: seq<Core>)
      requires Valid() && n <= numNodes
      reads this`numNodes, nodes, Attached()
      ensures |cs| == n && forall i :: 0 <= i < n ==> cs[i] == nodes[i].CoreOf()
    {
      if n == 0 then [] else Cores(n - 1) + [nodes[n - 1].CoreOf()]
    }

    /** Where `node` is attached, or -1. */
    ghost function Position(node: Controller?, n: nat): (p: int)
      requires Valid() && n <= numNodes
      reads this`numNodes, nodes
      ensures -1 <= p < n && (p >= 0 ==> nodes[p] == node)
      ensures forall i :: 0 <= i < n && nodes[i] == node ==> p == i
    {
      if n == 0 then -1 else if nodes[n - 1] == node then n - 1 else Position(node, n - 1)
    }

    constructor ()
      ensures Valid() && fresh(nodes) && numNodes == 0
      ensures framesBroadcast == framesDelivered == framesInjected == 0
    {
      nodes := new Controller?[MAX_NODES](i => null);
      numNodes, framesBroadcast, framesDelivered, framesInjected := 0, 0, 0, 0;
    }

    /** The slot the controller gets, or -1 for no controller, a second attachment or a full bus. */
    method Attach(node: Controller?) returns (slot: int)
      requires Valid() && (node != null ==> node.Valid())
      requires forall i :: 0 <= i < numNodes && nodes[i] != node && node != null ==> nodes[i].regs != node.regs
      modifies this`numNodes, nodes
      ensures Valid()
      ensures slot == if node == null || old(Position(node, numNodes)) >= 0 || old(numNodes) >= 8 then -1 else old(numNodes)
      ensures numNodes == old(numNodes) + if slot < 0 then 0 else 1
      ensures slot >= 0 ==> nodes[slot] == node
      ensures forall i :: 0 <= i < old(numNodes) ==> nodes[i] == old(nodes[i])
    {
      if node == null {
        return -1;
      }
      for i := 0 to numNodes
        invariant forall k :: 0 <= k < i ==> nodes[k] != node
      {
        if nodes[i] == node {
          return -1;
        }
      }
      if numNodes >= MAX_NODES {
        return -1;
      }
      slot := numNodes;
      nodes[slot] := node;
      numNodes := numNodes + 1;
    }

    /** Offer the frame to the controller in slot i. */
    method Serve(i: nat, frame: Frame)
      requires Valid() && i < numNodes
      modifies this`framesDelivered, nodes[i], nodes[i].regs
      ensures nodes[i].CoreOf() == RxFrame(old(nodes[i].CoreOf()), frame).0 && nodes[i].SpiOf() == old(nodes[i].SpiOf())
      ensures framesDelivered == old(framesDelivered) + if RxFrame(old(nodes[i].CoreOf()), frame).1 then 1 else 0
      ensures forall k :: 0 <= k < numNodes && k != i ==> nodes[k].State() == old(nodes[k].State())
    {
      hide RxFrame;
      var accepted := nodes[i].RxFrame(frame);
      if accepted {
        framesDelivered := framesDelivered + 1;
      }
    }

    method Broadcast(frame: Frame, source: Controller?)
      requires Valid()
      modifies this`framesBroadcast, this`framesDelivered, Attached()
      ensures Valid() && framesBroadcast == old(framesBroadcast) + 1
      ensures var (cs, count) := Offer(old(Cores(numNodes)), Others(numNodes, Position(source, numNodes)), frame);
        Cores(numNodes) == cs && framesDelivered == old(framesDelivered) + count
      ensures forall i :: 0 <= i < numNodes ==> nodes[i].SpiOf() == old(nodes[i].SpiOf())
    {
      hide RxFrame, Controller.CoreOf, Controller.SpiOf, Offer, Others, Position, Cores, Attached;
      framesBroadcast := framesBroadcast + 1;
      ghost var was, skip := Cores(numNodes), Position(source, numNodes);
      ghost var now := was;
      OfferNone(was, skip, frame);
      for i := 0 to numNodes
        invariant Valid() && nodes[..] == old(nodes[..]) && |now| == numNodes
        invariant framesBroadcast == old(framesBroadcast) + 1
        invariant forall k :: 0 <= k < numNodes ==> nodes[k].SpiOf() == old(nodes[k].SpiOf()) && nodes[k].CoreOf() == now[k]
        invariant (now, framesDelivered - old(framesDelivered)) == Offer(was, Others(i, skip), frame)
      {
        if nodes[i] == source {
          OthersSkip(i, skip);
        } else {
          OfferNext(was, i, skip, frame);
          Serve(i, frame);
          now := now[i := RxFrame(now[i], frame).0];
        }
      }
      assert Cores(numNodes) == now;
    }

    /** A frame from outside the bus is offered to every node. */
    method Inject(frame: Frame)
      requires Valid()
      modifies this`framesBroadcast, this`framesDelivered, this`framesInjected, Attached()
      ensures Valid() && framesInjected == old(framesInjected) + 1 && framesBroadcast == old(framesBroadcast) + 1
      ensures var (cs, count) := Offer(old(Cores(numNodes)), Others(numNodes, -1), frame);
        Cores(numNodes) == cs && framesDelivered == old(framesDelivered) + count
    {
      hide RxFrame, Offer, Others, Controller.CoreOf, Controller.SpiOf, Position, Cores, Attached;
      framesInjected := framesInjected + 1;
      Broadcast(frame, null);
    }
  }
}
