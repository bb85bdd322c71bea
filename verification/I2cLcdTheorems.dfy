/** What the display decoder does with whole streams: it executes exactly the instructions that
    were clocked in, its cursor walks a ring, and its reports follow the cells. */
module I2cLcdTheorems {
  import opened Bytes
  import opened I2cLcd

  // ----- decoding, defined without the state machine -----

  datatype Pulse = Pulse(rs: bool, nibble: Byte)

  /** The nibbles on the port just before E falls. */
  function Pulses(prev: Byte, stream: seq<Byte>): (r: seq<Pulse>)
    ensures forall i :: 0 <= i < |r| ==> r[i].nibble < 16
    decreases |stream|
  {
    if stream == [] then []
    else (if E(prev) && !E(stream[0]) then [Pulse(Rs(prev), High(prev))] else []) + Pulses(stream[0], stream[1..])
  }

  /** The pulses after the one that selects 4-bit mode, if there is one. */
  function AfterInit(ps: seq<Pulse>): (r: seq<Pulse>) {
    if ps == [] then [] else if Switch(ps[0]) then ps[1..] else AfterInit(ps[1..])
  }

  predicate Switch(p: Pulse) { !p.rs && p.nibble == 2 }

  predicate Switched(ps: seq<Pulse>) { exists i :: 0 <= i < |ps| && Switch(ps[i]) }

  /** Two pulses, high nibble first, make an instruction; RS is that of the second. */
  function Pair(ps: seq<Pulse>): (r: seq<Instr>) {
    if |ps| < 2 then [] else [Join(ps[0], ps[1])] + Pair(ps[2..])
  }

  function ExecuteAll(d: Display, code: seq<Instr>): Display {
    if code == [] then d else Execute(ExecuteAll(d, code[..|code| - 1]), code[|code| - 1])
  }

  function Last(prev: Byte, stream: seq<Byte>): Byte { if stream == [] then prev else stream[|stream| - 1] }

  lemma {:induction false} PulsesAppend(prev: Byte, stream: seq<Byte>, b: Byte)
    ensures Pulses(prev, stream + [b]) == Pulses(prev, stream) +
      if E(Last(prev, stream)) && !E(b) then [Pulse(Rs(Last(prev, stream)), High(Last(prev, stream)))] else []
    decreases |stream|
  {
    if stream == [] {
      assert [b][1..] == [];
    } else {
      assert (stream + [b])[1..] == stream[1..] + [b];
      PulsesAppend(stream[0], stream[1..], b);
    }
  }

  lemma {:induction false} AfterInitAppend(ps: seq<Pulse>, p: Pulse)
    ensures AfterInit(ps + [p]) == if Switched(ps) then AfterInit(ps) + [p] else []
    ensures Switched(ps + [p]) <==> Switched(ps) || Switch(p)
  {
    var all := ps + [p];
    if ps == [] {
      assert all[1..] == [];
      assert Switch(p) ==> Switch(all[0]);
    } else {
      assert all[1..] == ps[1..] + [p];
      AfterInitAppend(ps[1..], p);
      SwitchedSplit(ps);
      SwitchedSplit(all);
    }
  }

  lemma SwitchedSplit(ps: seq<Pulse>)
    requires ps != []
    ensures Switched(ps) <==> Switch(ps[0]) || Switched(ps[1..])
  {
    if i :| 0 <= i < |ps| && Switch(ps[i]) {
      assert i > 0 ==> Switch(ps[1..][i - 1]);
    }
    if i :| 0 <= i < |ps[1..]| && Switch(ps[1..][i]) {
      assert Switch(ps[i + 1]);
    }
  }

  /** The instruction that two pulses make. */
  function Join(hi: Pulse, lo: Pulse): Instr { Instr(lo.rs, hi.nibble % 16 * 16 + lo.nibble % 16) }

  lemma PairStep(ps: seq<Pulse>)
    ensures Pair(ps) == if |ps| < 2 then [] else [Join(ps[0], ps[1])] + Pair(ps[2..])
  {
  }

  lemma DropTwo(ps: seq<Pulse>, p: Pulse)
    requires |ps| >= 2
    ensures var all := ps + [p]; all[2..] == ps[2..] + [p] && all[0] == ps[0] && all[1] == ps[1]
    ensures |ps[2..]| % 2 == |ps| % 2
    ensures |ps[2..]| % 2 == 1 ==> ps[2..][|ps[2..]| - 1] == ps[|ps| - 1]
  {
  }

  lemma {:induction false} PairAppend(ps: seq<Pulse>, p: Pulse)
    ensures Pair(ps + [p]) == Pair(ps) + if |ps| % 2 == 1 then [Join(ps[|ps| - 1], p)] else []
    decreases |ps|
  {
    hide Pair, Join;
    var all := ps + [p];
    PairStep(all);
    PairStep(ps);
    if |ps| >= 2 {
      var rest := ps[2..];
      DropTwo(ps, p);
      PairAppend(rest, p);
    } else if |ps| == 1 {
      PairStep(all[2..]);
    }
  }

  /** The decoder has executed exactly the pairs clocked in since 4-bit mode was selected, and
      holds the odd nibble, if any. */
  ghost predicate Decoded(l: Lcd, start: Lcd, stream: seq<Byte>) {
    var ps := Pulses(0, stream);
    var live := AfterInit(ps);
    && l.latch.lastByte == Last(0, stream) && l.latch.lastE == E(Last(0, stream))
    && l.latch.init8 == !Switched(ps)
    && l.display == ExecuteAll(start.display, Pair(live))
    && (Switched(ps) ==> (l.latch.haveHi <==> |live| % 2 == 1))
    && (Switched(ps) && l.latch.haveHi ==> l.latch.hi == live[|live| - 1].nibble)
  }

  lemma ExecuteAppend(d: Display, code: seq<Instr>, i: Instr)
    ensures ExecuteAll(d, code + [i]) == Execute(ExecuteAll(d, code), i)
  {
    assert (code + [i])[..|code|] == code;
  }

  lemma {:induction false} AfterInitSmall(ps: seq<Pulse>)
    requires forall i :: 0 <= i < |ps| ==> ps[i].nibble < 16
    ensures forall i :: 0 <= i < |AfterInit(ps)| ==> AfterInit(ps)[i].nibble < 16
    ensures !Switched(ps) ==> AfterInit(ps) == []
  {
    if ps != [] {
      SwitchedSplit(ps);
      AfterInitSmall(ps[1..]);
    }
  }

  lemma PerformDisplay(l: Lcd, i: Instr)
    ensures Perform(l, i).display == Execute(l.display, i) && Perform(l, i).latch == l.latch && Perform(l, i).callback == l.callback
  {
  }

  /** A write on a falling edge is a received nibble. */
  lemma WriteEdge(l: Lcd, b: Byte)
    requires l.latch.lastE && !E(b)
    ensures var m := WriteByte(l, b); var r := Receive(l, Rs(l.latch.lastByte), High(l.latch.lastByte));
      && m.display == r.display && m.latch.lastByte == b && m.latch.lastE == E(b)
      && m.latch.init8 == r.latch.init8 && m.latch.haveHi == r.latch.haveHi && m.latch.hi == r.latch.hi
  {
    hide Receive;
  }

  lemma WriteQuiet(l: Lcd, b: Byte)
    requires !l.latch.lastE || E(b)
    ensures var m := WriteByte(l, b);
      && m.display == l.display && m.latch.lastByte == b && m.latch.lastE == E(b)
      && m.latch.init8 == l.latch.init8 && m.latch.haveHi == l.latch.haveHi && m.latch.hi == l.latch.hi
  {
  }

  /** A nibble after the switch to 4-bit mode either waits or completes an instruction. */
  lemma ReceivePairs(l: Lcd, start: Display, live: seq<Pulse>, p: Pulse)
    requires !l.latch.init8 && p.nibble < 16 && l.display == ExecuteAll(start, Pair(live))
    requires (l.latch.haveHi <==> |live| % 2 == 1) && (l.latch.haveHi ==> l.latch.hi == live[|live| - 1].nibble)
    ensures var m := Receive(l, p.rs, p.nibble); var more := live + [p];
      && !m.latch.init8 && m.display == ExecuteAll(start, Pair(more))
      && (m.latch.haveHi <==> |more| % 2 == 1) && (m.latch.haveHi ==> m.latch.hi == more[|more| - 1].nibble)
  {
    hide Perform, Pair, ExecuteAll, Execute;
    PairAppend(live, p);
    if l.latch.haveHi {
      var i := Join(live[|live| - 1], p);
      assert i == Instr(p.rs, Full(l.latch.hi, p.nibble));
      ExecuteAppend(start, Pair(live), i);
      PerformDisplay(l.(latch := l.latch.(haveHi := false)), i);
    } else {
      assert Pair(live) + [] == Pair(live);
    }
  }

  lemma NextDecoded(l: Lcd, start: Lcd, stream: seq<Byte>, b: Byte)
    requires Decoded(l, start, stream)
    ensures Decoded(WriteByte(l, b), start, stream + [b])
  {
    hide Perform, Pulses, AfterInit, Pair, ExecuteAll, Switched, E, Rs, WriteByte;
    var ps := Pulses(0, stream);
    var last := Last(0, stream);
    PulsesAppend(0, stream, b);
    assert Last(0, stream + [b]) == b;
    if E(last) && !E(b) {
      var p := Pulse(Rs(last), High(last));
      var live := AfterInit(ps);
      WriteEdge(l, b);
      AfterInitAppend(ps, p);
      if Switched(ps) {
        hide Receive;
        ReceivePairs(l, start.display, live, p);
      } else {
        AfterInitSmall(ps);
        PairShort();
      }
    } else {
      WriteQuiet(l, b);
      assert ps + [] == ps;
    }
  }

  lemma PairShort()
    ensures Pair([]) == []
  {
  }

  /** For any stream: the display is what executing the clocked-in instructions makes of it. */
  lemma {:induction false} DecodingExact(stream: seq<Byte>, callback: bool)
    ensures Decoded(Feed(AfterReset(callback), stream), AfterReset(callback), stream)
  {
    hide WriteByte, Decoded;
    if stream == [] {
      NothingDecoded(callback);
    } else {
      var front, b := stream[..|stream| - 1], stream[|stream| - 1];
      DecodingExact(front, callback);
      NextDecoded(Feed(AfterReset(callback), front), AfterReset(callback), front, b);
      assert front + [b] == stream;
    }
  }

  lemma NothingDecoded(callback: bool)
    ensures Decoded(AfterReset(callback), AfterReset(callback), [])
  {
  }

  // ----- encoding -----

  /** One nibble as the usual driver clocks it: with E high, then low. */
  function Clock(rs: bool, nibble: Byte, light: bool): (r: seq<Byte>)
    requires nibble < 16
    ensures |r| == 2
  {
    var low := nibble * 16 + (if light then 8 else 0) + (if rs then 1 else 0);
    [low + 4, low]
  }

  function EncodeOne(i: Instr, light: bool): (r: seq<Byte>)
    ensures |r| == 4
  {
    Clock(i.rs, i.byte / 16, light) + Clock(i.rs, i.byte % 16, light)
  }

  function Encode(code: seq<Instr>, light: bool): seq<Byte> {
    if code == [] then [] else Encode(code[..|code| - 1], light) + EncodeOne(code[|code| - 1], light)
  }

  predicate Aligned(l: Lcd) { !l.latch.init8 && !l.latch.haveHi && !l.latch.lastE }

  lemma ClockBits(rs: bool, nibble: Byte, light: bool)
    requires nibble < 16
    ensures var c := Clock(rs, nibble, light);
      E(c[0]) && !E(c[1]) && Rs(c[0]) == rs && High(c[0]) == nibble && Backlight(c[1]) == light
  {
  }

  /** A clocked nibble is received once. */
  lemma ClockReceived(l: Lcd, rs: bool, nibble: Byte, light: bool) returns (m: Lcd)
    requires nibble < 16 && !l.latch.lastE
    ensures m == WriteByte(WriteByte(l, Clock(rs, nibble, light)[0]), Clock(rs, nibble, light)[1])
    ensures m.display == Receive(l, rs, nibble).display && !m.latch.lastE
    ensures m.shown == Receive(l, rs, nibble).shown && m.callback == l.callback && m.latch.backlight == light
    ensures var r := Receive(l, rs, nibble).latch;
      m.latch.init8 == r.init8 && m.latch.haveHi == r.haveHi && m.latch.hi == r.hi
  {
    hide Perform, E, Rs, Backlight, High, Clock;
    ClockBits(rs, nibble, light);
    var c := Clock(rs, nibble, light);
    var h := WriteByte(l, c[0]);
    m := WriteByte(h, c[1]);
    ReceiveIgnores(l, h, rs, nibble);
  }

  /** Receiving a nibble depends on the latch only through mode and stored nibble. */
  lemma ReceiveIgnores(l: Lcd, h: Lcd, rs: bool, nibble: Byte)
    requires nibble < 16 && h == l.(latch := h.latch)
    requires h.latch.init8 == l.latch.init8 && h.latch.haveHi == l.latch.haveHi && h.latch.hi == l.latch.hi
    ensures var a, b := Receive(l, rs, nibble), Receive(h, rs, nibble);
      && a.display == b.display && a.shown == b.shown && a.callback == b.callback == l.callback
      && a.latch.init8 == b.latch.init8 && a.latch.haveHi == b.latch.haveHi && a.latch.hi == b.latch.hi
    ensures Receive(h, rs, nibble).latch.lastE == h.latch.lastE
  {
    hide Perform;
    if !l.latch.init8 && l.latch.haveHi {
      var i := Instr(rs, Full(l.latch.hi, nibble));
      PerformLatchFree(l, l.latch.(haveHi := false), i);
      PerformLatchFree(l, h.latch.(haveHi := false), i);
      PerformDisplay(l, i);
    }
  }

  lemma PerformLatchFree(l: Lcd, latch: Latch, i: Instr)
    ensures Perform(l.(latch := latch), i) == Perform(l, i).(latch := latch)
  {
    hide Execute, Render;
  }

  lemma FeedAppend(l: Lcd, a: seq<Byte>, b: seq<Byte>)
    ensures Feed(l, a + b) == Feed(Feed(l, a), b)
  {
    if b == [] {
      assert a + b == a;
    } else {
      FeedAppend(l, a, b[..|b| - 1]);
      assert (a + b)[..|a + b| - 1] == a + b[..|b| - 1];
    }
  }

  lemma FeedTwo(l: Lcd, c: seq<Byte>)
    requires |c| == 2
    ensures Feed(l, c) == WriteByte(WriteByte(l, c[0]), c[1])
  {
    hide WriteByte;
    assert c[..1] == [c[0]];
    assert Feed(l, [c[0]]) == WriteByte(Feed(l, []), c[0]);
  }

  lemma OneExecuted(l: Lcd, i: Instr, light: bool)
    requires Aligned(l)
    ensures var m := Feed(l, EncodeOne(i, light));
      && Aligned(m) && m.display == Execute(l.display, i)
      && m.shown == Perform(l, i).shown && m.callback == l.callback && m.latch.backlight == light
  {
    hide WriteByte, Perform, Clock, Execute;
    var hi, lo := Clock(i.rs, i.byte / 16, light), Clock(i.rs, i.byte % 16, light);
    FeedAppend(l, hi, lo);
    var m := ClockReceived(l, i.rs, i.byte / 16, light);
    FeedTwo(l, hi);
    var n := ClockReceived(m, i.rs, i.byte % 16, light);
    FeedTwo(m, lo);
    var full := Full(i.byte / 16, i.byte % 16);
    assert full == i.byte;
    PerformDisplay(m.(latch := m.latch.(haveHi := false)), i);
    PerformLatchFree(l, m.latch.(haveHi := false), i);
    assert m == l.(latch := m.latch);
  }

  /** From aligned 4-bit mode, encoding a list of instructions and clocking it in executes
      exactly that list. */
  lemma {:induction false} EncodeDecode(l: Lcd, code: seq<Instr>, light: bool)
    requires Aligned(l)
    ensures var m := Feed(l, Encode(code, light)); Aligned(m) && m.display == ExecuteAll(l.display, code)
  {
    hide WriteByte, Execute, EncodeOne;
    if code != [] {
      var front, i := code[..|code| - 1], code[|code| - 1];
      EncodeDecode(l, front, light);
      OneExecuted(Feed(l, Encode(front, light)), i, light);
      FeedAppend(l, Encode(front, light), EncodeOne(i, light));
    }
  }

  /** The standard opening: three pulses of 3 and one of 2. */
  function Opening(light: bool): seq<Byte> {
    Clock(false, 3, light) + Clock(false, 3, light) + Clock(false, 3, light) + Clock(false, 2, light)
  }

  /** The opening leaves aligned 4-bit mode with the display untouched. */
  lemma InitSequence(callback: bool, light: bool)
    ensures var m := Feed(AfterReset(callback), Opening(light));
      Aligned(m) && m.display == AfterReset(callback).display
  {
    hide WriteByte, Perform, Clock;
    var three, two := Clock(false, 3, light), Clock(false, 2, light);
    var l := AfterReset(callback);
    FeedAppend(l, three + three + three, two);
    FeedAppend(l, three + three, three);
    FeedAppend(l, three, three);
    FeedTwo(l, three);
    var a := ClockReceived(l, false, 3, light);
    FeedTwo(a, three);
    var b := ClockReceived(a, false, 3, light);
    FeedTwo(b, three);
    var c := ClockReceived(b, false, 3, light);
    FeedTwo(c, two);
    var d := ClockReceived(c, false, 2, light);
  }

  // ----- the cursor -----

  /** The address of cell i. */
  function Address(i: int): Byte
    requires 0 <= i < CELLS
  {
    if i < COLS then i else ROW1 + (i - COLS)
  }

  /** Visible addresses and cells correspond one to one. */
  lemma OffsetBijective(a: Byte, i: int)
    ensures Visible(a) ==> 0 <= Offset(a) < CELLS && Address(Offset(a)) == a
    ensures 0 <= i < CELLS ==> Visible(Address(i)) && Offset(Address(i)) == i
  {
  }

  /** On visible addresses the cursor is a ring of 32 cells, and the two directions are inverse. */
  lemma CursorRing(a: Byte)
    requires Visible(a)
    ensures Visible(Advance(a, true)) && Offset(Advance(a, true)) == (Offset(a) + 1) % CELLS
    ensures Visible(Advance(a, false)) && Offset(Advance(a, false)) == (Offset(a) + CELLS - 1) % CELLS
    ensures Advance(Advance(a, true), false) == a && Advance(Advance(a, false), true) == a
  {
  }

  function AdvanceBy(a: Byte, increment: bool, n: nat): Byte {
    if n == 0 then a else Advance(AdvanceBy(a, increment, n - 1), increment)
  }

  /** How many data writes bring the cursor into view. */
  function StepsToView(a: Byte, increment: bool): (n: nat) {
    if Visible(a) then 0
    else if increment then (if a < ROW1 then ROW1 - a else 256 - a)
    else if a < ROW1 then a - 0x0F else a - (ROW1 + 0x0F)
  }

  lemma {:induction false} BeforeView(a: Byte, increment: bool, n: nat)
    requires n < StepsToView(a, increment)
    ensures AdvanceBy(a, increment, n) == (if increment then a + n else a - n) && !Visible(AdvanceBy(a, increment, n))
  {
    if n > 0 {
      BeforeView(a, increment, n - 1);
    }
  }

  /** From any address the cursor comes into view after exactly that many writes, at most 176,
      and never leaves again. */
  lemma {:induction false} CursorComesIntoView(a: Byte, increment: bool, n: nat)
    ensures StepsToView(a, increment) <= 176
    ensures Visible(AdvanceBy(a, increment, n)) <==> n >= StepsToView(a, increment)
  {
    var k := StepsToView(a, increment);
    if n < k {
      BeforeView(a, increment, n);
    } else if n == k {
      if k > 0 {
        BeforeView(a, increment, k - 1);
      }
    } else {
      CursorComesIntoView(a, increment, n - 1);
      CursorRing(AdvanceBy(a, increment, n - 1));
    }
  }

  function WriteAll(d: Display, text: seq<Byte>): Display {
    if text == [] then d else Data(WriteAll(d, text[..|text| - 1]), text[|text| - 1])
  }

  /** The cell of the n-th write that starts in cell s. */
  function CellOf(s: int, increment: bool, n: nat): (c: int)
    ensures 0 <= c < CELLS
  {
    if increment then (s + n) % CELLS else (s + (CELLS - 1) * n) % CELLS
  }

  lemma CellsDiffer(s: int, increment: bool, m: nat, n: nat)
    requires m < n < m + CELLS
    ensures CellOf(s, increment, m) != CellOf(s, increment, n)
  {
    if increment {
      RemaindersDiffer(s + m, n - m);
    } else {
      SameCell(s, m);
      SameCell(s, n);
      RemaindersDiffer(s - n, n - m);
    }
  }

  lemma RemaindersDiffer(x: int, d: int)
    requires 0 < d < 32
    ensures (x + d) % 32 != x % 32
  {
  }

  /** Thirty-one steps forward are one step back. */
  lemma SameCell(s: int, n: nat)
    ensures (s + (CELLS - 1) * n) % CELLS == (s - n) % CELLS
  {
    assert s + 31 * n == (s - n) + 32 * n;
    AddMultiple(s - n, n);
  }

  lemma AddMultiple(x: int, k: int)
    ensures (x + 32 * k) % 32 == x % 32
  {
  }

  lemma NextCell(s: int, increment: bool, n: nat)
    ensures CellOf(s, increment, n + 1) == (CellOf(s, increment, n) + if increment then 1 else CELLS - 1) % CELLS
  {
    if increment {
      ModuloStep(s + n, 1);
    } else {
      ModuloStep(s + (CELLS - 1) * n, CELLS - 1);
      assert s + (CELLS - 1) * (n + 1) == s + (CELLS - 1) * n + (CELLS - 1);
    }
  }

  lemma ModuloStep(x: int, y: int)
    ensures (x + y) % 32 == (x % 32 + y) % 32
  {
  }

  /** `after` is `before` with the text written round the ring from cell s on: the last 32
      characters survive, and cells that no character reached are as before. */
  ghost predicate RingFilled(before: Cells, after: Cells, s: int, increment: bool, text: seq<Byte>) {
    && (forall i :: 0 <= i < |text| && i >= |text| - CELLS ==> after[CellOf(s, increment, i)] == text[i])
    && (forall c :: 0 <= c < CELLS && (forall i :: 0 <= i < |text| ==> CellOf(s, increment, i) != c) ==> after[c] == before[c])
  }

  lemma RingFilledNext(before: Cells, after: Cells, s: int, increment: bool, text: seq<Byte>, b: Byte)
    requires RingFilled(before, after, s, increment, text)
    ensures RingFilled(before, after[CellOf(s, increment, |text|) := b], s, increment, text + [b])
  {
    hide CellOf;
    var all, n := text + [b], |text|;
    var later := after[CellOf(s, increment, n) := b];
    forall i | 0 <= i < |all| && i >= |all| - CELLS ensures later[CellOf(s, increment, i)] == all[i] {
      if i < n {
        CellsDiffer(s, increment, i, n);
      }
    }
    forall c | 0 <= c < CELLS && (forall i :: 0 <= i < |all| ==> CellOf(s, increment, i) != c) ensures later[c] == before[c] {
      assert CellOf(s, increment, n) != c;
    }
  }

  /** A data write on a visible address stores at the cursor's cell and moves one cell on. */
  lemma VisibleWrite(d: Display, b: Byte)
    requires Visible(d.cursor)
    ensures var e := Data(d, b);
      && e == d.(ddram := d.ddram[Offset(d.cursor) := b], cursor := e.cursor)
      && Visible(e.cursor) && Offset(e.cursor) == (Offset(d.cursor) + if d.increment then 1 else CELLS - 1) % CELLS
  {
    CursorRing(d.cursor);
    hide Advance, Offset;
  }

  lemma NoWrites(cells: Cells, s: int, increment: bool)
    requires 0 <= s < CELLS
    ensures CellOf(s, increment, 0) == s && RingFilled(cells, cells, s, increment, [])
  {
  }

  /** Writing k characters fills k cells round the ring, the last 32 writes surviving, and
      leaves the other cells alone. */
  lemma {:induction false} WritesFillRing(d: Display, text: seq<Byte>)
    requires Visible(d.cursor)
    ensures var e := WriteAll(d, text); var s := Offset(d.cursor);
      && e.increment == d.increment && e.on == d.on
      && Visible(e.cursor) && Offset(e.cursor) == CellOf(s, d.increment, |text|)
      && RingFilled(d.ddram, e.ddram, s, d.increment, text)
  {
    hide CellOf, Visible, Offset, Data, RingFilled;
    var s := Offset(d.cursor);
    if text == [] {
      NoWrites(d.ddram, s, d.increment);
    } else {
      var front, n := text[..|text| - 1], |text| - 1;
      WritesFillRing(d, front);
      VisibleWrite(WriteAll(d, front), text[n]);
      NextCell(s, d.increment, n);
      RingFilledNext(d.ddram, WriteAll(d, front).ddram, s, d.increment, front, text[n]);
      assert front + [text[n]] == text;
    }
  }

  /** Characters as data instructions. */
  function Typed(text: seq<Byte>): seq<Instr> {
    if text == [] then [] else Typed(text[..|text| - 1]) + [Instr(true, text[|text| - 1])]
  }

  /** Clocking in characters from aligned 4-bit mode writes them one after the other. */
  lemma TypingWrites(l: Lcd, text: seq<Byte>, light: bool)
    requires Aligned(l)
    ensures var m := Feed(l, Encode(Typed(text), light));
      Aligned(m) && m.display == WriteAll(l.display, text)
  {
    hide WriteByte, Data, EncodeOne, Encode, Feed;
    EncodeDecode(l, Typed(text), light);
    TypedWrites(l.display, text);
  }

  lemma {:induction false} TypedWrites(d: Display, text: seq<Byte>)
    ensures ExecuteAll(d, Typed(text)) == WriteAll(d, text)
  {
    hide Data;
    if text != [] {
      var front, i := text[..|text| - 1], Instr(true, text[|text| - 1]);
      TypedWrites(d, front);
      ExecuteAppend(d, Typed(front), i);
    }
  }

  // ----- reports -----

  /** No two reports in a row are equal, and the last one shows the current cells. Before the
      first report the cells have not changed. */
  ghost predicate Faithful(l: Lcd) {
    && (forall i :: 0 < i < |l.shown| ==> l.shown[i - 1] != l.shown[i])
    && (l.callback ==> if l.shown == [] then l.display.ddram == Blank() else l.shown[|l.shown| - 1] == Render(l.display.ddram))
    && (!l.callback ==> l.shown == [])
  }

  lemma CommandKeepsCells(d: Display, cmd: Byte)
    requires cmd != 0x01
    ensures Command(d, cmd).ddram == d.ddram
  {
  }

  lemma PerformFaithful(l: Lcd, i: Instr)
    requires Faithful(l)
    ensures Faithful(Perform(l, i))
  {
    hide Render, Blank;
    if !i.rs && i.byte != 0x01 {
      CommandKeepsCells(l.display, i.byte);
    }
  }

  lemma WriteFaithful(l: Lcd, b: Byte)
    requires Faithful(l)
    ensures Faithful(WriteByte(l, b))
  {
    hide Perform, Render, Blank;
    if l.latch.lastE && !E(b) && !l.latch.init8 && l.latch.haveHi {
      var p := l.(latch := l.latch.(haveHi := false));
      PerformFaithful(p, Instr(Rs(l.latch.lastByte), Full(l.latch.hi, High(l.latch.lastByte))));
    }
  }

  /** After any stream: consecutive reports differ, and once anything has been reported the
      last report is the current display. */
  lemma {:induction false} ReportsFaithful(stream: seq<Byte>, callback: bool)
    ensures Faithful(Feed(AfterReset(callback), stream))
  {
    hide WriteByte;
    if stream != [] {
      ReportsFaithful(stream[..|stream| - 1], callback);
      WriteFaithful(Feed(AfterReset(callback), stream[..|stream| - 1]), stream[|stream| - 1]);
    }
  }

  // ----- who hears the reports -----

  /** The callback was set, by the start or by an event of the history, and neither removed nor
      followed by an initialisation since. */
  ghost predicate Armed(start: bool, history: seq<Event>) {
    exists i :: -1 <= i < |history| && SetAt(start, history, i) && KeptFrom(history, i + 1)
  }

  predicate SetAt(start: bool, history: seq<Event>, i: int)
    requires -1 <= i < |history|
  {
    if i < 0 then start else history[i] == Listen(true)
  }

  predicate KeptFrom(history: seq<Event>, from: int)
    requires 0 <= from <= |history|
  {
    forall j :: from <= j < |history| ==> history[j] != Initialise && history[j] != Listen(false)
  }

  lemma ArmedNext(start: bool, history: seq<Event>, e: Event)
    ensures Armed(start, history + [e]) <==>
      e == Listen(true) || (Armed(start, history) && e != Initialise && e != Listen(false))
  {
    var more := history + [e];
    if e == Listen(true) {
      assert SetAt(start, more, |history|) && KeptFrom(more, |history| + 1);
    }
    if Armed(start, history) && e != Initialise && e != Listen(false) {
      var i :| -1 <= i < |history| && SetAt(start, history, i) && KeptFrom(history, i + 1);
      assert SetAt(start, more, i) && KeptFrom(more, i + 1);
    }
    if Armed(start, more) && e != Listen(true) {
      var i :| -1 <= i < |more| && SetAt(start, more, i) && KeptFrom(more, i + 1);
      assert more[|history|] == e;
      assert SetAt(start, history, i);
      assert KeptFrom(history, i + 1) by {
        assert forall j :: i + 1 <= j < |history| ==> more[j] == history[j];
      }
    }
  }

  lemma WriteCallback(l: Lcd, b: Byte)
    ensures WriteByte(l, b).callback == l.callback
  {
    hide Execute, Render;
  }

  /** Over any history: the display has a callback exactly if it was set after the last
      initialisation and not removed since. */
  lemma {:induction false} ListenerExact(l: Lcd, history: seq<Event>)
    ensures Live(l, history).callback <==> Armed(l.callback, history)
  {
    hide WriteByte;
    if history == [] {
      assert l.callback ==> SetAt(l.callback, history, -1) && KeptFrom(history, 0);
    } else {
      var front, e := history[..|history| - 1], history[|history| - 1];
      ListenerExact(l, front);
      hide Armed;
      ArmedNext(l.callback, front, e);
      assert front + [e] == history;
      if e.Port? {
        WriteCallback(Live(l, front), e.b);
      }
    }
  }

  function Ports(stream: seq<Byte>): seq<Event> { seq(|stream|, i requires 0 <= i < |stream| => Port(stream[i])) }

  lemma {:induction false} LiveAppend(l: Lcd, a: seq<Event>, b: seq<Event>)
    ensures Live(l, a + b) == Live(Live(l, a), b)
  {
    hide Handle;
    if b == [] {
      assert a + b == a;
    } else {
      LiveAppend(l, a, b[..|b| - 1]);
      assert (a + b)[..|a + b| - 1] == a + b[..|b| - 1];
    }
  }

  lemma {:induction false} LivePorts(l: Lcd, stream: seq<Byte>)
    ensures Live(l, Ports(stream)) == Feed(l, stream)
  {
    hide WriteByte;
    if stream != [] {
      LivePorts(l, stream[..|stream| - 1]);
      assert Ports(stream)[..|stream| - 1] == Ports(stream[..|stream| - 1]);
    }
  }

  /** Without a callback a byte does what it does with one, except for the reports. */
  lemma WriteUnheard(l: Lcd, m: Lcd, b: Byte)
    requires m.callback && !l.callback && l.display == m.display && l.latch == m.latch
    ensures var n, t := WriteByte(l, b), WriteByte(m, b);
      n.display == t.display && n.latch == t.latch && n.shown == l.shown && t.callback && !n.callback
  {
    hide Execute, Render;
  }

  lemma {:induction false} FeedUnheard(l: Lcd, stream: seq<Byte>)
    requires !l.callback
    ensures var n, t := Feed(l, stream), Feed(l.(callback := true), stream);
      n.display == t.display && n.latch == t.latch && n.shown == l.shown && t.callback && !n.callback
  {
    hide WriteByte;
    if stream != [] {
      var front := stream[..|stream| - 1];
      FeedUnheard(l, front);
      WriteUnheard(Feed(l, front), Feed(l.(callback := true), front), stream[|stream| - 1]);
    }
  }

  /** After any history, a byte stream does to cells and cursor what it would do to a display
      with a callback, and its reports are made exactly if the callback was set after the last
      initialisation. */
  lemma ReportedIffArmed(l: Lcd, history: seq<Event>, stream: seq<Byte>)
    ensures var m, n := Live(l, history), Live(l, history + Ports(stream));
      var t := Feed(m.(callback := true), stream);
      && n.display == t.display && n.latch == t.latch
      && n.shown == (if Armed(l.callback, history) then t.shown else m.shown)
  {
    hide Live, Feed, Armed;
    ListenerExact(l, history);
    LiveAppend(l, history, Ports(stream));
    var m := Live(l, history);
    LivePorts(m, stream);
    if m.callback {
      assert m.(callback := true) == m;
    } else {
      FeedUnheard(m, stream);
    }
  }

  lemma LiveTwo(l: Lcd, a: Event, b: Event)
    ensures Live(l, [a, b]) == Handle(Handle(l, a), b)
  {
    hide Handle;
    assert [a][..0] == [];
    assert Live(l, [a]) == Handle(Live(l, []), a);
    assert [a, b][..1] == [a];
  }

  /** Set before initialisation, the callback hears nothing, whatever the firmware writes; set
      after it, it hears the first character. */
  lemma OrderMatters(l: Lcd, history: seq<Event>, stream: seq<Byte>, light: bool)
    ensures Live(l, history + [Listen(true), Initialise] + Ports(stream)).shown == []
    ensures var typed := Opening(light) + Encode(Typed([0x41]), light);
      Live(l, history + [Initialise, Listen(true)] + Ports(typed)).shown != []
  {
    hide Opening, Encode, Typed, WriteByte, Armed;
    var early, late := [Listen(true), Initialise], [Initialise, Listen(true)];
    var m := Live(l, history);
    LiveTwo(m, Listen(true), Initialise);
    LiveTwo(m, Initialise, Listen(true));
    LiveAppend(l, history, early);
    LiveAppend(l, history + early, Ports(stream));
    LivePorts(AfterReset(false), stream);
    FeedUnheard(AfterReset(false), stream);
    var typed := Opening(light) + Encode(Typed([0x41]), light);
    LiveAppend(l, history, late);
    LiveAppend(l, history + late, Ports(typed));
    LivePorts(AfterReset(true), typed);
    FirstCharacterHeard(light);
  }

  lemma FirstCharacterHeard(light: bool)
    ensures Feed(AfterReset(true), Opening(light) + Encode(Typed([0x41]), light)).shown != []
  {
    var code := Encode(Typed([0x41]), light);
    var typed := Opening(light) + code;
    ReportsFaithful(typed, true);
    FeedAppend(AfterReset(true), Opening(light), code);
    InitSequence(true, light);
    var m := Feed(AfterReset(true), Opening(light));
    TypingWrites(m, [0x41], light);
    hide Feed, Encode, Typed, WriteByte, Opening;
    var n := Feed(AfterReset(true), typed);
    assert n.display == WriteAll(AfterReset(true).display, [0x41]);
    assert n.display.ddram[0] == 0x41 by {
      WriteFirst(AfterReset(true).display);
    }
    assert Blank()[0] == SPACE;
    FeedCallback(AfterReset(true), typed);
  }

  lemma WriteFirst(d: Display)
    requires d.cursor == 0
    ensures WriteAll(d, [0x41]).ddram[0] == 0x41
  {
    assert [0x41 as Byte][..0] == [];
  }

  lemma {:induction false} FeedCallback(l: Lcd, stream: seq<Byte>)
    ensures Feed(l, stream).callback == l.callback
  {
    hide WriteByte;
    if stream != [] {
      FeedCallback(l, stream[..|stream| - 1]);
      WriteCallback(Feed(l, stream[..|stream| - 1]), stream[|stream| - 1]);
    }
  }
}
