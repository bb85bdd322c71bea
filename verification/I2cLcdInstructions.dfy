/** What each instruction of the display does to cells, cursor and reports, from the bytes on the
    port to the picture, told with the HD44780's numbers. */
module I2cLcdInstructions {
  import opened Bytes
  import opened I2cLcd
  import opened I2cLcdTheorems

  // ----- what is seen -----

  /** A report shows printable characters as they are and '?' for every other byte. */
  ghost predicate Shows(report: Cells, cells: Cells) {
    forall i :: 0 <= i < 32 ==> report[i] == if 0x20 <= cells[i] <= 0x7E then cells[i] else 0x3F
  }

  lemma RenderShows(d: Cells)
    ensures Shows(Render(d), d)
  {
  }

  /** With a callback the cells have just been reported, or are as they were last reported. */
  ghost predicate Reported(l: Lcd) { l.callback ==> l.shown != [] && Shows(l.shown[|l.shown| - 1], l.display.ddram) }

  lemma EmitReports(l: Lcd)
    ensures var m := Emit(l);
      && Reported(m) && m.display == l.display && (!l.callback ==> m.shown == l.shown)
      && (m.shown == l.shown || m.shown == l.shown + [Render(l.display.ddram)])
  {
    hide Render;
    RenderShows(l.display.ddram);
  }

  /** Data and Clear Display are followed by a report if the picture has changed; no other
      instruction is. */
  lemma OneReported(l: Lcd, i: Instr, light: bool)
    requires Aligned(l)
    ensures var m := Feed(l, EncodeOne(i, light));
      if i.rs || i.byte == 0x01 then Reported(m) else m.shown == l.shown
  {
    hide Feed, EncodeOne, Execute, Emit, Reported;
    OneExecuted(l, i, light);
    var d := l.(display := Execute(l.display, i));
    EmitReports(d);
    if i.rs || i.byte == 0x01 {
      EmitKeeps(d);
      ReportedAlike(Emit(d), Feed(l, EncodeOne(i, light)));
    }
  }

  lemma EmitKeeps(l: Lcd)
    ensures Emit(l).callback == l.callback
  {
    hide Render;
  }

  lemma ReportedAlike(a: Lcd, b: Lcd)
    requires a.display.ddram == b.display.ddram && a.shown == b.shown && a.callback == b.callback
    ensures Reported(a) <==> Reported(b)
  {
  }

  // ----- instructions -----

  function Ins(byte: Byte, light: bool): seq<Byte> { EncodeOne(Instr(false, byte), light) }

  /** Every instruction byte, clocked in from aligned 4-bit mode: 0x01 fills the 32 cells with
      spaces and homes the cursor; 0x02 and 0x03 home the cursor; 0x04 to 0x07 set the direction
      of writing from bit 1; 0x08 to 0x0F switch the display from bit 2; 0x80 to 0xFF move the
      cursor to the low seven bits; the others do nothing. Nothing else changes. */
  lemma InstructionTable(l: Lcd, byte: Byte, light: bool)
    requires Aligned(l)
    ensures var m := Feed(l, Ins(byte, light)); var d, e := l.display, m.display;
      && Aligned(m) && m.callback == l.callback && m.latch.backlight == light
      && (forall i :: 0 <= i < 32 ==> e.ddram[i] == if byte == 0x01 then 0x20 else d.ddram[i])
      && e.cursor == (if byte == 0x01 || byte == 0x02 || byte == 0x03 then 0
                      else if byte >= 0x80 then byte - 0x80 else d.cursor)
      && e.increment == (if byte == 0x06 || byte == 0x07 then true
                         else if byte == 0x04 || byte == 0x05 then false else d.increment)
      && e.on == (if 0x0C <= byte <= 0x0F then true else if 0x08 <= byte <= 0x0B then false else d.on)
      && (if byte == 0x01 then Reported(m) else m.shown == l.shown)
  {
    hide Feed, EncodeOne, Command, Perform, Reported;
    OneExecuted(l, Instr(false, byte), light);
    OneReported(l, Instr(false, byte), light);
    CommandTable(l.display, byte);
  }

  lemma CommandTable(d: Display, byte: Byte)
    ensures var e := Command(d, byte);
      && (forall i :: 0 <= i < 32 ==> e.ddram[i] == if byte == 0x01 then 0x20 else d.ddram[i])
      && e.cursor == (if byte == 0x01 || byte == 0x02 || byte == 0x03 then 0
                      else if byte >= 0x80 then byte - 0x80 else d.cursor)
      && e.increment == (if byte == 0x06 || byte == 0x07 then true
                         else if byte == 0x04 || byte == 0x05 then false else d.increment)
      && e.on == (if 0x0C <= byte <= 0x0F then true else if 0x08 <= byte <= 0x0B then false else d.on)
  {
  }

  /** The cell of a cursor address: two rows of 16 at 0x00 and 0x40. */
  function CellAt(a: Byte): (c: int)
    ensures -1 <= c < 32
  {
    if 0x00 <= a <= 0x0F then a else if 0x40 <= a <= 0x4F then 16 + (a - 0x40) else -1
  }

  /** A data byte goes to the cell under the cursor, if there is one, and to no other; in view the
      cursor then moves to the next cell of the ring of 32, forward or back. */
  lemma DataTable(l: Lcd, byte: Byte, light: bool)
    requires Aligned(l)
    ensures var m := Feed(l, EncodeOne(Instr(true, byte), light)); var d, e := l.display, m.display;
      && Aligned(m) && m.callback == l.callback && m.latch.backlight == light && Reported(m)
      && (forall i :: 0 <= i < 32 ==> e.ddram[i] == if i == CellAt(d.cursor) then byte else d.ddram[i])
      && (CellAt(d.cursor) >= 0 ==> CellAt(e.cursor) == (CellAt(d.cursor) + if d.increment then 1 else 31) % 32)
      && e.increment == d.increment && e.on == d.on
  {
    hide Feed, EncodeOne, Data, Perform, Reported;
    OneExecuted(l, Instr(true, byte), light);
    OneReported(l, Instr(true, byte), light);
    DataIs(l.display, byte);
  }

  lemma CellIsOffset(a: Byte)
    ensures CellAt(a) == Offset(a) && (CellAt(a) >= 0 <==> Visible(a))
  {
  }

  lemma DataIs(d: Display, byte: Byte)
    ensures var e := Data(d, byte);
      && (forall i :: 0 <= i < 32 ==> e.ddram[i] == if i == CellAt(d.cursor) then byte else d.ddram[i])
      && (CellAt(d.cursor) >= 0 ==> CellAt(e.cursor) == (CellAt(d.cursor) + if d.increment then 1 else 31) % 32)
      && e.increment == d.increment && e.on == d.on
  {
    hide Advance, Offset, CellAt;
    CellIsOffset(d.cursor);
    CellIsOffset(Advance(d.cursor, d.increment));
    if Visible(d.cursor) {
      VisibleWrite(d, byte);
    }
  }

  // ----- pictures -----

  /** The instruction bytes for `text`. */
  function Text(text: seq<Byte>, light: bool): seq<Byte> {
    if text == [] then [] else Text(text[..|text| - 1], light) + EncodeOne(Instr(true, text[|text| - 1]), light)
  }

  /** The cells hold `text` from cell 0 on, and spaces behind it. */
  ghost predicate Picture(cells: Cells, text: seq<Byte>) {
    forall i :: 0 <= i < 32 ==> cells[i] == if i < |text| then text[i] else 0x20
  }

  /** Typing on a blank display goes on where the text ends. */
  lemma {:induction false} TypingFills(l: Lcd, text: seq<Byte>, light: bool)
    requires Aligned(l) && Picture(l.display.ddram, []) && CellAt(l.display.cursor) == 0 && l.display.increment
    requires |text| <= 32
    ensures var m := Feed(l, Text(text, light));
      && Aligned(m) && m.callback == l.callback && m.display.increment && m.display.on == l.display.on
      && Picture(m.display.ddram, text) && CellAt(m.display.cursor) == |text| % 32
      && (text != [] || Reported(l) ==> Reported(m))
  {
    hide Feed, EncodeOne, CellAt, Reported, Aligned;
    if text == [] {
      assert Feed(l, []) == l by {
        FeedNothing(l);
      }
    } else {
      var front, b := text[..|text| - 1], text[|text| - 1];
      TypingFills(l, front, light);
      var m := Feed(l, Text(front, light));
      DataTable(m, b, light);
      FeedAppend(l, Text(front, light), EncodeOne(Instr(true, b), light));
    }
  }

  lemma FeedNothing(l: Lcd)
    ensures Feed(l, []) == l
  {
  }

  /** Whatever was on the display: clear it, set the cursor to move forward, and type up to 32
      characters. The display reads as the text followed by spaces, and with a callback that is
      the picture reported last, '?' standing for what cannot be shown. */
  lemma FreshText(l: Lcd, text: seq<Byte>, light: bool)
    requires Aligned(l) && |text| <= 32
    ensures var m := Feed(l, Ins(0x06, light) + Ins(0x01, light) + Text(text, light));
      && Aligned(m) && Picture(m.display.ddram, text) && CellAt(m.display.cursor) == |text| % 32
      && (l.callback ==> m.shown != [] && Shows(m.shown[|m.shown| - 1], m.display.ddram))
  {
    hide Feed, Ins, Text, CellAt, Aligned, Shows;
    var a := Feed(l, Ins(0x06, light));
    var b := Feed(a, Ins(0x01, light));
    InstructionTable(l, 0x06, light);
    InstructionTable(a, 0x01, light);
    HomeCell();
    TypingFills(b, text, light);
    FeedAppend(l, Ins(0x06, light), Ins(0x01, light));
    FeedAppend(l, Ins(0x06, light) + Ins(0x01, light), Text(text, light));
  }

  lemma HomeCell()
    ensures CellAt(0) == 0
  {
  }

  // ----- placing and direction -----

  /** SET DDRAM decides where the next character goes and the entry mode where the one after it:
      with the cursor set to cell k, two characters land in k and in the cell after or before it
      on the ring of 32; no other cell changes. */
  lemma PlacedPair(l: Lcd, forward: bool, k: int, b: Byte, c: Byte, light: bool)
    requires Aligned(l) && 0 <= k < 32
    ensures var entry := Ins(if forward then 0x06 else 0x04, light);
      var place := Ins(if k < 16 then 0x80 + k else 0xC0 + (k - 16), light);
      var m := Feed(l, entry + place + Text([b, c], light));
      var next := (k + if forward then 1 else 31) % 32;
      forall i :: 0 <= i < 32 ==> m.display.ddram[i] == if i == k then b else if i == next then c else l.display.ddram[i]
  {
    hide Feed, Ins, Aligned, CellAt, Reported;
    var entry, place := Ins(if forward then 0x06 else 0x04, light), Ins(if k < 16 then 0x80 + k else 0xC0 + (k - 16), light);
    var p := Feed(l, entry);
    var q := Feed(p, place);
    InstructionTable(l, if forward then 0x06 else 0x04, light);
    InstructionTable(p, if k < 16 then 0x80 + k else 0xC0 + (k - 16), light);
    PlaceCell(k);
    DataTable(q, b, light);
    var r := Feed(q, EncodeOne(Instr(true, b), light));
    DataTable(r, c, light);
    TextTwo(q, b, c, light);
    FeedAppend(l, entry, place);
    FeedAppend(l, entry + place, Text([b, c], light));
  }

  lemma PlaceCell(k: int)
    requires 0 <= k < 32
    ensures CellAt(if k < 16 then k else 0x40 + (k - 16)) == k
  {
  }

  lemma TextTwo(l: Lcd, b: Byte, c: Byte, light: bool)
    ensures Feed(l, Text([b, c], light)) ==
      Feed(Feed(l, EncodeOne(Instr(true, b), light)), EncodeOne(Instr(true, c), light))
  {
    hide Feed, EncodeOne;
    var x, y := EncodeOne(Instr(true, b), light), EncodeOne(Instr(true, c), light);
    assert [b, c][..1] == [b] && [b][..0] == [];
    assert Text([b], light) == [] + x;
    assert [] + x == x;
    FeedAppend(l, x, y);
  }

  // ----- from reset -----

  /** After reset and the standard opening: 32 spaces, cursor in cell 0 and moving forward,
      display off. */
  lemma OpeningLeaves(callback: bool, light: bool)
    ensures var m := Feed(AfterReset(callback), Opening(light)); var d := m.display;
      Aligned(m) && Picture(d.ddram, []) && d.cursor == 0 && d.increment && !d.on && m.callback == callback
  {
    InitSequence(callback, light);
    hide Opening;
    FeedCallback(AfterReset(callback), Opening(light));
    hide Feed;
  }

  /** So the first thing a sketch types after the opening reads as it was typed. */
  lemma FirstText(callback: bool, first: Byte, rest: seq<Byte>, light: bool)
    requires |rest| < 32
    ensures var m := Feed(AfterReset(callback), Opening(light) + Text([first] + rest, light));
      Picture(m.display.ddram, [first] + rest) && Reported(m)
  {
    hide Feed, Opening, Text, Aligned, CellAt, Reported;
    OpeningLeaves(callback, light);
    HomeCell();
    var l := Feed(AfterReset(callback), Opening(light));
    TypingFills(l, [first] + rest, light);
    FeedAppend(AfterReset(callback), Opening(light), Text([first] + rest, light));
  }
}
