/** The character display behind a PCF8574 port: the state machine as functions on values, and
    the object that the program updates in place. */
module I2cLcd {
  import opened Bytes

  const COLS := 16
  const CELLS := 32
  const ROW1 := 0x40
  const SPACE: Byte := 0x20
  const UNPRINTABLE: Byte := 0x3F

  type Cells = d: seq<Byte> | |d| == CELLS witness seq(CELLS, i => SPACE)

  /** What the display controller holds. */
  datatype Display = Display(ddram: Cells, cursor: Byte, increment: bool, on: bool)

  /** The latch between port and controller. */
  datatype Latch = Latch(lastByte: Byte, lastE: bool, hi: Byte, haveHi: bool, init8: bool, backlight: bool)

  /** `shown` are the texts passed to the callback since the last reset. */
  datatype Lcd = Lcd(latch: Latch, display: Display, callback: bool, shown: seq<Cells>)

  // ----- port bits -----

  predicate Rs(b: Byte) { b % 2 == 1 }
  predicate E(b: Byte) { b / 4 % 2 == 1 }
  predicate Backlight(b: Byte) { b / 8 % 2 == 1 }
  function High(b: Byte): (n: Byte) ensures n < 16 { b / 16 }

  // ----- cursor and cells -----

  predicate Visible(a: Byte) { a <= 0x0F || ROW1 <= a <= ROW1 + 0x0F }

  /** The cell behind a cursor address, or -1. */
  function Offset(a: Byte): (off: int)
    ensures -1 <= off < CELLS && (off >= 0 <==> Visible(a))
  {
    if a <= 0x0F then a else if ROW1 <= a <= ROW1 + 0x0F then COLS + (a - ROW1) else -1
  }

  function Advance(a: Byte, increment: bool): Byte {
    if increment then
      var next: Byte := if a == 255 then 0 else a + 1;
      if next == 0x10 then ROW1 else if next == ROW1 + 0x10 then 0 else next
    else if a == 0 then ROW1 + 0x0F
    else if a == ROW1 then 0x0F
    else a - 1
  }

  // ----- instructions -----

  function Blank(): Cells { seq(CELLS, i => SPACE) }

  function Command(d: Display, cmd: Byte): Display {
    if cmd == 0x01 then d.(ddram := Blank(), cursor := 0)
    else if cmd / 2 == 1 then d.(cursor := 0)
    else if cmd / 4 == 1 then d.(increment := cmd / 2 % 2 == 1)
    else if cmd / 8 == 1 then d.(on := cmd / 4 % 2 == 1)
    else if cmd / 32 == 1 then d
    else if cmd >= 128 then d.(cursor := cmd - 128)
    else d
  }

  function Data(d: Display, data: Byte): Display {
    var off := Offset(d.cursor);
    d.(ddram := if off >= 0 then d.ddram[off := data] else d.ddram, cursor := Advance(d.cursor, d.increment))
  }

  datatype Instr = Instr(rs: bool, byte: Byte)

  function Execute(d: Display, i: Instr): Display { if i.rs then Data(d, i.byte) else Command(d, i.byte) }

  // ----- what the user sees -----

  function Glyph(b: Byte): Byte { if 0x20 <= b < 0x7F then b else UNPRINTABLE }

  function Render(d: Cells): Cells { seq(CELLS, i requires 0 <= i < CELLS => Glyph(d[i])) }

  function Emit(l: Lcd): Lcd {
    var text := Render(l.display.ddram);
    if !l.callback || (l.shown != [] && l.shown[|l.shown| - 1] == text) then l
    else l.(shown := l.shown + [text])
  }

  /** Executing an instruction reports the text after data writes and after a clear. */
  function Perform(l: Lcd, i: Instr): Lcd {
    var m := l.(display := Execute(l.display, i));
    if i.rs || i.byte == 0x01 then Emit(m) else m
  }

  /** A nibble arrives on a falling edge of E. */
  function Receive(l: Lcd, rs: bool, nibble: Byte): Lcd
    requires nibble < 16
  {
    if l.latch.init8 then
      if !rs && nibble == 2 then l.(latch := l.latch.(init8 := false, haveHi := false)) else l
    else if !l.latch.haveHi then l.(latch := l.latch.(hi := nibble, haveHi := true))
    else Perform(l.(latch := l.latch.(haveHi := false)), Instr(rs, Full(l.latch.hi, nibble)))
  }

  /** The program shifts the stored nibble left within a byte. */
  function Full(hi: Byte, lo: Byte): (b: Byte)
    requires lo < 16
  {
    hi % 16 * 16 + lo
  }

  function WriteByte(l: Lcd, b: Byte): Lcd {
    var r := if l.latch.lastE && !E(b) then Receive(l, Rs(l.latch.lastByte), High(l.latch.lastByte)) else l;
    r.(latch := r.latch.(lastByte := b, lastE := E(b), backlight := Backlight(b)))
  }

  /** The bytes of a stream, in order. */
  function Feed(l: Lcd, stream: seq<Byte>): Lcd {
    if stream == [] then l else WriteByte(Feed(l, stream[..|stream| - 1]), stream[|stream| - 1])
  }

  function AfterReset(callback: bool): Lcd {
    Lcd(Latch(0, false, 0, false, true, false), Display(Blank(), 0, true, false), callback, [])
  }

  /** What happens to a display object: the program initialises it, resets it, sets or removes
      the callback, or the firmware writes a port byte. */
  datatype Event = Initialise | Restart | Listen(on: bool) | Port(b: Byte)

  /** Initialisation clears the whole object first, the callback included; a reset keeps it. */
  function Handle(l: Lcd, e: Event): Lcd {
    match e
    case Initialise => AfterReset(false)
    case Restart => AfterReset(l.callback)
    case Listen(on) => l.(callback := on)
    case Port(b) => WriteByte(l, b)
  }

  function Live(l: Lcd, history: seq<Event>): Lcd {
    if history == [] then l else Handle(Live(l, history[..|history| - 1]), history[|history| - 1])
  }

  // ----- the object -----

  class LcdDevice {
    var callback: bool
    var lastByte: Byte
    var lastE: bool
    var hiNibble: Byte
    var haveHiNibble: bool
    var inInit8bit: bool
    const ddram: array<Byte>
    var cursorAddr: Byte
    var autoIncrement: bool
    var displayOn: bool
    var backlightOn: bool
    const lastEmitted: array<Byte>
    var haveEmitted: bool
    ghost var shown: seq<Cells>

    /** The cache holds the text reported last. */
    ghost predicate Valid()
      reads this, lastEmitted
    {
      && ddram.Length == CELLS && lastEmitted.Length == CELLS && ddram != lastEmitted
      && (haveEmitted <==> shown != [])
      && (haveEmitted ==> lastEmitted[..] == shown[|shown| - 1])
    }

    ghost function View(): Lcd
      requires Valid()
      reads this, ddram, lastEmitted
    {
      Lcd(Latch(lastByte, lastE, hiNibble, haveHiNibble, inInit8bit, backlightOn),
          Display(ddram[..], cursorAddr, autoIncrement, displayOn), callback, shown)
    }

    constructor ()
      ensures Valid() && fresh(ddram) && fresh(lastEmitted) && View() == AfterReset(false)
    {
      callback := false;
      ddram := new Byte[CELLS](i => SPACE);
      lastEmitted := new Byte[CELLS](i => 0);
      cursorAddr, autoIncrement, displayOn, backlightOn := 0, true, false, false;
      lastByte, lastE, hiNibble, haveHiNibble, inInit8bit := 0, false, 0, false, true;
      haveEmitted, shown := false, [];
      new;
      assert ddram[..] == Blank();
    }

    /** Initialising an object in use. */
    method Init()
      requires Valid()
      modifies this, ddram, lastEmitted
      ensures Valid() && View() == Handle(old(View()), Initialise)
    {
      callback := false;
      Reset();
    }

    method SetCallback(on: bool)
      requires Valid()
      modifies this`callback
      ensures Valid() && View() == Handle(old(View()), Listen(on))
    {
      callback := on;
    }

    method ClearCells()
      requires ddram.Length == CELLS
      modifies ddram
      ensures ddram[..] == Blank()
    {
      forall i | 0 <= i < CELLS {
        ddram[i] := SPACE;
      }
    }

    method Reset()
      requires Valid()
      modifies this, ddram, lastEmitted
      ensures Valid() && View() == AfterReset(old(callback))
    {
      ClearCells();
      forall i | 0 <= i < CELLS {
        lastEmitted[i] := 0;
      }
      cursorAddr, autoIncrement, displayOn, backlightOn := 0, true, false, false;
      lastByte, lastE, hiNibble, haveHiNibble, inInit8bit := 0, false, 0, false, true;
      haveEmitted, shown := false, [];
    }

    /** The 32 characters of the two lines. */
    method GetLines() returns (text: array<Byte>)
      requires Valid()
      ensures fresh(text) && text[..] == Render(ddram[..])
    {
      text := new Byte[CELLS](_ => 0);
      for c := 0 to COLS
        invariant forall k :: 0 <= k < c || COLS <= k < COLS + c ==> text[k] == Glyph(ddram[k])
      {
        text[c] := Glyph(ddram[c]);
        text[COLS + c] := Glyph(ddram[COLS + c]);
      }
      assert forall k :: 0 <= k < CELLS ==> text[..][k] == Render(ddram[..])[k];
    }

    method EmitChanged()
      requires Valid()
      modifies this`haveEmitted, this`shown, lastEmitted
      ensures Valid() && View() == Emit(old(View()))
    {
      if !callback {
        return;
      }
      var text := GetLines();
      ghost var shot := text[..];
      ghost var l := View();
      assert l == old(View()) && shot == Render(l.display.ddram);
      hide Render;
      var same := haveEmitted;
      for i := 0 to CELLS
        invariant same <==> haveEmitted && forall k :: 0 <= k < i ==> text[k] == lastEmitted[k]
      {
        same := same && text[i] == lastEmitted[i];
      }
      assert same <==> l.shown != [] && l.shown[|l.shown| - 1] == shot;
      if same {
        return;
      }
      forall i | 0 <= i < CELLS {
        lastEmitted[i] := text[i];
      }
      assert lastEmitted[..] == shot;
      haveEmitted := true;
      shown := shown + [shot];
    }

    method CursorAdvance()
      modifies this`cursorAddr
      ensures cursorAddr == Advance(old(cursorAddr), autoIncrement)
    {
      if autoIncrement {
        cursorAddr := if cursorAddr == 255 then 0 else cursorAddr + 1;
        if cursorAddr == 0x10 {
          cursorAddr := ROW1;
        } else if cursorAddr == ROW1 + 0x10 {
          cursorAddr := 0x00;
        }
      } else {
        if cursorAddr == 0x00 {
          cursorAddr := ROW1 + 0x0F;
        } else if cursorAddr == ROW1 {
          cursorAddr := 0x0F;
        } else {
          cursorAddr := cursorAddr - 1;
        }
      }
    }

    method ApplyCommand(cmd: Byte)
      requires Valid()
      modifies this`cursorAddr, this`autoIncrement, this`displayOn, this`haveEmitted, this`shown, ddram, lastEmitted
      ensures Valid() && View() == Perform(old(View()), Instr(false, cmd))
    {
      hide Emit, Blank;
      if cmd == 0x01 {
        ClearCells();
        cursorAddr := 0;
        EmitChanged();
      } else if cmd / 2 == 1 {
        cursorAddr := 0;
      } else if cmd / 4 == 1 {
        autoIncrement := cmd / 2 % 2 == 1;
      } else if cmd / 8 == 1 {
        displayOn := cmd / 4 % 2 == 1;
      } else if cmd / 32 == 1 {
        // Function set: already in 4-bit mode.
      } else if cmd >= 128 {
        cursorAddr := cmd - 128;
      }
    }

    method ApplyData(data: Byte)
      requires Valid()
      modifies this`cursorAddr, this`haveEmitted, this`shown, ddram, lastEmitted
      ensures Valid() && View() == Perform(old(View()), Instr(true, data))
    {
      hide Emit, Advance;
      var off := Offset(cursorAddr);
      if off >= 0 {
        ghost var was := ddram[..];
        ddram[off] := data;
        assert ddram[..] == was[off := data];
      }
      CursorAdvance();
      EmitChanged();
    }

    method Write(b: Byte)
      requires Valid()
      modifies this, ddram, lastEmitted
      ensures Valid() && View() == Handle(old(View()), Port(b))
    {
      hide Perform;
      backlightOn := Backlight(b);
      var e := E(b);
      assert View() == old(View()).(latch := old(View()).latch.(backlight := Backlight(b)));
      if lastE && !e {
        LatchNibble(Rs(lastByte), High(lastByte));
        BacklightApart(old(View()), Rs(old(lastByte)), High(old(lastByte)), Backlight(b));
      }
      lastByte := b;
      lastE := e;
    }

    method LatchNibble(rs: bool, nibble: Byte)
      requires Valid() && nibble < 16
      modifies this`hiNibble, this`haveHiNibble, this`inInit8bit, this`cursorAddr, this`autoIncrement, this`displayOn,
        this`haveEmitted, this`shown, ddram, lastEmitted
      ensures Valid() && View() == Receive(old(View()), rs, nibble)
    {
      hide Perform;
      if inInit8bit {
        if !rs && nibble == 2 {
          inInit8bit := false;
          haveHiNibble := false;
        }
      } else if !haveHiNibble {
        hiNibble := nibble;
        haveHiNibble := true;
      } else {
        var full := hiNibble % 16 * 16 + nibble;
        haveHiNibble := false;
        if rs {
          ApplyData(full);
        } else {
          ApplyCommand(full);
        }
      }
    }
  }

  /** The backlight bit takes no part in what a nibble does. */
  lemma BacklightApart(l: Lcd, rs: bool, nibble: Byte, on: bool)
    requires nibble < 16
    ensures Receive(l.(latch := l.latch.(backlight := on)), rs, nibble)
      == var r := Receive(l, rs, nibble); r.(latch := r.latch.(backlight := on))
  {
  }
}
