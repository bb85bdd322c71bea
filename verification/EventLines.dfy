/** The event wire: strings are escaped, one event is one line, and the reader puts the lines
    together again however the bytes arrive. */
module EventLines {
  import opened Bytes

  type Text = seq<Byte>

  const LF: Byte := 10
  const QUOTE: Byte := 34
  const BACKSLASH: Byte := 92

  // ----- escaping -----

  function HexDigit(v: int): (d: Byte)
    requires 0 <= v < 16
    ensures (48 <= d <= 57 && d - 48 == v) || (97 <= d <= 102 && d - 87 == v)
  {
    if v < 10 then 48 + v else 87 + v
  }

  /** What one byte is written as. */
  function EscapeByte(c: Byte): (t: Text)
    ensures 1 <= |t| <= 6
    ensures forall i :: 0 <= i < |t| ==> t[i] >= 0x20
  {
    if c == QUOTE then [BACKSLASH, QUOTE]
    else if c == BACKSLASH then [BACKSLASH, BACKSLASH]
    else if c == 8 then [BACKSLASH, 98]
    else if c == 12 then [BACKSLASH, 102]
    else if c == 10 then [BACKSLASH, 110]
    else if c == 13 then [BACKSLASH, 114]
    else if c == 9 then [BACKSLASH, 116]
    else if c < 0x20 then [BACKSLASH, 117, 48, 48, HexDigit(c / 16), HexDigit(c % 16)]
    else [c]
  }

  /** Seven bytes have a two-character escape, the other control bytes take six characters, and
      everything else stands for itself. */
  lemma EscapeLength(c: Byte)
    ensures |EscapeByte(c)| == if c in {8, 9, 10, 12, 13, 34, 92} then 2 else if c < 0x20 then 6 else 1
    ensures c >= 0x20 && c != 34 && c != 92 ==> EscapeByte(c) == [c]
  {
  }

  function Escape(s: Text): (t: Text)
    ensures forall i :: 0 <= i < |t| ==> t[i] >= 0x20
    ensures |t| >= |s|
  {
    if s == [] then [] else Escape(s[..|s| - 1]) + EscapeByte(s[|s| - 1])
  }

  method EmitEscaped(s: Text) returns (out: Text)
    ensures out == Escape(s)
  {
    out := [];
    assert s[..0] == [];
    for i := 0 to |s|
      invariant out == Escape(s[..i])
    {
      assert s[..i + 1][..i] == s[..i];
      var c := s[i];
      if c == QUOTE {
        out := out + [BACKSLASH, QUOTE];
      } else if c == BACKSLASH {
        out := out + [BACKSLASH, BACKSLASH];
      } else if c == 8 {
        out := out + [BACKSLASH, 98];
      } else if c == 12 {
        out := out + [BACKSLASH, 102];
      } else if c == 10 {
        out := out + [BACKSLASH, 110];
      } else if c == 13 {
        out := out + [BACKSLASH, 114];
      } else if c == 9 {
        out := out + [BACKSLASH, 116];
      } else if c < 0x20 {
        out := out + [BACKSLASH, 117, 48, 48, HexDigit(c / 16), HexDigit(c % 16)];
      } else {
        out := out + [c];
      }
    }
    assert s[..|s|] == s;
  }

  // ----- reading a string back, after section 7 of RFC 8259 -----

  /** A string body up to its closing quote, and what follows the quote. */
  datatype Parsed = Parsed(value: Text, rest: Text) | Bad

  function HexValue(d: Byte): (v: int)
    ensures -1 <= v < 16
  {
    if 48 <= d <= 57 then d - 48 else if 97 <= d <= 102 then d - 87 else if 65 <= d <= 70 then d - 55 else -1
  }

  /** One character of a string body, which is not its closing quote: value and length. */
  function ReadByte(t: Text): (r: (int, nat))
    ensures r.0 >= 0 ==> 1 <= r.1 <= |t|
    ensures r.0 < 256
  {
    if t == [] || t[0] < 0x20 || t[0] == QUOTE then (-1, 0)
    else if t[0] != BACKSLASH then (t[0], 1)
    else if |t| < 2 then (-1, 0)
    else if t[1] == QUOTE || t[1] == BACKSLASH || t[1] == 47 then (t[1], 2)
    else if t[1] == 98 then (8, 2)
    else if t[1] == 102 then (12, 2)
    else if t[1] == 110 then (10, 2)
    else if t[1] == 114 then (13, 2)
    else if t[1] == 116 then (9, 2)
    else if t[1] == 117 && |t| >= 6 && t[2] == 48 && t[3] == 48 && HexValue(t[4]) >= 0 && HexValue(t[5]) >= 0 then
      (16 * HexValue(t[4]) + HexValue(t[5]), 6)
    else (-1, 0)
  }

  function ReadString(t: Text): (r: Parsed)
    decreases |t|
  {
    if t != [] && t[0] == QUOTE then Parsed([], t[1..])
    else
      var (c, n) := ReadByte(t);
      if c < 0 then Bad
      else
        match ReadString(t[n..])
        case Bad => Bad
        case Parsed(v, rest) => Parsed([c] + v, rest)
  }

  lemma ByteRoundTrip(c: Byte, rest: Text)
    ensures var t := EscapeByte(c);
      ReadByte(t + rest) == (c, |t|) && t[0] != QUOTE && (t + rest)[|t|..] == rest
  {
  }

  lemma {:induction false} EscapeFirst(s: Text)
    requires s != []
    ensures Escape(s) == EscapeByte(s[0]) + Escape(s[1..])
  {
    hide EscapeByte;
    if |s| == 1 {
      assert Escape(s[..0]) == [];
      assert EscapeByte(s[0]) + [] == [] + EscapeByte(s[0]);
    } else {
      var front := s[..|s| - 1];
      EscapeFirst(front);
      assert front[1..] == s[1..][..|s[1..]| - 1];
    }
  }

  /** The reader gets back exactly the escaped bytes and finds the closing quote, whatever
      follows it. */
  lemma {:induction false} StringRoundTrip(s: Text, rest: Text)
    ensures ReadString(Escape(s) + [QUOTE] + rest) == Parsed(s, rest)
    decreases |s|
  {
    hide EscapeByte, ReadByte;
    if s == [] {
      assert Escape(s) + [QUOTE] + rest == [QUOTE] + rest;
    } else {
      var tail := Escape(s[1..]) + [QUOTE] + rest;
      EscapeFirst(s);
      StringRoundTrip(s[1..], rest);
      ByteRoundTrip(s[0], tail);
      assert Escape(s) + [QUOTE] + rest == EscapeByte(s[0]) + tail;
      assert [s[0]] + s[1..] == s;
    }
  }

  /** Different byte strings are written differently. */
  lemma EscapeInjective(a: Text, b: Text)
    requires Escape(a) == Escape(b)
    ensures a == b
  {
    StringRoundTrip(a, []);
    StringRoundTrip(b, []);
  }

  // ----- lines -----

  function Find(t: Text, from: nat): (p: int)
    requires from <= |t|
    ensures p == -1 || from <= p < |t|
    ensures p >= 0 ==> t[p] == LF && forall i :: from <= i < p ==> t[i] != LF
    ensures p < 0 ==> forall i :: from <= i < |t| ==> t[i] != LF
    decreases |t| - from
  {
    if from == |t| then -1 else if t[from] == LF then from else Find(t, from + 1)
  }

  /** The complete lines of a byte stream, without their terminators. */
  function Lines(t: Text): (ls: seq<Text>)
    decreases |t|
  {
    var p := Find(t, 0);
    if p < 0 then [] else [t[..p]] + Lines(t[p + 1..])
  }

  /** What follows the last terminator. */
  function Remainder(t: Text): (r: Text)
    ensures |r| <= |t|
    decreases |t|
  {
    var p := Find(t, 0);
    if p < 0 then t else Remainder(t[p + 1..])
  }

  class LineReader {
    var buffer: Text

    constructor ()
      ensures buffer == []
    {
      buffer := [];
    }

    /** Take a chunk of the engine's output; `out` are the lines dispatched for it. */
    method OnStdout(chunk: Text) returns (out: seq<Text>)
      modifies this
      ensures out == Lines(old(buffer) + chunk) && buffer == Remainder(old(buffer) + chunk)
    {
      buffer := buffer + chunk;
      ghost var all := buffer;
      out := [];
      var open := true;
      while open
        invariant open ==> Lines(all) == out + Lines(buffer) && Remainder(all) == Remainder(buffer)
        invariant !open ==> Lines(all) == out && Remainder(all) == buffer
        decreases open, |buffer|
      {
        var nl := Find(buffer, 0);
        if nl < 0 {
          open := false;
        } else {
          var line := buffer[..nl];
          buffer := buffer[nl + 1..];
          out := out + [line];
        }
      }
    }
  }

  lemma FindAppend(a: Text, b: Text, from: nat)
    requires from <= |a| && Find(a, from) >= 0
    ensures Find(a + b, from) == Find(a, from)
    decreases |a| - from
  {
    if a[from] != LF {
      FindAppend(a, b, from + 1);
    }
  }

  /** Handling two chunks one after the other is handling them at once. */
  lemma {:induction false} ChunksJoin(a: Text, b: Text)
    ensures Lines(a + b) == Lines(a) + Lines(Remainder(a) + b)
    ensures Remainder(a + b) == Remainder(Remainder(a) + b)
    decreases |a|
  {
    hide Lines, Remainder, Find;
    var p := Find(a, 0);
    LinesStep(a);
    LinesStep(a + b);
    if p < 0 {
      assert Lines(a) + Lines(a + b) == Lines(a + b);
    } else {
      var rest := a[p + 1..];
      FindAppend(a, b, 0);
      assert (a + b)[p + 1..] == rest + b && (a + b)[..p] == a[..p];
      ChunksJoin(rest, b);
      assert [a[..p]] + (Lines(rest) + Lines(Remainder(rest) + b)) == ([a[..p]] + Lines(rest)) + Lines(Remainder(rest) + b);
    }
  }

  lemma LinesStep(t: Text)
    ensures var p := Find(t, 0);
      && Lines(t) == (if p < 0 then [] else [t[..p]] + Lines(t[p + 1..]))
      && Remainder(t) == (if p < 0 then t else Remainder(t[p + 1..]))
  {
  }

  function Flatten(chunks: seq<Text>): Text {
    if chunks == [] then [] else Flatten(chunks[..|chunks| - 1]) + chunks[|chunks| - 1]
  }

  /** What a reader that starts with an empty buffer dispatches for a sequence of chunks, and
      the buffer it ends with. */
  function Dispatched(chunks: seq<Text>): (r: (seq<Text>, Text)) {
    if chunks == [] then ([], [])
    else
      var (ls, buffer) := Dispatched(chunks[..|chunks| - 1]);
      var all := buffer + chunks[|chunks| - 1];
      (ls + Lines(all), Remainder(all))
  }

  /** The cuts between chunks do not matter. */
  lemma {:induction false} ChunkingIrrelevant(chunks: seq<Text>)
    ensures Dispatched(chunks) == (Lines(Flatten(chunks)), Remainder(Flatten(chunks)))
  {
    hide Lines, Remainder;
    if chunks == [] {
      assert Lines([]) == [] && Remainder([]) == [] by {
        NoLines();
      }
    } else {
      ChunkingIrrelevant(chunks[..|chunks| - 1]);
      ChunksJoin(Flatten(chunks[..|chunks| - 1]), chunks[|chunks| - 1]);
    }
  }

  /** Lines with their terminators, one after the other. */
  function Unlines(ls: seq<Text>): Text {
    if ls == [] then [] else ls[0] + [LF] + Unlines(ls[1..])
  }

  /** Nothing is lost or moved: the lines with their terminators, followed by the remainder, are
      the stream; no line and no remainder holds a terminator. Empty lines are lines too. */
  lemma {:induction false} LinesRestore(t: Text)
    ensures Unlines(Lines(t)) + Remainder(t) == t
    ensures (forall i :: 0 <= i < |Lines(t)| ==> OneLine(Lines(t)[i])) && OneLine(Remainder(t))
    decreases |t|
  {
    LinesStep(t);
    hide Lines, Remainder;
    var p := Find(t, 0);
    if p >= 0 {
      var rest := t[p + 1..];
      LinesRestore(rest);
      assert Lines(t)[1..] == Lines(rest);
      assert t == t[..p] + [LF] + rest;
      assert forall i :: 1 <= i < |Lines(t)| ==> Lines(t)[i] == Lines(rest)[i - 1];
    }
  }

  lemma NoLines()
    ensures Lines([]) == [] && Remainder([]) == []
  {
  }

  // ----- events -----

  /** An event with one escaped string: what precedes and follows it holds no line feed. */
  datatype Event = Event(head: Text, payload: Text, tail: Text)

  predicate OneLine(t: Text) { forall i :: 0 <= i < |t| ==> t[i] != LF }

  predicate Valid(e: Event) { OneLine(e.head) && OneLine(e.tail) }

  function EventLine(e: Event): Text { e.head + Escape(e.payload) + [QUOTE] + e.tail }

  function Wire(es: seq<Event>): Text {
    if es == [] then [] else EventLine(es[0]) + [LF] + Wire(es[1..])
  }

  function EventLines(es: seq<Event>): (ls: seq<Text>)
    ensures |ls| == |es| && forall i :: 0 <= i < |es| ==> ls[i] == EventLine(es[i])
  {
    if es == [] then [] else [EventLine(es[0])] + EventLines(es[1..])
  }

  lemma LineFirst(line: Text, rest: Text)
    requires OneLine(line)
    ensures Lines(line + [LF] + rest) == [line] + Lines(rest)
    ensures Remainder(line + [LF] + rest) == Remainder(rest)
  {
    var t := line + [LF] + rest;
    var p := Find(t, 0);
    assert t[|line|] == LF;
    assert forall i :: 0 <= i < |line| ==> t[i] == line[i];
    assert p == |line|;
    assert t[..p] == line && t[p + 1..] == rest;
  }

  lemma {:induction false} WireLines(es: seq<Event>)
    requires forall i :: 0 <= i < |es| ==> Valid(es[i])
    ensures Lines(Wire(es)) == EventLines(es) && Remainder(Wire(es)) == []
  {
    hide Lines, Remainder, Escape;
    if es == [] {
      NoLines();
    } else {
      WireLines(es[1..]);
      LineFirst(EventLine(es[0]), Wire(es[1..]));
    }
  }

  /** However the engine's output is cut into chunks, the reader dispatches exactly the event
      lines, in order, keeps nothing back, and the payload of each can be read back from it. */
  lemma EventsArrive(es: seq<Event>, chunks: seq<Text>)
    requires (forall i :: 0 <= i < |es| ==> Valid(es[i])) && Flatten(chunks) == Wire(es)
    ensures Dispatched(chunks) == (EventLines(es), [])
    ensures forall i :: 0 <= i < |es| ==>
      ReadString(EventLines(es)[i][|es[i].head|..]) == Parsed(es[i].payload, es[i].tail)
  {
    hide Lines, Remainder, Escape, ReadString, Wire, Dispatched, Flatten;
    ChunkingIrrelevant(chunks);
    WireLines(es);
    forall i | 0 <= i < |es|
      ensures ReadString(EventLines(es)[i][|es[i].head|..]) == Parsed(es[i].payload, es[i].tail)
    {
      var e := es[i];
      StringRoundTrip(e.payload, e.tail);
      assert EventLine(e)[|e.head|..] == Escape(e.payload) + [QUOTE] + e.tail;
    }
  }
}
