/** The Intel-HEX loader: which bytes a text puts where, and the in-place loader that does it. */
module IntelHex {
  import opened Bytes

  /** The value of min_addr while nothing has been loaded. */
  const NOTHING := 0xFFFF_FFFF

  /** Addresses are unsigned and 32 bits wide. */
  const WORD := 0x1_0000_0000

  datatype Chunk = Chunk(addr: nat, data: seq<Byte>)

  /** The data records met so far with their absolute addresses, and the loader's variables. */
  datatype Scan = Scan(chunks: seq<Chunk>, segment: nat, min: nat, max: nat)

  /** `Wild`: a data record has passed the capacity check although it does not lie within the
      flash. What the program does from there on is undefined and not modelled. */
  datatype Outcome = More(s: Scan) | Stop(s: Scan) | Fail(s: Scan) | Wild(s: Scan)

  datatype Option<T> = None | Some(value: T)

  /** What one line says. `Junk` lines are skipped, and records of an ignored type as well. */
  datatype Record = Junk | Malformed | Data(offset: nat, data: seq<Byte>) | EndOfFile | Base(base: nat) | Ignored

  // ----- one line -----

  function Nibble(c: char): int {
    if '0' <= c <= '9' then c as int - '0' as int
    else if 'a' <= c <= 'f' then c as int - 'a' as int + 10
    else if 'A' <= c <= 'F' then c as int - 'A' as int + 10
    else -1
  }

  function HexByte(line: string, k: nat): (v: int)
    requires k + 1 < |line|
    ensures -1 <= v < 256
  {
    var hi, lo := Nibble(line[k]), Nibble(line[k + 1]);
    if hi < 0 || lo < 0 then -1 else 16 * hi + lo
  }

  /** The i-th byte of the hex digits that start at character k. */
  function HexAt(line: string, k: nat, i: nat): (v: int)
    requires k + 2 * i + 1 < |line|
    ensures -1 <= v < 256
  {
    HexByte(line, k + 2 * i)
  }

  /** The n bytes whose hex digits start at character k. */
  function HexBytes(line: string, k: nat, n: nat): (r: Option<seq<Byte>>)
    requires k + 2 * n <= |line|
    ensures r.Some? ==> |r.value| == n && forall i :: 0 <= i < n ==> r.value[i] == HexAt(line, k, i)
    ensures r.Some? <==> forall i :: 0 <= i < n ==> HexAt(line, k, i) >= 0
  {
    if n == 0 then Some([])
    else
      var front, last := HexBytes(line, k, n - 1), HexAt(line, k, n - 1);
      if front.None? || last < 0 then None else Some(front.value + [last])
  }

  function Sum(bs: seq<Byte>): nat {
    if bs == [] then 0 else Sum(bs[..|bs| - 1]) + bs[|bs| - 1] as int
  }

  function Word(hi: Byte, lo: Byte): (w: nat) { (hi as int) * 256 + lo as int }

  /** Count, address and type, then the data, then the checksum: `all` is those count + 5 bytes. */
  function Interpret(all: seq<Byte>): Record
    requires |all| >= 5
  {
    if Sum(all) % 256 != 0 then Malformed else Classify(all[..4], all[4..|all| - 1])
  }

  function Classify(head: seq<Byte>, data: seq<Byte>): Record
    requires |head| == 4
  {
    match head[3]
      case 0 => Data(Word(head[1], head[2]), data)
      case 1 => EndOfFile
      case 2 => if |data| != 2 then Malformed else Base(Word(data[0], data[1]) * 0x10)
      case 4 => if |data| != 2 then Malformed else Base(Word(data[0], data[1]) * 0x1_0000)
      case _ => Ignored
  }

  function Decode(line: string): Record {
    if |line| < 11 || line[0] != ':' then Junk
    else
      var head := HexBytes(line, 1, 4);
      if head.None? || |line| < 11 + 2 * (head.value[0] as int) then Malformed
      else
        var body := HexBytes(line, 9, head.value[0] as int + 1);
        if body.None? then Malformed else Interpret(head.value + body.value)
  }

  /** One line against a flash of `cap` bytes. The capacity check adds with wrap-around. */
  function ScanLine(line: string, cap: nat, s: Scan): Outcome {
    match Decode(line)
    case Malformed => Fail(s)
    case EndOfFile => Stop(s)
    case Base(b) => More(s.(segment := b))
    case Data(offset, data) =>
      var addr := (s.segment + offset) % WORD;
      if (addr + |data|) % WORD > cap then Fail(s)
      else if addr + |data| > cap then Wild(s)
      else More(Scan(s.chunks + [Chunk(addr, data)], s.segment,
                     if addr < s.min then addr else s.min,
                     if addr + |data| > s.max then addr + |data| else s.max))
    case _ => More(s)
  }

  // ----- a text -----

  /** The first line feed from p on, or where the text ends. A NUL character ends the text. */
  function LineEnd(text: string, p: nat): (e: nat)
    requires p <= |text|
    ensures p <= e <= |text|
    ensures forall i :: p <= i < e ==> text[i] != '\n' && text[i] != '\0'
    ensures e < |text| ==> text[e] == '\n' || text[e] == '\0'
    decreases |text| - p
  {
    if p == |text| || text[p] == '\n' || text[p] == '\0' then p else LineEnd(text, p + 1)
  }

  /** The line without carriage returns at its end. */
  function Trim(line: string): (r: string)
    ensures r <= line
  {
    if line != [] && line[|line| - 1] == '\r' then Trim(line[..|line| - 1]) else line
  }

  function ScanText(text: string, p: nat, cap: nat, s: Scan): Outcome
    requires p <= |text|
    decreases |text| - p
  {
    if p == |text| || text[p] == '\0' then Stop(s)
    else
      var e := LineEnd(text, p);
      match ScanLine(Trim(text[p..e]), cap, s)
      case More(t) => if e == |text| || text[e] == '\0' then Stop(t) else ScanText(text, e + 1, cap, t)
      case r => r
  }

  const START := Scan([], 0, NOTHING, 0)

  /** The whole text; loading nothing is a failure. */
  function LoadResult(text: string, cap: nat): Outcome {
    var r := ScanText(text, 0, cap, START);
    if r.Stop? && r.s.min == NOTHING then Fail(r.s) else r
  }

  // ----- what a load puts into flash -----

  function Overlay(flash: seq<Byte>, chunks: seq<Chunk>): (r: seq<Byte>)
    requires Fits(chunks, |flash|)
    ensures |r| == |flash|
  {
    if chunks == [] then flash
    else
      var front, c := chunks[..|chunks| - 1], chunks[|chunks| - 1];
      var f := Overlay(flash, front);
      f[..c.addr] + c.data + f[c.addr + |c.data|..]
  }

  predicate Fits(chunks: seq<Chunk>, cap: nat) {
    forall i :: 0 <= i < |chunks| ==> chunks[i].addr + |chunks[i].data| <= cap
  }

  predicate Covers(c: Chunk, a: int) { c.addr <= a < c.addr + |c.data| }

  /** The byte that the last chunk covering address a puts there. */
  function Written(chunks: seq<Chunk>, a: nat): (r: Option<Byte>)
    ensures r.Some? <==> exists i :: 0 <= i < |chunks| && Covers(chunks[i], a)
  {
    if chunks == [] then None
    else
      var c := chunks[|chunks| - 1];
      if Covers(c, a) then Some(c.data[a - c.addr]) else Written(chunks[..|chunks| - 1], a)
  }

  /** Later records win, and addresses that no record covers keep their byte. */
  lemma {:induction false} OverlayAt(flash: seq<Byte>, chunks: seq<Chunk>, a: nat)
    requires Fits(chunks, |flash|) && a < |flash|
    ensures var w := Written(chunks, a); Overlay(flash, chunks)[a] == if w.Some? then w.value else flash[a]
  {
    if chunks != [] {
      OverlayAt(flash, chunks[..|chunks| - 1], a);
    }
  }

  /** The chunks lie in [min, max), min and max are attained, and max is within the flash. */
  ghost predicate Bounded(s: Scan, cap: nat) {
    && Fits(s.chunks, cap)
    && (forall i :: 0 <= i < |s.chunks| ==> s.min <= s.chunks[i].addr && s.chunks[i].addr + |s.chunks[i].data| <= s.max)
    && (s.min != NOTHING ==> exists i :: 0 <= i < |s.chunks| && s.chunks[i].addr == s.min)
    && (s.max != 0 ==> exists i :: 0 <= i < |s.chunks| && s.chunks[i].addr + |s.chunks[i].data| == s.max)
  }

  lemma ScanLineBounded(line: string, cap: nat, s: Scan)
    requires Bounded(s, cap)
    ensures Bounded(ScanLine(line, cap, s).s, cap)
  {
    hide Decode;
    var r := Decode(line);
    if r.Data? && ScanLine(line, cap, s).More? {
      var t := ScanLine(line, cap, s).s;
      assert t.chunks[..|s.chunks|] == s.chunks;
      assert forall i :: 0 <= i < |s.chunks| ==> t.chunks[i] == s.chunks[i];
      assert t.chunks[|s.chunks|] == Chunk((s.segment + r.offset) % WORD, r.data);
    }
  }

  /** What scanning does with the line that starts at p. */
  lemma ScanTextStep(text: string, p: nat, cap: nat, s: Scan)
    requires p < |text| && text[p] != '\0'
    ensures var e := LineEnd(text, p); var r := ScanLine(Trim(text[p..e]), cap, s);
      ScanText(text, p, cap, s) ==
        if !r.More? then r
        else if e == |text| || text[e] == '\0' then Stop(r.s)
        else ScanText(text, e + 1, cap, r.s)
  {
    hide ScanLine;
  }

  lemma {:induction false} ScanTextBounded(text: string, p: nat, cap: nat, s: Scan)
    requires p <= |text| && Bounded(s, cap)
    ensures Bounded(ScanText(text, p, cap, s).s, cap)
    decreases |text| - p
  {
    hide Bounded, ScanLine, Trim, LineEnd;
    if p < |text| && text[p] != '\0' {
      hide ScanText;
      ScanTextStep(text, p, cap, s);
      var e := LineEnd(text, p);
      ScanLineBounded(Trim(text[p..e]), cap, s);
      var r := ScanLine(Trim(text[p..e]), cap, s);
      if r.More? && e < |text| && text[e] != '\0' {
        ScanTextBounded(text, e + 1, cap, r.s);
      }
    }
  }

  lemma LoadBounded(text: string, cap: nat)
    ensures Bounded(LoadResult(text, cap).s, cap)
  {
    ScanTextBounded(text, 0, cap, START);
  }

  /** A load, whether it succeeds or not, changes no byte outside [min, max), and leaves every
      byte inside at the value of the last record that covers it. */
  lemma LoadIsOverlay(text: string, flash: seq<Byte>, a: nat)
    requires a < |flash|
    ensures var s := LoadResult(text, |flash|).s;
      && Fits(s.chunks, |flash|)
      && (Written(s.chunks, a).Some? ==> s.min <= a < s.max)
      && Overlay(flash, s.chunks)[a] == (match Written(s.chunks, a) case Some(b) => b case None => flash[a])
  {
    LoadBounded(text, |flash|);
    var s := LoadResult(text, |flash|).s;
    OverlayAt(flash, s.chunks, a);
  }

  // ----- the loader -----

  /** Write `data` at `addr`. */
  method CopyInto(flash: array<Byte>, addr: nat, data: seq<Byte>, ghost base: seq<Byte>, ghost chunks: seq<Chunk>)
    requires addr + |data| <= flash.Length
    requires |base| == flash.Length && Fits(chunks, |base|) && flash[..] == Overlay(base, chunks)
    modifies flash
    ensures Fits(chunks + [Chunk(addr, data)], |base|) && flash[..] == Overlay(base, chunks + [Chunk(addr, data)])
  {
    hide Overlay, Fits;
    OverlayAppend(base, chunks, Chunk(addr, data));
    ghost var was := flash[..];
    forall k | 0 <= k < |data| {
      flash[addr + k] := data[k];
    }
    assert forall i :: 0 <= i < addr ==> flash[i] == was[i];
    assert flash[addr..addr + |data|] == data;
    assert flash[..] == was[..addr] + data + was[addr + |data|..];
  }

  lemma OverlayAppend(base: seq<Byte>, chunks: seq<Chunk>, c: Chunk)
    requires Fits(chunks, |base|) && c.addr + |c.data| <= |base|
    ensures Fits(chunks + [c], |base|)
    ensures var f := Overlay(base, chunks); Overlay(base, chunks + [c]) == f[..c.addr] + c.data + f[c.addr + |c.data|..]
  {
    assert (chunks + [c])[..|chunks|] == chunks;
  }

  /** Read the data bytes and the checksum of a record whose four head bytes are `head`. */
  method ReadBody(line: string, head: seq<Byte>) returns (ok: bool, data: seq<Byte>)
    requires |head| == 4 && |line| >= 11 + 2 * (head[0] as int)
    ensures var body := HexBytes(line, 9, head[0] as int + 1);
      && (ok <==> body.Some? && Sum(head + body.value) % 256 == 0)
      && (ok ==> data == body.value[..head[0]])
  {
    hide Sum, HexByte;
    assert forall i :: 0 <= i <= head[0] as int ==> HexAt(line, 9, i) == HexByte(line, 9 + i * 2);
    hide HexAt;
    var count := head[0] as int;
    var cks := (head[0] as int + head[1] as int + head[2] as int + head[3] as int) % 256;
    SumOfFour(head);
    data := [];
    assert head + data == head;
    for i := 0 to count
      invariant HexBytes(line, 9, i) == Some(data)
      invariant cks == Sum(head + data) % 256
    {
      var b := HexByte(line, 9 + i * 2);
      if b < 0 {
        NoneStays(line, 9, i + 1, count + 1);
        return false, data;
      }
      SumAppend(head + data, b);
      RunningSum(Sum(head + data), b);
      assert head + data + [b] == head + (data + [b]);
      data := data + [b];
      cks := (cks + b) % 256;
    }
    var fileCks := HexByte(line, 9 + count * 2);
    if fileCks < 0 {
      return false, data;
    }
    SumAppend(head + data, fileCks);
    FinalSum(Sum(head + data), fileCks);
    assert head + data + [fileCks] == head + (data + [fileCks]);
    ok := (0x100 - cks) % 256 == fileCks;
  }

  lemma RunningSum(s: nat, b: Byte)
    ensures (s % 256 + b as int) % 256 == (s + b as int) % 256
  {
  }

  lemma FinalSum(s: nat, b: Byte)
    ensures (0x100 - s % 256) % 256 == b as int <==> (s + b as int) % 256 == 0
  {
  }

  lemma NoneStays(line: string, k: nat, i: nat, n: nat)
    requires i <= n && k + 2 * n <= |line| && HexBytes(line, k, i).None?
    ensures HexBytes(line, k, n).None?
  {
  }

  lemma SumOfFour(b: seq<Byte>)
    requires |b| == 4
    ensures Sum(b) == b[0] as int + b[1] as int + b[2] as int + b[3] as int
  {
    SumAppend([], b[0]);
    SumAppend([b[0]], b[1]);
    SumAppend([b[0], b[1]], b[2]);
    SumAppend([b[0], b[1], b[2]], b[3]);
    assert [] + [b[0]] == [b[0]] && [b[0]] + [b[1]] == [b[0], b[1]] && [b[0], b[1]] + [b[2]] == [b[0], b[1], b[2]];
    assert [b[0], b[1], b[2]] + [b[3]] == b;
  }

  lemma SumAppend(bs: seq<Byte>, b: Byte)
    ensures Sum(bs + [b]) == Sum(bs) + b as int
  {
    assert (bs + [b])[..|bs|] == bs;
  }

  /** One line: 0 to go on, 1 at the end-of-file record, -1 on an error, -2 where the program
      would write outside the flash. */
  method ParseRecord(line: string, flash: array<Byte>, segment: nat, min: nat, max: nat, ghost base: seq<Byte>, ghost s: Scan)
    returns (r: int, segment': nat, min': nat, max': nat)
    requires (s.segment, s.min, s.max) == (segment, min, max)
    requires |base| == flash.Length && Fits(s.chunks, |base|) && flash[..] == Overlay(base, s.chunks)
    modifies flash
    ensures var o := ScanLine(line, flash.Length, s);
      && r == (match o case More(_) => 0 case Stop(_) => 1 case Fail(_) => -1 case Wild(_) => -2)
      && (segment', min', max') == (o.s.segment, o.s.min, o.s.max)
      && Fits(o.s.chunks, |base|) && flash[..] == Overlay(base, o.s.chunks)
  {
    hide Overlay, Sum, HexByte, HexBytes;
    segment', min', max' := segment, min, max;
    if |line| < 11 || line[0] != ':' {
      return 0, segment, min, max;
    }
    var count, ah, al, rtype := HexByte(line, 1), HexByte(line, 3), HexByte(line, 5), HexByte(line, 7);
    HeadBytes(line);
    if count < 0 || ah < 0 || al < 0 || rtype < 0 {
      return -1, segment, min, max;
    }
    if |line| < 9 + count * 2 + 2 {
      return -1, segment, min, max;
    }
    var head := [count, ah, al, rtype];
    var ok, data := ReadBody(line, head);
    assert ok ==> Decode(line) == Classify(head, data) by {
      if ok {
        ghost var body := HexBytes(line, 9, count + 1).value;
        InterpretParts(head, body);
      }
    }
    assert !ok ==> Decode(line) == Malformed;
    if !ok {
      return -1, segment, min, max;
    }
    hide Decode;
    r := 0;
    match rtype
    case 0 =>
      var addr := (segment + (ah * 256 + al)) % WORD;
      if (addr + count) % WORD > flash.Length {
        return -1, segment, min, max;
      }
      if addr + count > flash.Length {
        return -2, segment, min, max;
      }
      CopyInto(flash, addr, data, base, s.chunks);
      if addr < min {
        min' := addr;
      }
      if addr + count > max {
        max' := addr + count;
      }
    case 1 => r := 1;
    case 2 =>
      if count != 2 {
        return -1, segment, min, max;
      }
      segment' := Word(data[0], data[1]) * 0x10;
    case 4 =>
      if count != 2 {
        return -1, segment, min, max;
      }
      segment' := Word(data[0], data[1]) * 0x1_0000;
    case _ =>
  }

  lemma InterpretParts(head: seq<Byte>, body: seq<Byte>)
    requires |head| == 4 && |body| > 0 && Sum(head + body) % 256 == 0
    ensures Interpret(head + body) == Classify(head, body[..|body| - 1])
  {
    var all := head + body;
    assert all[..4] == head && all[4..|all| - 1] == body[..|body| - 1];
  }

  lemma HeadBytes(line: string)
    requires |line| >= 9
    ensures var h := HexBytes(line, 1, 4);
      && (h.Some? <==> HexByte(line, 1) >= 0 && HexByte(line, 3) >= 0 && HexByte(line, 5) >= 0 && HexByte(line, 7) >= 0)
      && (h.Some? ==> h.value == [HexByte(line, 1), HexByte(line, 3), HexByte(line, 5), HexByte(line, 7)])
  {
    hide HexByte;
    assert HexAt(line, 1, 0) == HexByte(line, 1) && HexAt(line, 1, 1) == HexByte(line, 3);
    assert HexAt(line, 1, 2) == HexByte(line, 5) && HexAt(line, 1, 3) == HexByte(line, 7);
    hide HexAt, HexBytes;
    var h := HexBytes(line, 1, 4);
    if HexAt(line, 1, 0) >= 0 && HexAt(line, 1, 1) >= 0 && HexAt(line, 1, 2) >= 0 && HexAt(line, 1, 3) >= 0 {
      forall i | 0 <= i < 4 ensures HexAt(line, 1, i) >= 0 {
      }
    }
    if h.Some? {
      assert h.value == [HexAt(line, 1, 0), HexAt(line, 1, 1), HexAt(line, 1, 2), HexAt(line, 1, 3)];
    }
  }

  /** The end of the line text[p..e] without its trailing carriage returns. */
  method TrimmedEnd(text: string, p: nat, e: nat) returns (n: nat)
    requires p <= e <= |text|
    ensures p <= n <= e && text[p..n] == Trim(text[p..e])
  {
    n := e;
    while n > p && text[n - 1] == '\r'
      invariant p <= n <= e && Trim(text[p..e]) == Trim(text[p..n])
    {
      assert text[p..n][..n - p - 1] == text[p..n - 1];
      n := n - 1;
    }
  }

  /** Load a text into `flash`, in place, up to a record that would be written outside it. */
  method LoadText(text: string, flash: array<Byte>) returns (ok: bool, wild: bool, min: nat, max: nat)
    modifies flash
    ensures var o := LoadResult(text, flash.Length);
      && ok == o.Stop? && wild == o.Wild? && (min, max) == (o.s.min, o.s.max)
      && Fits(o.s.chunks, flash.Length) && flash[..] == Overlay(old(flash[..]), o.s.chunks)
  {
    hide ScanLine, Overlay, Trim, LineEnd;
    var segment := 0;
    wild, min, max := false, NOTHING, 0;
    ghost var base, s := flash[..], START;
    EmptyOverlay(base);
    var p, done := 0, false;
    while !done && p < |text| && text[p] != '\0'
      invariant p <= |text| && (s.segment, s.min, s.max) == (segment, min, max)
      invariant Fits(s.chunks, |base|) && flash[..] == Overlay(base, s.chunks)
      invariant ScanText(text, 0, |base|, START) == if done then Stop(s) else ScanText(text, p, |base|, s)
      decreases !done, |text| - p
    {
      hide ScanText, Fits;
      ScanTextStep(text, p, |base|, s);
      var e := LineEnd(text, p);
      var n := TrimmedEnd(text, p, e);
      var r;
      r, segment, min, max := ParseRecord(text[p..n], flash, segment, min, max, base, s);
      s := ScanLine(text[p..n], |base|, s).s;
      if r < 0 {
        return false, r == -2, min, max;
      }
      if r > 0 || e == |text| || text[e] == '\0' {
        done := true;
      } else {
        p := e + 1;
      }
    }
    ok := min != NOTHING;
  }

  lemma EmptyOverlay(base: seq<Byte>)
    ensures Overlay(base, []) == base
  {
  }
}
