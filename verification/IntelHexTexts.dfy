/** What the Intel-HEX loader does with whole files: rendering and loading are inverse, and a
    damaged byte is noticed. */
module IntelHexTexts {
  import opened Bytes
  import opened IntelHex

  // ----- files as lists of lines -----

  predicate LineFeed(eol: string) { eol == "\n" || eol == "\r\n" }

  /** A line as an editor shows it: no terminator inside and no carriage return at its end. */
  predicate Clean(line: string) {
    && (forall i :: 0 <= i < |line| ==> line[i] != '\n' && line[i] != '\0')
    && (line != [] ==> line[|line| - 1] != '\r')
  }

  function Join(lines: seq<string>, eol: string): string {
    if lines == [] then "" else lines[0] + eol + Join(lines[1..], eol)
  }

  function ScanLines(lines: seq<string>, cap: nat, s: Scan): Outcome {
    if lines == [] then More(s)
    else
      var r := ScanLine(lines[0], cap, s);
      if r.More? then ScanLines(lines[1..], cap, r.s) else r
  }

  function Ended(o: Outcome): Outcome { if o.More? then Stop(o.s) else o }

  lemma LineEndAt(text: string, p: nat, e: nat)
    requires p <= e < |text| && text[e] == '\n'
    requires forall i :: p <= i < e ==> text[i] != '\n' && text[i] != '\0'
    ensures LineEnd(text, p) == e
  {
  }

  lemma TrimClean(line: string, eol: string)
    requires Clean(line) && LineFeed(eol)
    ensures Trim(line + eol[..|eol| - 1]) == line
  {
    if eol == "\r\n" {
      assert eol[..1] == "\r";
      assert (line + "\r")[..|line|] == line;
    } else {
      assert line + eol[..0] == line;
    }
  }

  lemma FrontLine(pre: string, front: string, rest: string)
    requires forall i :: 0 <= i < |front| ==> front[i] != '\n' && front[i] != '\0'
    ensures var text := pre + (front + "\n" + rest); var e := |pre| + |front|;
      && e < |text| && text[|pre|] != '\0' && text[e] == '\n' && LineEnd(text, |pre|) == e
      && text[|pre|..e] == front && text == (pre + front + "\n") + rest
  {
    hide LineEnd;
    var text := pre + (front + "\n" + rest);
    assert text == (pre + front + "\n") + rest;
    assert forall i :: |pre| <= i < |pre| + |front| ==> text[i] == front[i - |pre|];
    LineEndAt(text, |pre|, |pre| + |front|);
  }

  lemma FirstLine(pre: string, line: string, eol: string, rest: string)
    requires Clean(line) && LineFeed(eol)
    ensures var text := pre + (line + eol + rest); var e := |pre| + |line| + |eol| - 1;
      && |pre| < |text| && text[|pre|] != '\0' && e < |text| && text[e] == '\n'
      && LineEnd(text, |pre|) == e && Trim(text[|pre|..e]) == line
      && text == (pre + line + eol) + rest
  {
    hide LineEnd, Trim;
    var front := line + eol[..|eol| - 1];
    assert front + "\n" == line + eol;
    FrontLine(pre, front, rest);
    TrimClean(line, eol);
    assert pre + front + "\n" == pre + (front + "\n") && pre + line + eol == pre + (line + eol);
  }

  /** Line by line: neither the kind of line end nor what precedes matters. */
  lemma {:induction false} ScanJoined(pre: string, lines: seq<string>, eol: string, cap: nat, s: Scan)
    requires LineFeed(eol) && forall i :: 0 <= i < |lines| ==> Clean(lines[i])
    ensures ScanText(pre + Join(lines, eol), |pre|, cap, s) == Ended(ScanLines(lines, cap, s))
    decreases |lines|
  {
    hide ScanLine, Clean;
    var text := pre + Join(lines, eol);
    if lines == [] {
      assert text == pre;
    } else {
      var rest := Join(lines[1..], eol);
      FirstLine(pre, lines[0], eol, rest);
      var r := ScanLine(lines[0], cap, s);
      if r.More? {
        ScanJoined(pre + lines[0] + eol, lines[1..], eol, cap, r.s);
      }
    }
  }

  /** Loading a file is scanning its lines. */
  lemma LoadJoined(lines: seq<string>, eol: string, cap: nat)
    requires LineFeed(eol) && forall i :: 0 <= i < |lines| ==> Clean(lines[i])
    ensures var o := Ended(ScanLines(lines, cap, START));
      LoadResult(Join(lines, eol), cap) == if o.Stop? && o.s.min == NOTHING then Fail(o.s) else o
  {
    ScanJoined("", lines, eol, cap, START);
    assert "" + Join(lines, eol) == Join(lines, eol);
  }

  lemma {:induction false} ScanAppend(a: seq<string>, b: seq<string>, cap: nat, s: Scan)
    ensures var r := ScanLines(a, cap, s);
      ScanLines(a + b, cap, s) == if r.More? then ScanLines(b, cap, r.s) else r
    decreases |a|
  {
    if a == [] {
      assert a + b == b;
    } else {
      assert (a + b)[1..] == a[1..] + b;
      var r := ScanLine(a[0], cap, s);
      if r.More? {
        ScanAppend(a[1..], b, cap, r.s);
      }
    }
  }

  // ----- rendering -----

  function Digit(v: nat): (c: char)
    requires v < 16
    ensures Nibble(c) == v && c != '\n' && c != '\0' && c != '\r'
  {
    if v < 10 then '0' + v as char else 'A' + (v - 10) as char
  }

  function HexText(bs: seq<Byte>): (s: string)
    ensures |s| == 2 * |bs|
    ensures forall i :: 0 <= i < |s| ==> s[i] != '\n' && s[i] != '\0' && s[i] != '\r'
  {
    if bs == [] then "" else HexText(bs[..|bs| - 1]) + [Digit(bs[|bs| - 1] / 16), Digit(bs[|bs| - 1] % 16)]
  }

  /** A record: colon, the bytes, and the byte that makes them all add up to 0 modulo 256. */
  function RecordLine(bs: seq<Byte>): string {
    ":" + HexText(bs + [(256 - Sum(bs) % 256) % 256])
  }

  lemma {:induction false} HexTextAt(bs: seq<Byte>, i: nat)
    requires i < |bs|
    ensures HexByte(HexText(bs), 2 * i) == bs[i]
  {
    if i < |bs| - 1 {
      HexTextAt(bs[..|bs| - 1], i);
      assert HexText(bs)[2 * i] == HexText(bs[..|bs| - 1])[2 * i];
      assert HexText(bs)[2 * i + 1] == HexText(bs[..|bs| - 1])[2 * i + 1];
    }
  }

  /** Decoding the digits of a record gives its bytes back. */
  lemma HexRoundTrip(bs: seq<Byte>, from: nat, n: nat)
    requires from + n <= |bs|
    ensures HexBytes(":" + HexText(bs), 1 + 2 * from, n) == Some(bs[from..from + n])
  {
    var line := ":" + HexText(bs);
    var k := 1 + 2 * from;
    forall i | 0 <= i < n ensures HexAt(line, k, i) == bs[from..from + n][i] {
      HexTextAt(bs, from + i);
      assert line[1 + 2 * (from + i)] == HexText(bs)[2 * (from + i)];
      assert line[2 + 2 * (from + i)] == HexText(bs)[2 * (from + i) + 1];
    }
    var r := HexBytes(line, k, n);
    assert r.Some? && r.value == bs[from..from + n];
  }

  lemma RecordDecodes(head: seq<Byte>, data: seq<Byte>)
    requires |head| == 4 && head[0] == |data|
    ensures Decode(RecordLine(head + data)) == Classify(head, data) && Clean(RecordLine(head + data))
  {
    hide Sum, HexText, HexBytes, HexByte;
    var ck := (256 - Sum(head + data) % 256) % 256;
    var all := head + data + [ck];
    var line := ":" + HexText(all);
    HexRoundTrip(all, 0, 4);
    assert all[0..4] == head;
    HexRoundTrip(all, 4, |data| + 1);
    assert all[4..4 + (|data| + 1)] == data + [ck];
    assert head + (data + [ck]) == all;
    SumAppend(head + data, ck);
    FinalSum(Sum(head + data), ck);
    InterpretParts(head, data + [ck]);
    assert (data + [ck])[..|data|] == data;
  }

  /** A chunk that one data record can carry, after a record that selects its 64 KiB bank. */
  predicate Renderable(c: Chunk) { c.addr < 0x1_0000_0000 && |c.data| <= 255 }

  function BankHead(): seq<Byte> { [2, 0, 0, 4] }

  function BankLine(c: Chunk): string
    requires Renderable(c)
  {
    var bank := c.addr / 0x1_0000;
    RecordLine(BankHead() + [bank / 256, bank % 256])
  }

  function DataHead(c: Chunk): seq<Byte>
    requires Renderable(c)
  {
    var offset := c.addr % 0x1_0000;
    [|c.data|, offset / 256, offset % 256, 0]
  }

  function DataLine(c: Chunk): string
    requires Renderable(c)
  {
    RecordLine(DataHead(c) + c.data)
  }

  /** `:00000001FF`. */
  function EofLine(): string { RecordLine([0, 0, 0, 1]) }

  function Render(chunks: seq<Chunk>): seq<string>
    requires forall i :: 0 <= i < |chunks| ==> Renderable(chunks[i])
  {
    if chunks == [] then [EofLine()] else [BankLine(chunks[0]), DataLine(chunks[0])] + Render(chunks[1..])
  }

  lemma EofDecodes()
    ensures Decode(EofLine()) == EndOfFile && Clean(EofLine())
  {
    hide RecordLine, Decode;
    var head: seq<Byte> := [0, 0, 0, 1];
    RecordDecodes(head, []);
    assert head + [] == head;
  }

  /** An address as bank and offset, each in two bytes. */
  lemma AddressParts(addr: nat)
    requires addr < 0x1_0000_0000
    ensures var bank, offset := addr / 0x1_0000, addr % 0x1_0000;
      && 0 <= bank < 0x1_0000 && 0 <= offset < 0x1_0000 && bank * 0x1_0000 + offset == addr
      && 0 <= bank / 256 < 256 && 0 <= bank % 256 < 256 && bank / 256 * 256 + bank % 256 == bank
      && 0 <= offset / 256 < 256 && 0 <= offset % 256 < 256 && offset / 256 * 256 + offset % 256 == offset
  {
  }

  lemma BankDecodes(c: Chunk)
    requires Renderable(c)
    ensures Decode(BankLine(c)) == Base(c.addr / 0x1_0000 * 0x1_0000) && Clean(BankLine(c))
  {
    hide Decode, RecordLine, Clean;
    AddressParts(c.addr);
    var bank := c.addr / 0x1_0000;
    var data: seq<Byte> := [bank / 256, bank % 256];
    RecordDecodes(BankHead(), data);
  }

  lemma DataDecodes(c: Chunk)
    requires Renderable(c)
    ensures Decode(DataLine(c)) == Data(c.addr % 0x1_0000, c.data) && Clean(DataLine(c))
  {
    hide Decode, RecordLine, Clean;
    AddressParts(c.addr);
    RecordDecodes(DataHead(c), c.data);
  }

  /** What the two lines of a chunk do to the scan. */
  function AfterChunk(c: Chunk, s: Scan, segment: nat): Scan {
    Scan(s.chunks + [c], segment, if c.addr < s.min then c.addr else s.min,
         if c.addr + |c.data| > s.max then c.addr + |c.data| else s.max)
  }

  lemma ChunkScans(c: Chunk, cap: nat, s: Scan)
    requires Renderable(c) && c.addr + |c.data| <= cap < WORD
    ensures var base := c.addr / 0x1_0000 * 0x1_0000;
      && ScanLine(BankLine(c), cap, s) == More(s.(segment := base))
      && ScanLine(DataLine(c), cap, s.(segment := base)) == More(AfterChunk(c, s, base))
    ensures Clean(BankLine(c)) && Clean(DataLine(c))
  {
    hide Decode, BankLine, DataLine, Clean;
    BankDecodes(c);
    DataDecodes(c);
    AddressParts(c.addr);
    var base, offset := c.addr / 0x1_0000 * 0x1_0000, c.addr % 0x1_0000;
    DataScans(DataLine(c), c, cap, s.(segment := base), offset);
  }

  lemma DataScans(line: string, c: Chunk, cap: nat, s: Scan, offset: nat)
    requires Decode(line) == Data(offset, c.data) && s.segment + offset == c.addr && c.addr + |c.data| <= cap < WORD
    ensures ScanLine(line, cap, s) == More(AfterChunk(c, s, s.segment))
  {
    hide Decode;
  }

  lemma {:induction false} RenderScans(chunks: seq<Chunk>, cap: nat, s: Scan)
    requires cap < WORD && Fits(chunks, cap) && forall i :: 0 <= i < |chunks| ==> Renderable(chunks[i])
    ensures var r := ScanLines(Render(chunks), cap, s);
      r.Stop? && r.s.chunks == s.chunks + chunks && r.s.min <= s.min && (forall i :: 0 <= i < |chunks| ==> r.s.min <= chunks[i].addr)
    ensures forall i :: 0 <= i < |Render(chunks)| ==> Clean(Render(chunks)[i])
    decreases |chunks|
  {
    hide ScanLine, BankLine, DataLine, Clean, Fits;
    if chunks == [] {
      EofScans(cap, s);
    } else {
      var c := chunks[0];
      assert c.addr + |c.data| <= cap && Fits(chunks[1..], cap) by {
        FitsTail(chunks, cap);
      }
      ChunkScans(c, cap, s);
      var t := ScanLine(DataLine(c), cap, ScanLine(BankLine(c), cap, s).s).s;
      var rest := Render(chunks[1..]);
      RenderScans(chunks[1..], cap, t);
      var all := Render(chunks);
      assert all[0] == BankLine(c) && all[1] == DataLine(c) && all[1..][0] == DataLine(c) && all[1..][1..] == rest;
      assert s.chunks + [c] + chunks[1..] == s.chunks + chunks;
      assert forall i :: 2 <= i < |all| ==> all[i] == rest[i - 2];
    }
  }

  lemma FitsTail(chunks: seq<Chunk>, cap: nat)
    requires Fits(chunks, cap) && chunks != []
    ensures chunks[0].addr + |chunks[0].data| <= cap && Fits(chunks[1..], cap)
  {
  }

  lemma EofScans(cap: nat, s: Scan)
    ensures ScanLine(EofLine(), cap, s) == Stop(s) && Clean(EofLine())
  {
    hide Decode;
    EofDecodes();
  }

  /** Rendering chunks as records and loading the text restores the chunks, with either line
      end. */
  lemma RenderLoadRoundTrip(chunks: seq<Chunk>, eol: string, cap: nat)
    requires chunks != [] && Fits(chunks, cap) && cap < NOTHING && LineFeed(eol)
    requires forall i :: 0 <= i < |chunks| ==> Renderable(chunks[i])
    ensures var r := LoadResult(Join(Render(chunks), eol), cap);
      r.Stop? && r.s.chunks == chunks
  {
    hide ScanLines, Render, Join, LoadResult;
    RenderScans(chunks, cap, START);
    LoadJoined(Render(chunks), eol, cap);
    var r := ScanLines(Render(chunks), cap, START);
    assert r.s.min <= chunks[0].addr;
    assert START.chunks + chunks == chunks;
  }

  // ----- damage -----

  /** `m` is `l` with at most the two digits of byte j changed. */
  predicate SameBut(l: string, m: string, j: nat) {
    |m| == |l| && forall i :: 0 <= i < |l| && i != 1 + 2 * j && i != 2 + 2 * j ==> m[i] == l[i]
  }

  lemma {:induction false} SumChanged(bs: seq<Byte>, j: nat, b: Byte)
    requires j < |bs|
    ensures Sum(bs[j := b]) == Sum(bs) - bs[j] as int + b as int
  {
    var front := bs[..|bs| - 1];
    if j < |bs| - 1 {
      SumChanged(front, j, b);
      assert bs[j := b][..|bs| - 1] == front[j := b];
    } else {
      assert bs[j := b][..|bs| - 1] == front;
    }
  }

  lemma DifferentRemainder(s: int, a: Byte, b: Byte)
    requires s % 256 == 0 && a != b
    ensures (s - a as int + b as int) % 256 != 0
  {
  }

  lemma ChangedSum(all: seq<Byte>, bad: seq<Byte>, j: nat)
    requires j < |all| == |bad| && bad == all[j := bad[j]] && bad[j] != all[j] && Sum(all) % 256 == 0
    ensures Sum(bad) % 256 != 0
  {
    SumChanged(all, j, bad[j]);
    DifferentRemainder(Sum(all), all[j], bad[j]);
  }

  /** All bytes of a well-formed record: count, address, type, data, checksum. */
  lemma RecordBytes(l: string) returns (all: seq<Byte>)
    requires Decode(l) != Junk && Decode(l) != Malformed
    ensures |l| >= 11 && l[0] == ':' && HexByte(l, 1) >= 0 && |l| >= 11 + 2 * HexByte(l, 1)
    ensures |all| == HexByte(l, 1) + 5 && Sum(all) % 256 == 0
    ensures forall i :: 0 <= i < |all| ==> all[i] == HexAt(l, 1, i)
  {
    hide HexBytes, HexByte, Sum, Classify;
    HeadBytes(l);
    var head := HexBytes(l, 1, 4).value;
    var body := HexBytes(l, 9, head[0] as int + 1).value;
    all := head + body;
    forall i | 4 <= i < |all| ensures all[i] == HexAt(l, 1, i) {
      assert all[i] == body[i - 4] && HexAt(l, 9, i - 4) == HexAt(l, 1, i);
    }
  }

  /** Changing the value of any one byte but the count of a well-formed record, or turning it
      into something that is no byte, makes the record malformed. */
  lemma DamagedRecord(l: string, m: string, j: nat)
    requires Decode(l) != Junk && Decode(l) != Malformed
    requires HexBytes(l, 1, 4).Some? && 1 <= j <= HexByte(l, 1) + 4 && SameBut(l, m, j)
    requires 2 + 2 * j < |l| && HexByte(m, 1 + 2 * j) != HexByte(l, 1 + 2 * j)
    ensures Decode(m) == Malformed
  {
    hide HexBytes, HexByte, Sum, Interpret;
    var all := RecordBytes(l);
    OtherBytesSame(l, m, j, |all|);
    assert HexAt(l, 1, j) == HexByte(l, 1 + 2 * j) && HexAt(m, 1, j) == HexByte(m, 1 + 2 * j);
    assert HexAt(l, 1, 0) == HexByte(l, 1) && HexAt(m, 1, 0) == HexByte(m, 1);
    NotJunk(m);
    if Decode(m) != Malformed {
      hide Decode, HexAt;
      var bad := RecordBytes(m);
      assert bad == all[j := bad[j]];
      ChangedSum(all, bad, j);
    }
  }

  lemma NotJunk(l: string)
    requires |l| >= 11 && l[0] == ':'
    ensures Decode(l) != Junk
  {
    hide HexBytes, Sum;
  }

  lemma OtherBytesSame(l: string, m: string, j: nat, n: nat)
    requires SameBut(l, m, j) && 2 * n + 1 <= |l| && |l| >= 1
    ensures m[0] == l[0]
    ensures forall i :: 0 <= i < n && i != j ==> HexAt(m, 1, i) == HexAt(l, 1, i)
  {
  }

  /** Damage to one record that the loader reaches makes the whole load fail. */
  lemma DamagedFile(before: seq<string>, l: string, m: string, after: seq<string>, j: nat, eol: string, cap: nat)
    requires Decode(l) != Junk && Decode(l) != Malformed
    requires HexBytes(l, 1, 4).Some? && 1 <= j <= HexByte(l, 1) + 4 && SameBut(l, m, j)
    requires 2 + 2 * j < |l| && HexByte(m, 1 + 2 * j) != HexByte(l, 1 + 2 * j)
    requires LineFeed(eol) && forall i :: 0 <= i < |before + [m] + after| ==> Clean((before + [m] + after)[i])
    requires ScanLines(before, cap, START).More?
    ensures LoadResult(Join(before + [m] + after, eol), cap).Fail?
  {
    hide Decode, Join, HexBytes, HexByte, LoadResult, Clean, SameBut;
    DamagedRecord(l, m, j);
    var s := ScanLines(before, cap, START).s;
    var file := before + [m] + after;
    LoadJoined(file, eol, cap);
    assert file == before + ([m] + after) && ([m] + after)[0] == m;
    ScanAppend(before, [m] + after, cap, START);
    assert ScanLine(m, cap, s) == Fail(s);
  }
}
