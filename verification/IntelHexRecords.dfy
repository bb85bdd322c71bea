/** What one line of an Intel-HEX file does to the load, for every line and every record type, in
    plain arithmetic, and what that means for whole files. */
module IntelHexRecords {
  import opened Bytes
  import opened IntelHex
  import opened IntelHexTexts
  import opened IntelHexBounds
  import opened IntelHexDamage

  // ----- digits -----

  const LOWER := "0123456789abcdef"
  const UPPER := "0123456789ABCDEF"

  /** The sixteen digits in both cases have their values, and no other character has one. */
  lemma DigitTable(c: char)
    ensures forall v :: 0 <= v < 16 ==> Nibble(LOWER[v]) == v && Nibble(UPPER[v]) == v
    ensures c !in LOWER && c !in UPPER ==> Nibble(c) == -1
  {
    if '0' <= c <= '9' {
      assert c == LOWER[c as int - '0' as int];
    } else if 'a' <= c <= 'f' {
      assert c == LOWER[c as int - 'a' as int + 10];
    } else if 'A' <= c <= 'F' {
      assert c == UPPER[c as int - 'A' as int + 10];
    }
  }

  // ----- one line -----

  /** A colon, count, address and type, `count` data bytes and a byte that makes everything add
      up to 0 modulo 256; what follows on the line is not looked at. */
  predicate Sound(l: string) {
    && |l| >= 11 && l[0] == ':'
    && HexBytes(l, 1, 4).Some?
    && |l| >= 11 + 2 * (HexBytes(l, 1, 4).value[0] as int)
    && HexBytes(l, 9, HexBytes(l, 1, 4).value[0] as int + 1).Some?
    && Sum(HexBytes(l, 1, 4).value + HexBytes(l, 9, HexBytes(l, 1, 4).value[0] as int + 1).value) % 256 == 0
  }

  /** Count, high and low byte of the offset, and type. */
  function HeadOf(l: string): (h: seq<Byte>)
    requires Sound(l)
    ensures |h| == 4
  {
    HexBytes(l, 1, 4).value
  }

  function DataOf(l: string): (d: seq<Byte>)
    requires Sound(l)
    ensures |d| == HeadOf(l)[0] as int
  {
    HexBytes(l, 9, HeadOf(l)[0] as int + 1).value[..HeadOf(l)[0]]
  }

  lemma SoundDecodes(l: string)
    ensures Decode(l) ==
      if |l| < 11 || l[0] != ':' then Junk else if !Sound(l) then Malformed else Classify(HeadOf(l), DataOf(l))
  {
    hide HexBytes, Sum, Classify;
    if Sound(l) {
      InterpretParts(HeadOf(l), HexBytes(l, 9, HeadOf(l)[0] as int + 1).value);
    }
  }

  lemma ClassifyIs(h: seq<Byte>, d: seq<Byte>)
    requires |h| == 4
    ensures Classify(h, d) ==
      if h[3] == 0 then Data(256 * (h[1] as int) + h[2] as int, d)
      else if h[3] == 1 then EndOfFile
      else if h[3] == 2 then (if |d| == 2 then Base((256 * (d[0] as int) + d[1] as int) * 16) else Malformed)
      else if h[3] == 4 then (if |d| == 2 then Base((256 * (d[0] as int) + d[1] as int) * 65536) else Malformed)
      else Ignored
  {
  }

  /** Data for the 32-bit address `base` are stored if they pass the check. */
  predicate Stored(o: Outcome, s: Scan, base: nat, d: seq<Byte>, cap: nat) {
    var addr := base % 0x1_0000_0000;
    if (addr + |d|) % 0x1_0000_0000 > cap then o == Fail(s)
    else if addr + |d| > cap then o == Wild(s)
    else o == More(Scan(s.chunks + [Chunk(addr, d)], s.segment,
                        if addr < s.min then addr else s.min, if addr + |d| > s.max then addr + |d| else s.max))
  }

  lemma ScanIs(l: string, cap: nat, s: Scan)
    ensures var o := ScanLine(l, cap, s);
      match Decode(l)
      case Malformed => o == Fail(s)
      case EndOfFile => o == Stop(s)
      case Base(b) => o == More(s.(segment := b))
      case Data(offset, d) => Stored(o, s, s.segment + offset, d, cap)
      case Junk => o == More(s)
      case Ignored => o == More(s)
  {
    hide Decode;
  }

  /** The effect of every line: too short or without a colon, it is skipped; otherwise digits and
      checksum must be right, and the type decides. Type 0 stores at base plus offset if that
      passes the check, 1 ends the file, 2 and 4 set the base from a 16-bit word times 16 or
      times 65536, and every other type is passed over. */
  lemma LineDecides(l: string, cap: nat, s: Scan)
    ensures var o := ScanLine(l, cap, s);
      if |l| < 11 || l[0] != ':' then o == More(s)
      else if !Sound(l) then o == Fail(s)
      else
        var h, d := HeadOf(l), DataOf(l);
        if h[3] == 0 then Stored(o, s, s.segment + (256 * (h[1] as int) + h[2] as int), d, cap)
        else if h[3] == 1 then o == Stop(s)
        else if h[3] == 2 then
          o == if |d| == 2 then More(s.(segment := (256 * (d[0] as int) + d[1] as int) * 16)) else Fail(s)
        else if h[3] == 4 then
          o == if |d| == 2 then More(s.(segment := (256 * (d[0] as int) + d[1] as int) * 65536)) else Fail(s)
        else o == More(s)
  {
    hide Decode, Sound, HeadOf, DataOf, Classify, ScanLine, Stored;
    SoundDecodes(l);
    ScanIs(l, cap, s);
    if Sound(l) {
      ClassifyIs(HeadOf(l), DataOf(l));
    }
  }

  // ----- whole files -----

  predicate AllClean(lines: seq<string>) { forall i :: 0 <= i < |lines| ==> Clean(lines[i]) }

  /** A sound record of a type the loader does not use. */
  predicate Unused(l: string) { Sound(l) && HeadOf(l)[3] !in {0, 1, 2, 4} }

  predicate Ending(l: string) { Sound(l) && HeadOf(l)[3] == 1 }

  lemma {:induction false} LineSkipped(before: seq<string>, l: string, after: seq<string>, cap: nat)
    requires forall s :: ScanLine(l, cap, s) == More(s)
    ensures ScanLines(before + [l] + after, cap, START) == ScanLines(before + after, cap, START)
  {
    hide ScanLine, ScanLines;
    assert before + [l] + after == before + ([l] + after);
    ScanAppend(before, [l] + after, cap, START);
    ScanAppend(before, after, cap, START);
    var r := ScanLines(before, cap, START);
    if r.More? {
      ScanFirst(l, after, cap, r.s);
    }
  }

  /** Records of types other than 0, 1, 2 and 4 change nothing: with or without such a line, in
      any place, a file loads alike. */
  lemma UnusedTypesPass(before: seq<string>, l: string, after: seq<string>, eol: string, cap: nat)
    requires Unused(l) && LineFeed(eol) && AllClean(before + [l] + after)
    ensures LoadResult(Join(before + [l] + after, eol), cap) == LoadResult(Join(before + after, eol), cap)
  {
    hide ScanLine, ScanLines, LoadResult, Join, Clean, Sound;
    forall s ensures ScanLine(l, cap, s) == More(s) {
      LineDecides(l, cap, s);
      SoundLong(l);
    }
    LineSkipped(before, l, after, cap);
    var all, rest := before + [l] + after, before + after;
    assert forall i :: 0 <= i < |rest| ==> rest[i] == all[if i < |before| then i else i + 1];
    Undamaged(all, eol, cap);
    Undamaged(rest, eol, cap);
  }

  lemma SoundLong(l: string)
    requires Sound(l)
    ensures |l| >= 11 && l[0] == ':'
  {
  }

  /** Nothing after an end-of-file record is looked at. */
  lemma NothingAfterEnd(before: seq<string>, l: string, after: seq<string>, eol: string, cap: nat)
    requires Ending(l) && LineFeed(eol) && AllClean(before + [l] + after)
    ensures LoadResult(Join(before + [l] + after, eol), cap) == LoadResult(Join(before + [l], eol), cap)
  {
    hide ScanLine, ScanLines, LoadResult, Join, Clean, Sound;
    var all, part := before + [l] + after, before + [l];
    assert forall i :: 0 <= i < |part| ==> part[i] == all[i];
    Undamaged(all, eol, cap);
    Undamaged(part, eol, cap);
    assert all == before + ([l] + after) && [l] + [] == [l];
    ScanAppend(before, [l] + after, cap, START);
    ScanAppend(before, [l] + [], cap, START);
    var r := ScanLines(before, cap, START);
    if r.More? {
      LineDecides(l, cap, r.s);
      SoundLong(l);
      ScanFirst(l, after, cap, r.s);
      ScanFirst(l, [], cap, r.s);
    }
  }

  // ----- segment records -----

  /** The record that sets the base to 16 times `para`. */
  function SegmentLine(para: nat): string
    requires para < 0x1_0000
  {
    RecordLine([2, 0, 0, 2] + [para / 256, para % 256])
  }

  function OffsetLine(offset: nat, data: seq<Byte>): string
    requires offset < 0x1_0000 && |data| <= 255
  {
    RecordLine([|data|, offset / 256, offset % 256, 0] + data)
  }

  lemma SegmentDecodes(para: nat)
    requires para < 0x1_0000
    ensures Decode(SegmentLine(para)) == Base(16 * para) && Clean(SegmentLine(para))
  {
    hide Decode, RecordLine, Clean;
    var data: seq<Byte> := [para / 256, para % 256];
    RecordDecodes([2, 0, 0, 2], data);
    assert 256 * (para / 256) + para % 256 == para;
  }

  lemma OffsetDecodes(offset: nat, data: seq<Byte>)
    requires offset < 0x1_0000 && |data| <= 255
    ensures Decode(OffsetLine(offset, data)) == Data(offset, data) && Clean(OffsetLine(offset, data))
  {
    hide Decode, RecordLine, Clean;
    RecordDecodes([|data|, offset / 256, offset % 256, 0], data);
    assert 256 * (offset / 256) + offset % 256 == offset;
  }

  /** A segment record and a data record load the data at 16 times the one plus the other. */
  lemma SegmentedLoad(para: nat, offset: nat, data: seq<Byte>, eol: string, cap: nat)
    requires para < 0x1_0000 && offset < 0x1_0000 && |data| <= 255 && LineFeed(eol)
    requires 16 * para + offset + |data| <= cap < NOTHING
    ensures var r := LoadResult(Join([SegmentLine(para), OffsetLine(offset, data)], eol), cap);
      r.Stop? && r.s.chunks == [Chunk(16 * para + offset, data)]
  {
    hide SegmentLine, OffsetLine, Clean, Join, LoadResult, Decode;
    SegmentDecodes(para);
    OffsetDecodes(offset, data);
    var a, b := SegmentLine(para), OffsetLine(offset, data);
    LoadJoined([a, b], eol, cap);
    var s := START.(segment := 16 * para);
    assert ScanLine(a, cap, START) == More(s);
    var t := ScanLine(b, cap, s);
    assert t.More? && t.s.chunks == [] + [Chunk(16 * para + offset, data)] && t.s.min == 16 * para + offset;
    hide ScanLine;
    assert [a, b] == [a] + [b] && [b] == [b] + [];
    ScanFirst(a, [b], cap, START);
    ScanFirst(b, [], cap, s);
    NothingLeft(cap, t.s);
  }

  // ----- the start record of the embedded bootloader -----

  const START_RECORD := ":0400000300007E007B"

  lemma PairValue(l: string, k: nat, hi: char, lo: char)
    requires k + 1 < |l| && l[k] == hi && l[k + 1] == lo && Nibble(hi) >= 0 && Nibble(lo) >= 0
    ensures HexByte(l, k) == 16 * Nibble(hi) + Nibble(lo)
  {
  }

  lemma StartRecordBytes()
    ensures var l := START_RECORD;
      && HexByte(l, 1) == 4 && HexByte(l, 3) == 0 && HexByte(l, 5) == 0 && HexByte(l, 7) == 3
      && HexByte(l, 9) == 0 && HexByte(l, 11) == 0 && HexByte(l, 13) == 0x7E && HexByte(l, 15) == 0 && HexByte(l, 17) == 0x7B
  {
    var l := START_RECORD;
    PairValue(l, 1, '0', '4');
    PairValue(l, 3, '0', '0');
    PairValue(l, 5, '0', '0');
    PairValue(l, 7, '0', '3');
    PairValue(l, 9, '0', '0');
    PairValue(l, 11, '0', '0');
    PairValue(l, 13, '7', 'E');
    PairValue(l, 15, '0', '0');
    PairValue(l, 17, '7', 'B');
  }

  lemma StartRecordDigits()
    ensures HexBytes(START_RECORD, 1, 4) == Some([4, 0, 0, 3])
    ensures HexBytes(START_RECORD, 9, 5) == Some([0, 0, 0x7E, 0, 0x7B])
  {
    hide HexBytes, HexByte;
    var l := START_RECORD;
    StartRecordBytes();
    DigitsAre(l, 1, [4, 0, 0, 3]);
    DigitsAre(l, 9, [0, 0, 0x7E, 0, 0x7B]);
  }

  lemma DigitsAre(l: string, k: nat, bytes: seq<Byte>)
    requires k + 2 * |bytes| <= |l| && forall i :: 0 <= i < |bytes| ==> HexAt(l, k, i) == bytes[i]
    ensures HexBytes(l, k, |bytes|) == Some(bytes)
  {
    hide HexAt;
    var h := HexBytes(l, k, |bytes|);
    hide HexBytes;
    assert h.Some? && h.value == bytes;
  }

  lemma StartRecordSum()
    ensures Sum([4, 0, 0, 3] + [0, 0, 0x7E, 0, 0x7B]) == 256
  {
    var a: seq<Byte> := [4, 0, 0, 3];
    SumOfFour(a);
    SumAppend(a, 0);
    SumAppend(a + [0], 0);
    SumAppend(a + [0] + [0], 0x7E);
    SumAppend(a + [0] + [0] + [0x7E], 0);
    SumAppend(a + [0] + [0] + [0x7E] + [0], 0x7B);
    assert a + [0, 0, 0x7E, 0, 0x7B] == a + [0] + [0] + [0x7E] + [0] + [0x7B];
  }

  lemma StartRecordClean()
    ensures Clean(START_RECORD) && |START_RECORD| == 19 && START_RECORD[0] == ':'
  {
  }

  /** The start-segment record of the embedded bootloader is sound and of an unused type: it
      does not stand in the way of the load. */
  lemma StartRecordPasses()
    ensures Unused(START_RECORD) && Clean(START_RECORD)
  {
    hide HexBytes, Sum, Clean;
    StartRecordClean();
    StartRecordDigits();
    StartRecordSum();
    SoundFrom(START_RECORD, [4, 0, 0, 3], [0, 0, 0x7E, 0, 0x7B]);
  }

  lemma SoundFrom(l: string, h: seq<Byte>, b: seq<Byte>)
    requires |h| == 4 && |b| == h[0] as int + 1 && |l| >= 11 + 2 * (h[0] as int) && l[0] == ':'
    requires HexBytes(l, 1, 4) == Some(h) && HexBytes(l, 9, |b|) == Some(b) && Sum(h + b) % 256 == 0
    ensures Sound(l) && HeadOf(l) == h
  {
    hide HexBytes, Sum;
  }
}
