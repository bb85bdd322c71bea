/** Where the Intel-HEX loader's capacity check, which adds 32-bit numbers, does what it is for. */
module IntelHexBounds {
  import opened Bytes
  import opened IntelHex
  import opened IntelHexTexts

  // ----- any text as its lines -----

  /** The lines of a text from p on: cut at line feeds, without the carriage returns at their
      ends, up to a NUL. */
  function Lines(text: string, p: nat): seq<string>
    requires p <= |text|
    decreases |text| - p
  {
    if p == |text| || text[p] == '\0' then []
    else
      var e := LineEnd(text, p);
      [Trim(text[p..e])] + (if e == |text| || text[e] == '\0' then [] else Lines(text, e + 1))
  }

  lemma LinesStep(text: string, p: nat)
    requires p < |text| && text[p] != '\0'
    ensures var e := LineEnd(text, p);
      Lines(text, p) == [Trim(text[p..e])] + (if e == |text| || text[e] == '\0' then [] else Lines(text, e + 1))
  {
    hide LineEnd, Trim;
  }

  lemma NoLines(text: string, p: nat, cap: nat, s: Scan)
    requires p <= |text| && (p == |text| || text[p] == '\0')
    ensures Lines(text, p) == [] && ScanText(text, p, cap, s) == Stop(s) == Ended(ScanLines([], cap, s))
  {
  }

  lemma {:induction false} ScanIsLines(text: string, p: nat, cap: nat, s: Scan)
    requires p <= |text|
    ensures ScanText(text, p, cap, s) == Ended(ScanLines(Lines(text, p), cap, s))
    decreases |text| - p
  {
    hide ScanLine, Trim, LineEnd, ScanText, Lines, ScanLines;
    if p == |text| || text[p] == '\0' {
      NoLines(text, p, cap, s);
    } else {
      ScanTextStep(text, p, cap, s);
      LinesStep(text, p);
      var e := LineEnd(text, p);
      var line := Trim(text[p..e]);
      var t := ScanLine(line, cap, s).s;
      if e == |text| || text[e] == '\0' {
        ScanFirst(line, [], cap, s);
        NothingLeft(cap, t);
      } else {
        ScanFirst(line, Lines(text, e + 1), cap, s);
        ScanIsLines(text, e + 1, cap, t);
      }
    }
  }

  lemma NothingLeft(cap: nat, s: Scan)
    ensures ScanLines([], cap, s) == More(s)
  {
  }

  lemma ScanFirst(line: string, rest: seq<string>, cap: nat, s: Scan)
    ensures var r := ScanLine(line, cap, s);
      ScanLines([line] + rest, cap, s) == if r.More? then ScanLines(rest, cap, r.s) else r
  {
    hide ScanLine;
    assert ([line] + rest)[1..] == rest;
  }

  // ----- the records of a list of lines -----

  lemma DecodeRange(line: string)
    ensures var r := Decode(line);
      && (r.Base? ==> r.base <= 0xFFFF_0000)
      && (r.Data? ==> r.offset <= 0xFFFF && |r.data| <= 255)
  {
    hide HexBytes, Sum, Word;
    if Decode(line) != Junk && Decode(line) != Malformed {
      var head := HexBytes(line, 1, 4).value;
      var body := HexBytes(line, 9, head[0] as int + 1).value;
      InterpretParts(head, body);
      var data := body[..|body| - 1];
      WordRange(head[1], head[2]);
      if |data| == 2 {
        WordRange(data[0], data[1]);
      }
    }
  }

  lemma WordRange(hi: Byte, lo: Byte)
    ensures Word(hi, lo) <= 0xFFFF
  {
  }

  /** The base in force at line k: that of the last base record before it. */
  function SegmentAt(lines: seq<string>, k: int): (b: nat)
    requires 0 <= k <= |lines|
    ensures b <= 0xFFFF_0000
  {
    if k == 0 then 0
    else
      DecodeRange(lines[k - 1]);
      match Decode(lines[k - 1])
      case Base(b) => b
      case _ => SegmentAt(lines, k - 1)
  }

  predicate IsData(lines: seq<string>, k: int)
    requires 0 <= k < |lines|
  {
    Decode(lines[k]).Data?
  }

  /** One past the last address of the data record at line k, without wrap-around. */
  function EndAt(lines: seq<string>, k: int): (e: nat)
    requires 0 <= k < |lines| && IsData(lines, k)
    ensures e <= WORD + 254
  {
    DecodeRange(lines[k]);
    SegmentAt(lines, k) + Decode(lines[k]).offset + |Decode(lines[k]).data|
  }

  /** The loader goes on after line k, and what it stores for it lies in the flash. */
  predicate Passes(lines: seq<string>, cap: nat, k: int)
    requires 0 <= k < |lines|
  {
    && Decode(lines[k]) != Malformed && Decode(lines[k]) != EndOfFile
    && (IsData(lines, k) ==> EndAt(lines, k) <= cap)
  }

  /** Line k is a data record past the end of the address space that the check lets through. */
  predicate Wraps(lines: seq<string>, cap: nat, k: int)
    requires 0 <= k < |lines|
  {
    IsData(lines, k) && WORD <= EndAt(lines, k) <= WORD + cap
  }

  lemma LineExact(lines: seq<string>, k: int, cap: nat, s: Scan)
    requires 0 <= k < |lines| && s.segment == SegmentAt(lines, k) && cap < WORD
    ensures var r := ScanLine(lines[k], cap, s);
      && (r.More? <==> Passes(lines, cap, k)) && (r.Wild? <==> Wraps(lines, cap, k))
      && (r.More? ==> r.s.segment == SegmentAt(lines, k + 1))
  {
    hide Decode;
    DecodeRange(lines[k]);
  }

  /** Scanning from line j on writes outside the flash exactly if the first line that does not
      pass is a record that wraps. */
  lemma {:induction false} ScanWild(lines: seq<string>, j: int, cap: nat, s: Scan)
    requires 0 <= j <= |lines| && s.segment == SegmentAt(lines, j) && cap < WORD
    ensures ScanLines(lines[j..], cap, s).Wild? <==>
      exists k :: j <= k < |lines| && (forall i :: j <= i < k ==> Passes(lines, cap, i)) && Wraps(lines, cap, k)
    decreases |lines| - j
  {
    hide Passes, Wraps, ScanLine, SegmentAt;
    if j < |lines| {
      LineExact(lines, j, cap, s);
      var rest := lines[j..];
      assert rest[0] == lines[j] && rest[1..] == lines[j + 1..];
      var r := ScanLine(lines[j], cap, s);
      if r.More? {
        ScanWild(lines, j + 1, cap, r.s);
        WrapsLater(lines, cap, j);
      }
    }
  }

  lemma WrapsPasses(lines: seq<string>, cap: nat, k: int)
    requires 0 <= k < |lines| && cap < WORD && Wraps(lines, cap, k)
    ensures !Passes(lines, cap, k)
  {
  }

  lemma WrapsLater(lines: seq<string>, cap: nat, j: int)
    requires 0 <= j < |lines| && cap < WORD && Passes(lines, cap, j)
    ensures (exists k :: j <= k < |lines| && (forall i :: j <= i < k ==> Passes(lines, cap, i)) && Wraps(lines, cap, k)) <==>
      (exists k :: j + 1 <= k < |lines| && (forall i :: j + 1 <= i < k ==> Passes(lines, cap, i)) && Wraps(lines, cap, k))
  {
    if Wraps(lines, cap, j) {
      WrapsPasses(lines, cap, j);
    }
  }

  /** For every text: the loader writes outside the flash exactly if the first line that it does
      not pass is a data record ending at or beyond 2^32 whose end, taken modulo 2^32, is within
      the flash. */
  lemma WildExact(text: string, cap: nat)
    ensures cap < WORD ==>
      (LoadResult(text, cap).Wild? <==>
         var lines := Lines(text, 0);
         exists k :: 0 <= k < |lines| && (forall i :: 0 <= i < k ==> Passes(lines, cap, i)) && Wraps(lines, cap, k))
  {
    hide Passes, Wraps, ScanLine, Lines;
    if cap < WORD {
      var lines := Lines(text, 0);
      ScanIsLines(text, 0, cap, START);
      assert lines[0..] == lines;
      ScanWild(lines, 0, cap, START);
    }
  }

  /** With at least 254 bytes of flash, every record that the check lets through lies in the
      flash exactly if none that is reached ends at or beyond 2^32. */
  lemma CheckHoldsBelow(text: string, cap: nat)
    ensures 254 <= cap < WORD ==>
      (!LoadResult(text, cap).Wild? <==>
         var lines := Lines(text, 0);
         forall k :: 0 <= k < |lines| && (forall i :: 0 <= i < k ==> Passes(lines, cap, i)) && IsData(lines, k) ==>
           EndAt(lines, k) < WORD)
  {
    hide Passes, LoadResult, Lines, EndAt, IsData, Wraps;
    WildExact(text, cap);
    var lines := Lines(text, 0);
    if 254 <= cap < WORD {
      forall k | 0 <= k < |lines|
        ensures Wraps(lines, cap, k) <==> IsData(lines, k) && EndAt(lines, k) >= WORD
      {
        WrapsAlways(lines, cap, k);
      }
    }
  }

  lemma WrapsAlways(lines: seq<string>, cap: nat, k: int)
    requires 0 <= k < |lines| && cap >= 254
    ensures Wraps(lines, cap, k) <==> IsData(lines, k) && EndAt(lines, k) >= WORD
  {
    hide IsData, EndAt;
  }

  /** The failing family: a record in the topmost bank that ends at or beyond 2^32. */
  lemma TopBankWraps(c: Chunk, eol: string, cap: nat)
    requires Renderable(c) && LineFeed(eol) && WORD <= c.addr + |c.data| <= WORD + cap && cap < WORD
    ensures LoadResult(Join([BankLine(c), DataLine(c)], eol), cap).Wild?
  {
    hide BankLine, DataLine, Clean, Join, LoadResult, Decode;
    BankDecodes(c);
    DataDecodes(c);
    AddressParts(c.addr);
    var lines := [BankLine(c), DataLine(c)];
    LoadJoined(lines, eol, cap);
    var base := c.addr / 0x1_0000 * 0x1_0000;
    assert ScanLine(lines[0], cap, START) == More(START.(segment := base));
    var s := START.(segment := base);
    assert ScanLine(lines[1], cap, s).Wild?;
    assert lines[1..] == [DataLine(c)] && lines[1..][0] == lines[1];
    assert ScanLines(lines[1..], cap, s) == ScanLine(lines[1], cap, s);
  }
}
