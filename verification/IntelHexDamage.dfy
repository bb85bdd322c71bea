/** Exactly which damage to a single character of an Intel-HEX file the loader notices. */
module IntelHexDamage {
  import opened Bytes
  import opened IntelHex
  import opened IntelHexTexts
  import opened IntelHexBounds

  // ----- lines of composed texts -----

  lemma {:induction false} LineEndShift(pre: string, text: string, p: nat)
    requires p <= |text|
    ensures LineEnd(pre + text, |pre| + p) == |pre| + LineEnd(text, p)
    decreases |text| - p
  {
    if p < |text| {
      assert (pre + text)[|pre| + p] == text[p];
      if text[p] != '\n' && text[p] != '\0' {
        LineEndShift(pre, text, p + 1);
      }
    }
  }

  /** What precedes the starting point does not matter. */
  lemma {:induction false} LinesShift(pre: string, text: string, p: nat)
    requires p <= |text|
    ensures Lines(pre + text, |pre| + p) == Lines(text, p)
    decreases |text| - p
  {
    hide LineEnd, Trim, Lines;
    if p == |text| || text[p] == '\0' {
      NoLines(text, p, 0, START);
      NoLines(pre + text, |pre| + p, 0, START);
    } else {
      var e := LineEnd(text, p);
      LinesStep(text, p);
      LinesStep(pre + text, |pre| + p);
      LineEndShift(pre, text, p);
      assert (pre + text)[|pre| + p..|pre| + e] == text[p..e];
      if e < |text| {
        assert (pre + text)[|pre| + e] == text[e];
        if text[e] != '\0' {
          LinesShift(pre, text, e + 1);
        }
      }
    }
  }

  lemma LinesFront(front: string, rest: string)
    requires forall i :: 0 <= i < |front| ==> front[i] != '\n' && front[i] != '\0'
    ensures Lines(front + "\n" + rest, 0) == [Trim(front)] + Lines(rest, 0)
  {
    hide LineEnd, Trim, Lines;
    var text := front + "\n" + rest;
    FrontLine("", front, rest);
    assert "" + text == text;
    LinesStep(text, 0);
    LinesShift(front + "\n", rest, 0);
  }

  /** A line with its end, then the rest. */
  lemma LinesFirst(line: string, eol: string, rest: string)
    requires Clean(line) && LineFeed(eol)
    ensures Lines(line + eol + rest, 0) == [line] + Lines(rest, 0)
  {
    hide Lines, Trim;
    var front := line + eol[..|eol| - 1];
    assert front + "\n" == line + eol;
    TrimClean(line, eol);
    LinesFront(front, rest);
  }

  lemma {:induction false} LinesJoined(lines: seq<string>, eol: string, rest: string)
    requires LineFeed(eol) && forall i :: 0 <= i < |lines| ==> Clean(lines[i])
    ensures Lines(Join(lines, eol) + rest, 0) == lines + Lines(rest, 0)
    decreases |lines|
  {
    hide Lines, Clean;
    if lines == [] {
      assert Join(lines, eol) + rest == rest;
    } else {
      var tail := Join(lines[1..], eol) + rest;
      assert Join(lines, eol) + rest == lines[0] + eol + tail;
      LinesFirst(lines[0], eol, tail);
      LinesJoined(lines[1..], eol, rest);
    }
  }

  /** A line that a NUL cuts off is the last one. */
  lemma LinesCut(line: string, rest: string)
    requires Clean(line) && line != []
    ensures Lines(line + "\0" + rest, 0) == [line]
  {
    var text := line + "\0" + rest;
    assert forall i :: 0 <= i < |line| ==> text[i] == line[i];
    CutEnd(text, 0, |line|);
    hide LineEnd, Lines;
    LinesStep(text, 0);
    assert text[0..|line|] == line && text[|line|] == '\0';
  }

  lemma {:induction false} CutEnd(text: string, p: nat, e: nat)
    requires p <= e < |text| && text[e] == '\0'
    requires forall i :: p <= i < e ==> text[i] != '\n' && text[i] != '\0'
    ensures LineEnd(text, p) == e
    decreases e - p
  {
    if p < e {
      CutEnd(text, p + 1, e);
    }
  }

  lemma TrimReturns(line: string, eol: string)
    requires Clean(line) && LineFeed(eol)
    ensures Trim(line + "\r" + eol[..|eol| - 1]) == line
  {
    TrimClean(line, "\r\n");
    var front := line + "\r";
    assert line + "\r\n"[..1] == front;
    if eol == "\n" {
      assert front + eol[..0] == front;
    } else {
      assert eol[..1] == "\r" && (front + "\r")[..|front|] == front;
    }
  }

  /** A further carriage return before the line end goes with it. */
  lemma LinesReturn(line: string, eol: string, rest: string)
    requires Clean(line) && LineFeed(eol)
    ensures Lines(line + "\r" + eol + rest, 0) == [line] + Lines(rest, 0)
  {
    hide Lines, Trim;
    var front := line + "\r" + eol[..|eol| - 1];
    assert front + "\n" == line + "\r" + eol;
    TrimReturns(line, eol);
    LinesFront(front, rest);
  }

  // ----- loads by their lines -----

  function Finished(o: Outcome): Outcome { if o.Stop? && o.s.min == NOTHING then Fail(o.s) else o }

  lemma LoadIsLines(text: string, cap: nat)
    ensures LoadResult(text, cap) == Finished(Ended(ScanLines(Lines(text, 0), cap, START)))
  {
    hide ScanText, Lines, ScanLines;
    ScanIsLines(text, 0, cap, START);
  }

  lemma JunkSkipped(before: seq<string>, junk: string, after: seq<string>, cap: nat)
    requires Decode(junk) == Junk
    ensures ScanLines(before + [junk] + after, cap, START) == ScanLines(before + after, cap, START)
  {
    hide Decode, ScanLines;
    assert before + [junk] + after == before + ([junk] + after);
    ScanAppend(before, [junk] + after, cap, START);
    ScanAppend(before, after, cap, START);
    var r := ScanLines(before, cap, START);
    if r.More? {
      ScanFirst(junk, after, cap, r.s);
    }
  }

  lemma MalformedFails(before: seq<string>, bad: string, after: seq<string>, cap: nat)
    requires Decode(bad) == Malformed && ScanLines(before, cap, START).More?
    ensures ScanLines(before + [bad] + after, cap, START).Fail?
  {
    hide Decode, ScanLines;
    assert before + [bad] + after == before + ([bad] + after);
    ScanAppend(before, [bad] + after, cap, START);
    ScanFirst(bad, after, cap, ScanLines(before, cap, START).s);
  }

  // ----- damaged characters -----

  /** A well-formed record that fills its line. */
  predicate Whole(l: string) {
    && Decode(l) != Junk && Decode(l) != Malformed
    && |l| >= 11 && |l| == 11 + 2 * HexByte(l, 1)
  }

  lemma WholeDigits(l: string)
    requires Whole(l)
    ensures l[0] == ':' && (forall i :: 1 <= i < |l| ==> Nibble(l[i]) >= 0) && HexBytes(l, 1, 4).Some?
  {
    hide HexByte, HexBytes, Sum, Classify;
    var all := RecordBytes(l);
    HeadBytes(l);
    forall i | 1 <= i < |l| ensures Nibble(l[i]) >= 0 {
      var j := (i - 1) / 2;
      assert all[j] == HexAt(l, 1, j);
      DigitsOf(l, j);
    }
  }

  lemma DigitsOf(l: string, j: nat)
    requires 2 + 2 * j < |l| && HexAt(l, 1, j) >= 0
    ensures Nibble(l[1 + 2 * j]) >= 0 && Nibble(l[2 + 2 * j]) >= 0
  {
  }

  lemma DigitChar(c: char)
    requires Nibble(c) >= 0
    ensures c != '\n' && c != '\0' && c != '\r' && c != ':'
  {
  }

  lemma DigitsOnly(l: string)
    requires Whole(l)
    ensures forall i :: 0 <= i < |l| ==> l[i] != '\n' && l[i] != '\0' && l[i] != '\r'
    ensures forall i :: 1 <= i < |l| ==> l[i] != ':'
  {
    WholeDigits(l);
    hide Whole, HexBytes, Nibble;
    forall i | 1 <= i < |l| ensures l[i] != '\n' && l[i] != '\0' && l[i] != '\r' && l[i] != ':' {
      DigitChar(l[i]);
    }
  }

  lemma CleanPart(l: string, i: nat, j: nat)
    requires i <= j <= |l| && forall a :: 0 <= a < |l| ==> l[a] != '\n' && l[a] != '\0' && l[a] != '\r'
    ensures Clean(l[i..j])
  {
  }

  lemma CleanParts(l: string, k: nat)
    requires Whole(l) && 3 <= k < |l|
    ensures Clean(l[..k]) && Clean(l[k + 1..]) && Clean(l)
    ensures forall i :: 1 <= i < |l| ==> l[i] != ':'
  {
    DigitsOnly(l);
    hide Whole, Clean;
    CleanPart(l, 0, k);
    CleanPart(l, k + 1, |l|);
    CleanPart(l, 0, |l|);
    assert l[0..k] == l[..k] && l[k + 1..|l|] == l[k + 1..] && l[0..|l|] == l;
  }

  lemma TooShort(l: string, k: nat)
    requires Whole(l) && 11 <= k < |l|
    ensures Decode(l[..k]) == Malformed
  {
    WholeDigits(l);
    HeadBytes(l[..k]);
    assert HexByte(l[..k], 1) == HexByte(l, 1);
    hide HexBytes, Sum, Interpret, Nibble, HexByte;
  }

  lemma NoColon(line: string)
    requires |line| < 11 || line[0] != ':'
    ensures Decode(line) == Junk
  {
  }

  /** The first k characters of a whole record are no record, and neither is what follows them. */
  lemma Halves(l: string, k: nat)
    requires Whole(l) && 3 <= k < |l|
    ensures Decode(l[..k]) == (if k < 11 then Junk else Malformed) && Decode(l[k + 1..]) == Junk
    ensures Clean(l[..k]) && Clean(l[k + 1..]) && Clean(l)
  {
    hide Decode, Whole, Clean;
    CleanParts(l, k);
    NoColon(l[k + 1..]);
    if k >= 11 {
      TooShort(l, k);
    } else {
      NoColon(l[..k]);
    }
  }

  /** Changing the digit at position k into any other character that the line keeps. */
  lemma DigitChanged(l: string, k: nat, c: char)
    requires Whole(l) && 3 <= k < |l| && Nibble(c) != Nibble(l[k])
    ensures Decode(l[k := c]) == Malformed
  {
    hide Decode, HexBytes, SameBut, HexByte, Nibble, Whole;
    var j := (k - 1) / 2;
    WholeDigits(l);
    WhereInLine(l, k, c, j);
    ByteChanged(l, k, c, j);
    DamagedRecord(l, l[k := c], j);
  }

  lemma WhereInLine(l: string, k: nat, c: char, j: nat)
    requires Whole(l) && 3 <= k < |l| && j == (k - 1) / 2
    ensures (k == 1 + 2 * j || k == 2 + 2 * j) && 2 + 2 * j < |l| && 1 <= j <= HexByte(l, 1) + 4
    ensures Decode(l) != Junk && Decode(l) != Malformed && SameBut(l, l[k := c], j)
  {
    hide Decode, HexByte;
  }

  lemma ByteChanged(l: string, k: nat, c: char, j: nat)
    requires 2 + 2 * j < |l| && (k == 1 + 2 * j || k == 2 + 2 * j)
    requires Nibble(l[1 + 2 * j]) >= 0 && Nibble(l[2 + 2 * j]) >= 0 && Nibble(c) != Nibble(l[k])
    ensures HexByte(l[k := c], 1 + 2 * j) != HexByte(l, 1 + 2 * j)
  {
    NibbleRange(l[1 + 2 * j]);
    NibbleRange(l[2 + 2 * j]);
    NibbleRange(c);
    hide Nibble;
  }

  lemma NibbleRange(c: char)
    ensures -1 <= Nibble(c) < 16
  {
  }

  /** The file with the character at position k of its record l replaced by c. */
  function DamagedText(before: seq<string>, l: string, k: nat, c: char, after: seq<string>, eol: string): string
    requires k < |l|
  {
    Join(before, eol) + (l[k := c] + (eol + Join(after, eol)))
  }

  /** The lines that the loader sees of the damaged record. */
  function Seen(l: string, k: nat, c: char): seq<string>
    requires k < |l|
  {
    if c == '\n' then [l[..k], l[k + 1..]]
    else if c == '\0' || (c == '\r' && k == |l| - 1) then [l[..k]]
    else [l[k := c]]
  }

  lemma CleanChanged(l: string, k: nat, c: char)
    requires Clean(l) && k < |l| && c != '\n' && c != '\0' && (c == '\r' ==> k < |l| - 1)
    ensures Clean(l[k := c])
  {
  }

  lemma AroundChange(l: string, k: nat, c: char, tail: string)
    requires k < |l|
    ensures l[k := c] + tail == l[..k] + [c] + (l[k + 1..] + tail)
    ensures k == |l| - 1 ==> l[k := c] + tail == l[..k] + [c] + tail
  {
    assert l[k := c] == l[..k] + [c] + l[k + 1..];
  }

  lemma SeenLines(l: string, k: nat, c: char, eol: string, rest: string)
    requires 3 <= k < |l| && LineFeed(eol) && Clean(l) && Clean(l[..k]) && Clean(l[k + 1..])
    ensures Lines(l[k := c] + (eol + rest), 0) == Seen(l, k, c) + (if c == '\0' then [] else Lines(rest, 0))
  {
    hide Lines, Clean;
    AroundChange(l, k, c, eol + rest);
    var a, b := l[..k], l[k + 1..];
    assert b + (eol + rest) == b + eol + rest && l[k := c] + (eol + rest) == l[k := c] + eol + rest;
    if c == '\n' {
      LinesFirst(a, "\n", b + (eol + rest));
      LinesFirst(b, eol, rest);
    } else if c == '\0' {
      LinesCut(a, b + (eol + rest));
    } else if c == '\r' && k == |l| - 1 {
      assert a + "\r" + (eol + rest) == a + "\r" + eol + rest;
      LinesReturn(a, eol, rest);
    } else {
      CleanChanged(l, k, c);
      LinesFirst(l[k := c], eol, rest);
    }
  }

  lemma DamagedLines(before: seq<string>, l: string, k: nat, c: char, after: seq<string>, eol: string)
    requires Whole(l) && 3 <= k < |l| && LineFeed(eol)
    requires (forall i :: 0 <= i < |before| ==> Clean(before[i])) && forall i :: 0 <= i < |after| ==> Clean(after[i])
    ensures Lines(DamagedText(before, l, k, c, after, eol), 0) ==
      before + (Seen(l, k, c) + (if c == '\0' then [] else after))
  {
    hide Whole, Lines, Join, Decode, Clean, Seen;
    Halves(l, k);
    var rest := Join(after, eol);
    LinesJoined(before, eol, l[k := c] + (eol + rest));
    SeenLines(l, k, c, eol, rest);
    LinesJoined(after, eol, "");
    assert rest + "" == rest;
    NoLines("", 0, 0, START);
    assert after + [] == after;
  }

  /** What is seen of the record either counts for nothing or stops the scan. */
  lemma SeenScans(before: seq<string>, l: string, k: nat, c: char, rest: seq<string>, cap: nat)
    requires Whole(l) && 3 <= k < |l| && Nibble(c) != Nibble(l[k])
    requires ScanLines(before, cap, START).More?
    ensures var r := ScanLines(before + (Seen(l, k, c) + rest), cap, START);
      if k < 11 && (c == '\n' || c == '\0' || (c == '\r' && k == |l| - 1)) then r == ScanLines(before + rest, cap, START)
      else r.Fail?
  {
    hide Whole, Nibble, ScanLines, Decode, Clean;
    Halves(l, k);
    if c == '\n' {
      var a, b := l[..k], l[k + 1..];
      assert before + ([a, b] + rest) == before + [a] + ([b] + rest);
      if k < 11 {
        JunkSkipped(before, a, [b] + rest, cap);
        assert before + ([b] + rest) == before + [b] + rest;
        JunkSkipped(before, b, rest, cap);
      } else {
        MalformedFails(before, a, [b] + rest, cap);
      }
    } else {
      var seen := Seen(l, k, c)[0];
      assert before + ([seen] + rest) == before + [seen] + rest;
      if seen == l[..k] && k < 11 {
        JunkSkipped(before, seen, rest, cap);
      } else {
        if seen != l[..k] {
          DigitChanged(l, k, c);
        }
        MalformedFails(before, seen, rest, cap);
      }
    }
  }

  /** For every change of one digit behind the count of a record that the loader reaches: the
      load fails, except that a line feed among the first eleven characters, or a final carriage
      return in a record without data, makes the record vanish, and a NUL among the first eleven
      ends the file before it. */
  lemma DamageExact(before: seq<string>, l: string, k: nat, c: char, after: seq<string>, eol: string, cap: nat)
    requires Whole(l) && 3 <= k < |l| && Nibble(c) != Nibble(l[k])
    requires LineFeed(eol) && (forall i :: 0 <= i < |before| ==> Clean(before[i]))
    requires forall i :: 0 <= i < |after| ==> Clean(after[i])
    requires ScanLines(before, cap, START).More?
    ensures var r := LoadResult(DamagedText(before, l, k, c, after, eol), cap);
      if k < 11 && (c == '\n' || (c == '\r' && k == |l| - 1)) then r == LoadResult(Join(before + after, eol), cap)
      else if k < 11 && c == '\0' then r == LoadResult(Join(before, eol), cap)
      else r.Fail?
  {
    hide Whole, Nibble, LoadResult, ScanLines, Lines, Join, Decode, Clean, Finished, DamagedText;
    var text := DamagedText(before, l, k, c, after, eol);
    DamagedLines(before, l, k, c, after, eol);
    LoadIsLines(text, cap);
    Undamaged(before + after, eol, cap);
    Undamaged(before, eol, cap);
    SeenScans(before, l, k, c, if c == '\0' then [] else after, cap);
    assert before + [] == before;
    if ScanLines(Lines(text, 0), cap, START).Fail? {
      FailStays(ScanLines(Lines(text, 0), cap, START));
    }
  }

  lemma FailStays(o: Outcome)
    requires o.Fail?
    ensures Finished(Ended(o)).Fail?
  {
  }

  lemma Undamaged(lines: seq<string>, eol: string, cap: nat)
    requires LineFeed(eol) && forall i :: 0 <= i < |lines| ==> Clean(lines[i])
    ensures LoadResult(Join(lines, eol), cap) == Finished(Ended(ScanLines(lines, cap, START)))
  {
    hide LoadResult, ScanLines, Join, Clean;
    LoadJoined(lines, eol, cap);
  }
}
