/** Firmware layering: a chip's flash is the user's image over the idle stub over the built-in
    bootloader over erased cells, and a failed load leaves the chip as it was. */
module Firmware {
  import opened Bytes
  import opened IntelHex

  /** External reset: the bootloader waits for a programmer. */
  const EXTRF: Byte := 0x02

  /** The jump-to-itself at address 0 that keeps a chip without a sketch from running away. */
  const IDLE_STUB: seq<Byte> := [0xFF, 0xCF]

  const OPTIBOOT_MCU := "atmega328p"

  /** The program compares ten characters only, so longer names with this prefix qualify too. */
  predicate TakesOptiboot(mcuName: string) { OPTIBOOT_MCU <= mcuName }

  /** The name of the fifth chip, which is meant to go without a bootloader. */
  const VARIANT_MCU := "atmega328pb"

  lemma VariantTakesOptiboot()
    ensures TakesOptiboot(VARIANT_MCU) && VARIANT_MCU != OPTIBOOT_MCU
  {
    assert VARIANT_MCU[..10] == OPTIBOOT_MCU;
  }

  function Erased(cap: nat): (f: seq<Byte>)
    ensures |f| == cap
  {
    seq(cap, i => 0xFF)
  }

  function WithStub(flash: seq<Byte>): (f: seq<Byte>)
    requires |flash| >= 2
    ensures |f| == |flash|
  {
    IDLE_STUB + flash[2..]
  }

  /** Where the AVR instruction RJMP, 1100 kkkk kkkk kkkk with a signed k, goes from word pc. */
  function RjmpTarget(word: int, pc: int): int
    requires 0xC000 <= word < 0xD000
  {
    var k := word - 0xC000;
    pc + 1 + if k >= 0x800 then k - 0x1000 else k
  }

  /** The stub is a jump from address 0 to address 0, and leaves the rest of the flash alone. */
  lemma StubJumpsToItself(flash: seq<Byte>)
    requires |flash| >= 2
    ensures var f := WithStub(flash); var word := f[0] as int + 256 * (f[1] as int);
      && 0xC000 <= word < 0xD000 && RjmpTarget(word, 0) == 0
      && forall a :: 2 <= a < |flash| ==> f[a] == flash[a]
  {
    var f := WithStub(flash);
    assert f[0] == 0xFF && f[1] == 0xCF;
  }

  /** The flash below the user's image. */
  function Ground(mcuName: string, optiboot: string, cap: nat): (f: seq<Byte>)
    requires cap >= 2
    ensures |f| == cap
  {
    if !TakesOptiboot(mcuName) then Erased(cap)
    else
      LoadBounded(optiboot, cap);
      var o := LoadResult(optiboot, cap);
      var f := Overlay(Erased(cap), o.s.chunks);
      if o.Stop? then WithStub(f) else f
  }

  /** The byte at address a that the layers determine. */
  function Layered(user: seq<Chunk>, stub: bool, boot: seq<Chunk>, a: nat): (b: Byte) {
    match Written(user, a)
    case Some(b) => b
    case None =>
      if stub && a < 2 then IDLE_STUB[a]
      else match Written(boot, a)
        case Some(b) => b
        case None => 0xFF
  }

  function Chunks(text: string, cap: nat): seq<Chunk> { LoadResult(text, cap).s.chunks }

  function HaveOptiboot(mcuName: string, optiboot: string, cap: nat): bool {
    TakesOptiboot(mcuName) && LoadResult(optiboot, cap).Stop?
  }

  /** Every address of a freshly loaded flash: the user's byte if the user's image covers it,
      else the stub at 0 and 1, else the bootloader, else erased. */
  lemma LayersDecide(mcuName: string, optiboot: string, user: string, cap: nat, a: nat)
    requires a < cap && cap >= 2
    ensures Fits(Chunks(user, cap), cap)
    ensures Overlay(Ground(mcuName, optiboot, cap), Chunks(user, cap))[a] ==
      Layered(Chunks(user, cap), HaveOptiboot(mcuName, optiboot, cap),
              if TakesOptiboot(mcuName) then Chunks(optiboot, cap) else [], a)
  {
    hide LoadResult, TakesOptiboot, Overlay, Fits;
    LoadBounded(user, cap);
    LoadIsOverlay(user, Ground(mcuName, optiboot, cap), a);
    LoadIsOverlay(optiboot, Erased(cap), a);
  }

  class Chip {
    const mcuName: string
    const optiboot: string
    const flash: array<Byte>
    var resetPc: nat
    var codeEnd: nat
    var pc: nat
    var resetCause: Byte
    var running: bool
    var paused: bool
    var cycles: nat
    var hexPath: string

    ghost predicate Valid() { flash.Length >= 2 }

    /** What a load leaves behind besides the flash contents. */
    ghost predicate Restarted(at: nat)
      requires Valid()
      reads this
    {
      && resetPc == at && pc == at && codeEnd == flash.Length - 1 && resetCause == EXTRF && running
    }

    constructor (mcu: string, bootloader: string, contents: array<Byte>)
      requires contents.Length >= 2
      ensures Valid() && mcuName == mcu && optiboot == bootloader && flash == contents
      ensures !running && !paused && cycles == 0 && pc == 0 && resetPc == 0 && resetCause == 0
    {
      mcuName, optiboot, flash := mcu, bootloader, contents;
      resetPc, codeEnd, pc, resetCause, running, paused, cycles, hexPath := 0, 0, 0, 0, false, false, 0, "";
    }

    method StubInto(f: array<Byte>)
      requires f.Length >= 2
      modifies f
      ensures f[..] == WithStub(old(f[..]))
    {
      f[0] := 0xFF;
      f[1] := 0xCF;
      assert f[..2] == IDLE_STUB;
      assert f[2..] == old(f[..])[2..];
    }

    /** Put the built-in bootloader straight into the flash. */
    method InstallOptiboot() returns (ok: bool)
      requires Valid()
      modifies this`resetPc, this`codeEnd, this`pc, flash
      ensures var o := LoadResult(optiboot, flash.Length);
        && ok == o.Stop? && Fits(o.s.chunks, flash.Length)
        && flash[..] == (if ok then WithStub(Overlay(old(flash[..]), o.s.chunks)) else Overlay(old(flash[..]), o.s.chunks))
        && (ok ==> resetPc == pc == o.s.min && codeEnd == flash.Length - 1)
        && (!ok ==> resetPc == old(resetPc) && pc == old(pc) && codeEnd == old(codeEnd))
    {
      hide LoadResult, Overlay, WithStub;
      var wild, min, max;
      ok, wild, min, max := LoadText(optiboot, flash);
      if !ok {
        return false;
      }
      StubInto(flash);
      resetPc := min;
      codeEnd := flash.Length - 1;
      pc := min;
    }

    /** Power-up: chips with a bootloader start in it, the others wait for a load. */
    method PowerUp()
      requires Valid() && resetCause == 0 && !running
      modifies this`resetPc, this`codeEnd, this`pc, this`resetCause, this`running, flash
      ensures running == HaveOptiboot(mcuName, optiboot, flash.Length)
      ensures running ==> Restarted(LoadResult(optiboot, flash.Length).s.min)
      ensures !TakesOptiboot(mcuName) ==> flash[..] == old(flash[..]) && resetPc == old(resetPc)
    {
      hide LoadResult;
      running := false;
      if TakesOptiboot(mcuName) {
        var ok := InstallOptiboot();
        if ok {
          resetCause := EXTRF;
          running := true;
        }
      }
    }

    /** Load a file; `text` is None when it cannot be read. On failure nothing changes at all:
        the image is staged and copied only once it is known to be good. When `wild` is set, the
        program has met a record that it would stage outside the buffer. */
    method LoadHex(path: string, text: Option<string>) returns (status: int, wild: bool)
      requires Valid()
      modifies this`resetPc, this`codeEnd, this`pc, this`resetCause, this`running, this`paused, this`cycles, this`hexPath, flash
      ensures wild == (text.Some? && LoadResult(text.value, flash.Length).Wild?)
      ensures status == if text.Some? && LoadResult(text.value, flash.Length).Stop? then 0 else -2
      ensures flash[..] == AfterLoads(mcuName, optiboot, old(flash[..]), [text])
      ensures status == 0 ==>
        && Fits(Chunks(text.value, flash.Length), flash.Length)
        && flash[..] == Overlay(Ground(mcuName, optiboot, flash.Length), Chunks(text.value, flash.Length))
        && Restarted(if HaveOptiboot(mcuName, optiboot, flash.Length)
                     then LoadResult(optiboot, flash.Length).s.min else LoadResult(text.value, flash.Length).s.min)
        && !paused && cycles == 0 && hexPath == path
      ensures status != 0 ==> flash[..] == old(flash[..]) && unchanged(this)
    {
      hide LoadResult, Overlay, Fits, TakesOptiboot, WithStub, Erased, AfterLoads;
      var cap := flash.Length;
      var tmp := new Byte[cap](_ => 0xFF);
      assert tmp[..] == Erased(cap) by {
        ErasedAll(tmp[..]);
      }
      var haveOpt, optMin := false, 0;
      if TakesOptiboot(mcuName) {
        var optWild, optMax;
        haveOpt, optWild, optMin, optMax := LoadText(optiboot, tmp);
        if haveOpt {
          StubInto(tmp);
        }
      }
      assert tmp[..] == Ground(mcuName, optiboot, cap);
      OneLoad(mcuName, optiboot, old(flash[..]), text);
      if text.None? {
        return -2, false;
      }
      var ok, min, max;
      ok, wild, min, max := LoadText(text.value, tmp);
      if !ok {
        return -2, wild;
      }
      forall i | 0 <= i < cap {
        flash[i] := tmp[i];
      }
      assert flash[..] == tmp[..];
      resetPc := if haveOpt then optMin else min;
      codeEnd := cap - 1;
      pc := resetPc;
      running := true;
      paused := false;
      cycles := 0;
      resetCause := EXTRF;
      hexPath := path;
      status := 0;
    }
  }

  lemma ErasedAll(f: seq<Byte>)
    requires forall i :: 0 <= i < |f| ==> f[i] == 0xFF
    ensures f == Erased(|f|)
  {
  }

  // ----- histories of loads -----

  predicate Loads(text: Option<string>, cap: nat) { text.Some? && LoadResult(text.value, cap).Stop? }

  /** The flash that loading `text` leaves, whatever was there before. */
  function Image(mcuName: string, optiboot: string, text: string, cap: nat): (f: seq<Byte>)
    requires cap >= 2
    ensures |f| == cap
  {
    LoadBounded(text, cap);
    Overlay(Ground(mcuName, optiboot, cap), Chunks(text, cap))
  }

  /** The flash after a sequence of load commands; `None` is a file that cannot be read. */
  function AfterLoads(mcuName: string, optiboot: string, flash: seq<Byte>, texts: seq<Option<string>>): (f: seq<Byte>)
    requires |flash| >= 2
    ensures |f| == |flash|
  {
    if texts == [] then flash
    else
      var last := texts[|texts| - 1];
      if Loads(last, |flash|) then Image(mcuName, optiboot, last.value, |flash|)
      else AfterLoads(mcuName, optiboot, flash, texts[..|texts| - 1])
  }

  lemma OneLoad(mcuName: string, optiboot: string, flash: seq<Byte>, text: Option<string>)
    requires |flash| >= 2
    ensures AfterLoads(mcuName, optiboot, flash, [text]) ==
      if Loads(text, |flash|) then Image(mcuName, optiboot, text.value, |flash|) else flash
  {
    hide LoadResult, Image;
    assert [text][..0] == [];
  }

  /** The last text of the sequence that loads. */
  function LastGood(texts: seq<Option<string>>, cap: nat): (r: Option<string>)
    ensures r.None? <==> forall i :: 0 <= i < |texts| ==> !Loads(texts[i], cap)
  {
    if texts == [] then None
    else if Loads(texts[|texts| - 1], cap) then texts[|texts| - 1]
    else LastGood(texts[..|texts| - 1], cap)
  }

  /** After any sequence of loads the flash is the image of the last one that succeeded, and
      the original flash only if none did. */
  lemma {:induction false} LastGoodDecides(mcuName: string, optiboot: string, flash: seq<Byte>, texts: seq<Option<string>>)
    requires |flash| >= 2
    ensures var g := LastGood(texts, |flash|);
      AfterLoads(mcuName, optiboot, flash, texts) == if g.Some? then Image(mcuName, optiboot, g.value, |flash|) else flash
  {
    hide LoadResult, Image;
    if texts != [] {
      LastGoodDecides(mcuName, optiboot, flash, texts[..|texts| - 1]);
    }
  }

  /** Nothing of an earlier image remains: over two different flashes, sequences of loads that
      end in the same good text leave the same contents. */
  lemma LoadForgets(mcuName: string, optiboot: string, flash1: seq<Byte>, flash2: seq<Byte>,
                    texts1: seq<Option<string>>, texts2: seq<Option<string>>)
    requires |flash1| == |flash2| >= 2
    requires LastGood(texts1, |flash1|) == LastGood(texts2, |flash1|) != None
    ensures AfterLoads(mcuName, optiboot, flash1, texts1) == AfterLoads(mcuName, optiboot, flash2, texts2)
  {
    hide LoadResult, Image;
    LastGoodDecides(mcuName, optiboot, flash1, texts1);
    LastGoodDecides(mcuName, optiboot, flash2, texts2);
  }

  /** The fifth chip starts in the bootloader exactly as the others do, and every load that
      succeeds leaves the bootloader in its flash and resets into it. */
  method StartVariant(optiboot: string, contents: array<Byte>, path: string, text: string)
    returns (chip: Chip, booted: bool, status: int, wild: bool)
    requires contents.Length >= 2 && LoadResult(optiboot, contents.Length).Stop?
    modifies contents
    ensures var o := LoadResult(optiboot, contents.Length);
      && chip.mcuName == VARIANT_MCU && chip.flash == contents && booted
      && chip.running && chip.resetPc == chip.pc == o.s.min
      && (status == 0 ==>
            forall a: nat :: a < contents.Length && Written(Chunks(text, contents.Length), a).None? ==>
              contents[a] == Layered([], true, o.s.chunks, a))
  {
    hide LoadResult, Overlay, Fits, Ground, Layered, AfterLoads, Written;
    VariantTakesOptiboot();
    chip := new Chip(VARIANT_MCU, optiboot, contents);
    chip.PowerUp();
    booted := chip.running;
    assert HaveOptiboot(VARIANT_MCU, optiboot, contents.Length);
    status, wild := chip.LoadHex(path, Some(text));
    if status == 0 {
      forall a: nat | a < contents.Length && Written(Chunks(text, contents.Length), a).None?
        ensures contents[a] == Layered([], true, Chunks(optiboot, contents.Length), a)
      {
        LayersDecide(VARIANT_MCU, optiboot, text, contents.Length, a);
        UncoveredLayer(Chunks(text, contents.Length), true, Chunks(optiboot, contents.Length), a);
      }
    }
  }

  lemma UncoveredLayer(user: seq<Chunk>, stub: bool, boot: seq<Chunk>, a: nat)
    requires Written(user, a).None?
    ensures Layered(user, stub, boot, a) == Layered([], stub, boot, a)
  {
  }
}
