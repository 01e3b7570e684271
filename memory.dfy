/** The emulator's memory: a fixed-length array of bytes holding the
    hexadecimal font from construction on and, from `RomStart`, the
    program image. Pure functions on images (`seq<byte>`) state what each
    operation does; the class `Memory` performs the operations in place
    and is proved against them. */
module Memory {
  import opened Common
  import opened Configs

  /** The contents of memory as a value. */
  type Image = seq<byte>

  /** Whether address `a` lies in the font region. */
  predicate InFont(a: int)
  {
    FontsetStart <= a < FontsetStart + |Fontset|
  }

  /** The byte at address `a` right after construction: the font inside
      the font region, zero everywhere else. */
  function PowerOnByte(a: nat): byte
  {
    if InFont(a) then Fontset[a - FontsetStart] else 0
  }

  /** Memory right after construction. */
  function PowerOnImage(): Image
  {
    seq(MemorySize, a requires 0 <= a => PowerOnByte(a))
  }

  /** `read_byte`: the explicit guard rejects addresses beyond the size;
      the address equal to the size is rejected by the list lookup itself.
      Both raise `IndexError`. */
  function ByteAt(m: Image, addr: nat): (r: Result<byte>)
    requires |m| == MemorySize
    ensures r.Ok? <==> addr < MemorySize
    ensures r.Err? ==> r.error == IndexError
    ensures r.Ok? ==> r.value == m[addr]
  {
    if addr > MemorySize then Err(IndexError)
    else if addr == MemorySize then Err(IndexError)
    else Ok(m[addr])
  }

  /** `read_word`: the explicit guard rejects `addr + 1 > size`; the last
      address fails on the lookup of `addr + 1`. The high byte comes first. */
  function WordAt(m: Image, addr: nat): (r: Result<nat>)
    requires |m| == MemorySize
    ensures r.Ok? <==> addr + 2 <= MemorySize
    ensures r.Err? ==> r.error == IndexError
    ensures r.Ok? ==> r.value < 0x10000 && r.value / 256 == m[addr] && r.value % 256 == m[addr + 1]
  {
    if addr + 1 > MemorySize then Err(IndexError)
    else if addr + 1 == MemorySize then Err(IndexError)
    else Ok(m[addr] as int * 256 + m[addr + 1])
  }

  /** `write_byte` with its byte-range check covering both ends of 0..255
      (see `WrittenAsWritten` for the check as the source has it). The
      address guard comes first, so an address equal to the size with an
      out-of-range value raises `ValueError`, not `IndexError`. */
  function Written(m: Image, addr: nat, value: int): (r: Result<Image>)
    requires |m| == MemorySize
    ensures r.Ok? <==> addr < MemorySize && 0 <= value <= 255
    ensures addr > MemorySize ==> r == Err(IndexError)
    ensures addr <= MemorySize && !(0 <= value <= 255) ==> r == Err(ValueError)
    ensures addr == MemorySize && 0 <= value <= 255 ==> r == Err(IndexError)
    ensures r.Ok? ==> |r.value| == |m| && r.value[addr] == value
    ensures r.Ok? ==> forall a :: 0 <= a < |m| && a != addr ==> r.value[a] == m[a]
  {
    if addr > MemorySize then Err(IndexError)
    else if value > 255 || value < 0 then Err(ValueError)
    else if addr == MemorySize then Err(IndexError)
    else Ok(m[addr := value])
  }

  /** `write_byte` as the source has it: only `value > 255` is rejected, so
      a negative value is stored. Cells are unbounded integers here. */
  function WrittenAsWritten(m: seq<int>, addr: nat, value: int): (r: Result<seq<int>>)
    requires |m| == MemorySize
    ensures r.Ok? <==> addr < MemorySize && value <= 255
    ensures r.Ok? ==> |r.value| == |m|
    ensures r.Ok? ==> forall a :: 0 <= a < |m| ==> r.value[a] == if a == addr then value else m[a]
  {
    if addr > MemorySize then Err(IndexError)
    else if value > 255 then Err(ValueError)
    else if addr == MemorySize then Err(IndexError)
    else Ok(m[addr := value])
  }

  /** The slice assignment of `load_rom` for an image that fits: the ROM
      replaces the same-size run of cells from `RomStart` on. */
  function WithRom(m: Image, rom: seq<byte>): (r: Image)
    requires |m| == MemorySize && RomStart + |rom| <= MemorySize
    ensures |r| == MemorySize
    ensures forall k :: 0 <= k < |rom| ==> r[RomStart + k] == rom[k]
    ensures forall a :: 0 <= a < MemorySize && !(RomStart <= a < RomStart + |rom|) ==> r[a] == m[a]
  {
    m[..RomStart] + rom + m[RomStart + |rom|..]
  }

  /** Construction puts glyph row `b` of digit `d` at
      `FontsetStart + 5 * d + b` and zero outside the font region. */
  lemma PowerOnLayout(d: nat, b: nat, a: nat)
    requires d < 16 && b < 5 && a < MemorySize
    ensures |PowerOnImage()| == MemorySize
    ensures PowerOnImage()[FontsetStart + 5 * d + b] == Fontset[5 * d + b]
    ensures !InFont(a) ==> PowerOnImage()[a] == 0
  {
  }

  /** A byte written to a valid address with a value in 0..255 reads back. */
  lemma ReadAfterWrite(m: Image, addr: nat, value: int)
    requires |m| == MemorySize && addr < MemorySize && 0 <= value <= 255
    ensures Written(m, addr, value).Ok?
    ensures ByteAt(Written(m, addr, value).value, addr) == Ok(value)
  {
  }

  /** A write leaves every other byte, and every word not overlapping the
      written address, as it was; a failed write changes nothing. */
  lemma WriteLeavesOthers(m: Image, addr: nat, value: int, other: nat)
    requires |m| == MemorySize && Written(m, addr, value).Ok?
    ensures other != addr ==> ByteAt(Written(m, addr, value).value, other) == ByteAt(m, other)
    ensures other != addr && other + 1 != addr ==>
      WordAt(Written(m, addr, value).value, other) == WordAt(m, other)
  {
  }

  /** Reading a word is big-endian: the byte at `addr` is the high half.
      Writing the two halves of a 16-bit word and reading it back returns
      the word; the last address has no word. */
  lemma WordRoundTrip(m: Image, addr: nat, w: nat)
    requires |m| == MemorySize && addr + 2 <= MemorySize && w < 0x10000
    ensures Written(m, addr, w / 256).Ok?
    ensures Written(Written(m, addr, w / 256).value, addr + 1, w % 256).Ok?
    ensures WordAt(Written(Written(m, addr, w / 256).value, addr + 1, w % 256).value, addr) == Ok(w)
    ensures WordAt(m, MemorySize - 1).Err?
  {
    var m1 := Written(m, addr, w / 256).value;
    var m2 := Written(m1, addr + 1, w % 256).value;
    assert m2[addr] == w / 256 && m2[addr + 1] == w % 256;
  }

  /** The write check as the source has it lets -1 through and stores it,
      leaving a cell outside 0..255; the corrected `Written` rejects it. */
  lemma NegativeValueStoredAsWritten(m: seq<int>)
    requires |m| == MemorySize
    ensures WrittenAsWritten(m, 100, -1) == Ok(m[100 := -1])
    ensures !(0 <= WrittenAsWritten(m, 100, -1).value[100] <= 255)
    ensures forall n: Image :: |n| == MemorySize ==> Written(n, 100, -1) == Err(ValueError)
  {
  }

  /** Loading a ROM that fits places its bytes from `RomStart` on and leaves
      the font of a freshly constructed memory intact. */
  lemma RomKeepsFont(rom: seq<byte>, a: nat)
    requires RomStart + |rom| <= MemorySize && InFont(a)
    ensures WithRom(PowerOnImage(), rom)[a] == Fontset[a - FontsetStart]
    ensures forall k :: 0 <= k < |rom| ==> ByteAt(WithRom(PowerOnImage(), rom), RomStart + k) == Ok(rom[k])
  {
  }

  /** The memory module: a fixed-length array of bytes. */
  class Memory {
    var cells: array<byte>

    ghost predicate Valid()
      reads this
    {
      cells.Length == MemorySize
    }

    /** Zero-fills memory, then loads the font. */
    constructor()
      ensures Valid() && fresh(cells)
      ensures cells[..] == PowerOnImage()
    {
      cells := new byte[MemorySize](_ => 0);
      new;
      LoadFontset();
      assert forall a :: 0 <= a < MemorySize ==> cells[a] == PowerOnByte(a);
    }

    /** Copies the font, digit by digit and row by row, into the font
        region; nothing else changes. */
    method LoadFontset()
      requires Valid()
      modifies cells
      ensures forall a :: 0 <= a < MemorySize ==>
        cells[a] == if InFont(a) then Fontset[a - FontsetStart] else old(cells[a])
    {
      for digit := 0 to 16
        invariant forall a :: 0 <= a < MemorySize ==>
          cells[a] == if FontsetStart <= a < FontsetStart + 5 * digit then Fontset[a - FontsetStart] else old(cells[a])
      {
        LoadGlyph(Fontset, digit);
      }
    }

    /** Copies the five rows of the glyph of `digit` in the font table
        `font` to `FontsetStart + 5 * digit` onwards; nothing else changes.
        The table is a parameter so that the proof works on any table of
        the font's length. */
    method LoadGlyph(font: seq<byte>, digit: nat)
      requires Valid() && |font| == |Fontset| && digit < 16
      modifies cells
      ensures forall a :: 0 <= a < MemorySize ==>
        cells[a] == if FontsetStart + 5 * digit <= a < FontsetStart + 5 * digit + 5 then font[a - FontsetStart] else old(cells[a])
    {
      for byteIdx := 0 to 5
        invariant forall a :: 0 <= a < MemorySize ==>
          cells[a] == if FontsetStart + 5 * digit <= a < FontsetStart + 5 * digit + byteIdx then font[a - FontsetStart] else old(cells[a])
      {
        var memoryIdx := FontsetStart + 5 * digit + byteIdx;
        cells[memoryIdx] := font[5 * digit + byteIdx];
      }
    }

    /** Copies a ROM image into memory from `RomStart` on. */
    method LoadRom(rom: seq<byte>)
      requires Valid() && RomStart + |rom| <= MemorySize
      modifies cells
      ensures cells[..] == WithRom(old(cells[..]), rom)
    {
      forall k | 0 <= k < |rom| {
        cells[RomStart + k] := rom[k];
      }
      assert cells[..] == WithRom(old(cells[..]), rom);
    }

    /** Reads one byte; any address from the size on raises `IndexError`. */
    method ReadByte(addr: nat) returns (r: Result<byte>)
      requires Valid()
      ensures r == ByteAt(cells[..], addr)
      ensures r.Ok? <==> addr < MemorySize
      ensures r.Ok? ==> r.value == cells[addr]
      ensures r.Err? ==> r.error == IndexError
    {
      if addr > MemorySize {
        return Err(IndexError);
      }
      if addr == MemorySize {
        return Err(IndexError);
      }
      r := Ok(cells[addr]);
    }

    /** Reads the big-endian word at `addr`: the byte at `addr` is the high
        half, the next byte the low half; reading changes nothing. */
    method ReadWord(addr: nat) returns (r: Result<nat>)
      requires Valid()
      ensures r == WordAt(cells[..], addr)
      ensures r.Ok? <==> addr + 2 <= MemorySize
      ensures r.Ok? ==> r.value < 0x10000 && r.value / 256 == cells[addr] && r.value % 256 == cells[addr + 1]
    {
      if addr + 1 > MemorySize {
        return Err(IndexError);
      }
      if addr + 1 == MemorySize {
        return Err(IndexError);
      }
      // On unbounded integers `hi << 8 | lo` with `lo < 256` is `hi * 256 + lo`.
      var hi, lo := cells[addr], cells[addr + 1];
      r := Ok(hi as int * 256 + lo);
    }

    /** Writes one byte; see `Written` for the errors. */
    method WriteByte(addr: nat, value: int) returns (outcome: Outcome)
      requires Valid()
      modifies cells
      ensures match Written(old(cells[..]), addr, value)
        case Ok(m) => outcome == Pass && cells[..] == m
        case Err(e) => outcome == Fail(e) && cells[..] == old(cells[..])
    {
      if addr > MemorySize {
        return Fail(IndexError);
      }
      if value > 255 || value < 0 {
        return Fail(ValueError);
      }
      if addr == MemorySize {
        return Fail(IndexError);
      }
      cells[addr] := value;
      outcome := Pass;
    }
  }
}
