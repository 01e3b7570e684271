/** The emulator's configuration constants: the memory layout, the
    built-in hexadecimal font and the sizes of the register file and
    the call stack. */
module Configs {
  import opened Common

  /** Bytes of addressable memory. */
  const MemorySize: nat := 4096

  /** Address at which a program image is loaded. */
  const RomStart: nat := 0x200

  /** Address of the first byte of the font. */
  const FontsetStart: nat := 0x50

  /** Sprites of the hexadecimal digits 0..F, five rows of one byte each. */
  const Fontset: seq<byte> := [
    0xF0, 0x90, 0x90, 0x90, 0xF0,  // 0
    0x20, 0x60, 0x20, 0x20, 0x70,  // 1
    0xF0, 0x10, 0xF0, 0x80, 0xF0,  // 2
    0xF0, 0x10, 0xF0, 0x10, 0xF0,  // 3
    0x90, 0x90, 0xF0, 0x10, 0x10,  // 4
    0xF0, 0x80, 0xF0, 0x10, 0xF0,  // 5
    0xF0, 0x80, 0xF0, 0x90, 0xF0,  // 6
    0xF0, 0x10, 0x20, 0x40, 0x40,  // 7
    0xF0, 0x90, 0xF0, 0x90, 0xF0,  // 8
    0xF0, 0x90, 0xF0, 0x10, 0xF0,  // 9
    0xF0, 0x90, 0xF0, 0x90, 0x90,  // A
    0xE0, 0x90, 0xE0, 0x90, 0xE0,  // B
    0xF0, 0x80, 0x80, 0x80, 0xF0,  // C
    0xE0, 0x90, 0x90, 0x90, 0xE0,  // D
    0xF0, 0x80, 0xF0, 0x80, 0xF0,  // E
    0xF0, 0x80, 0xF0, 0x80, 0x80   // F
  ]

  /** Number of general-purpose registers V0..VF. */
  const RegisterCount: nat := 16

  /** Number of return-address slots on the call stack. */
  const StackSize: nat := 16

  /** The relations between the constants that the rest of the model uses:
      the font fits below the program area, which is inside memory. */
  lemma LayoutFits()
    ensures |Fontset| == 80
    ensures FontsetStart + |Fontset| <= RomStart < MemorySize
    ensures RegisterCount == 16 && StackSize >= 1
  {
  }
}
