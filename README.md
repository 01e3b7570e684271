# CHIP-8 emulator core, modelled in Dafny

This project models the core of a small CHIP-8 virtual machine written in
Python. It covers four components:

- **Memory.** 4096 bytes. The 80-byte hexadecimal font sits at 0x50 and
  programs load at 0x200. Single bytes and big-endian 16-bit words can be
  read; single bytes can be written. In the model, addresses at or past the
  end and values outside 0..255 raise errors. The source lets negative
  values through (see "## Findings"), and negative addresses index from
  the end of the Python list, which the model does not cover.
- **Display.** A 64x32 monochrome screen. Sprites are drawn by XOR, one
  byte per row and most significant bit first. The screen wraps at both
  edges, and drawing reports whether a lit pixel was hit.
- **CPU.** Sixteen 8-bit registers, a program counter, an index register
  and a 16-slot call stack. Opcodes are dispatched on their high nibble.
  Only flow control is implemented: 00E0 clear screen, 00EE return, 1nnn
  jump, Bnnn jump with offset and 2nnn call. Every other instruction family
  is a no-op.
- **Keypad.** The sixteen keys 0x0 to 0xF are read through a QWERTY block
  (1234/QWER/ASDF/ZXCV). In the model, with the key lookup corrected,
  `wait_store_key` waits for the first key that goes down between two
  readings of the keyboard. As written, the lookup raises `TypeError`
  before any key is read (see "## Findings").

Each component is a Dafny module:

| file | module | contents |
|---|---|---|
| `common.dfy` | `Common` | `byte`, the Python exceptions as an `Error` datatype, `Result`, `Outcome`, `Option` |
| `configs.dfy` | `Configs` | memory size, ROM origin, font address and font bytes, register and stack sizes |
| `memory.dfy` | `Memory` | memory images as values, and the class `Memory` over an `array<byte>` |
| `display.dfy` | `Display` | screens as values, and the class `Display` whose `screen` field is reassigned |
| `cpu.dfy` | `Cpu` | processor states as values, and the class `CPU` with its arrays and fields |
| `input.dfy` | `Input` | the key mappings, keyboard readings as sets of held keys, and the scans as loops |

Each component comes in two layers:

- **Pure functions on values** say what each operation does. The
  properties are proved about these functions.
- **Classes** perform the operations in place, as the source does. Each
  class method's postcondition ties its new state (or result) to the pure
  function of its old state.

Python exceptions become `Err(...)` or `Fail(...)` results carrying the
exception's class.

## Model

| member | source | states |
|---|---|---|
| `Configs.LayoutFits` | core/memory.py:3-9 | the 80 font bytes fit between the font address and the program origin, which lies inside memory; there are 16 registers and at least one stack slot |
| `Memory.Written` | core/memory.py:75-89 | a write succeeds iff the address is below the memory size and the value is in 0..255; an address past the end gives `IndexError`, an out-of-range value `ValueError`, the address equal to the size `IndexError` from the list store; on success only the addressed cell changes, to the value |
| `Memory.WithRom` | core/memory.py:34-35 | loading a ROM that fits puts its bytes from the program origin on, keeps every other cell and keeps the memory size |
| `Memory.ByteAt` | core/memory.py:43-57 | the pure `read_byte`: succeeds iff the address is below the memory size, with that cell; otherwise `IndexError` |
| `Memory.WordAt` | core/memory.py:59-73 | the pure `read_word`: succeeds iff both the address and the next one are in memory; the word is below 0x10000, with the first cell as its high byte and the second as its low byte; otherwise `IndexError` |
| `Memory.WrittenAsWritten` | core/memory.py:75-89 | `write_byte` as the source has it: succeeds iff the address is below the size and the value is at most 255, so negative values pass; on success the addressed cell holds the value and every other cell is kept |
| `Memory.PowerOnLayout` | core/memory.py:23-41 | `PowerOnImage`, the memory after construction: after power-on, byte b of digit d's glyph is at 0x50 + 5d + b, and every cell outside the font is 0 |
| `Memory.ReadAfterWrite` | core/memory.py:43-57 | writing an in-range value to an in-range address and reading it back gives the value |
| `Memory.WriteLeavesOthers` | core/memory.py:89 | a successful write changes no other byte read, and no word read that does not cover the address |
| `Memory.WordRoundTrip` | core/memory.py:59-73 | writing the high and the low half of a 16-bit word to consecutive cells and reading the word back gives the word; a word read at the last cell fails |
| `Memory.NegativeValueStoredAsWritten` | core/memory.py:85-89 | the code as written stores -1, a value outside 0..255, while `Written` rejects it with `ValueError` |
| `Memory.RomKeepsFont` | core/memory.py:27-41 | after power-on and loading a ROM, the font is intact and every ROM byte reads back at its address |
| `Memory.Memory.constructor` | core/memory.py:23-25 | a new memory holds the power-on image: the font at 0x50, zeros elsewhere |
| `Memory.Memory.LoadFontset` | core/memory.py:37-41 | the loop over the 16 digits copies the font to 0x50 and changes no other cell |
| `Memory.Memory.LoadGlyph` | core/memory.py:39-41 | the inner loop over 5 rows copies digit d's glyph to 0x50 + 5d onwards and changes no other cell |
| `Memory.Memory.LoadRom` | core/memory.py:27-35 | the new contents are `WithRom` of the old ones |
| `Memory.Memory.ReadByte` | core/memory.py:43-57 | succeeds iff the address is below the memory size, with the cell's value; otherwise raises `IndexError` |
| `Memory.Memory.ReadWord` | core/memory.py:59-73 | succeeds iff both cells exist; the word is below 0x10000, its high byte is the first cell and its low byte the second |
| `Memory.Memory.WriteByte` | core/memory.py:75-89 | stores exactly as `Written` says, and on an error leaves every cell unchanged |
| `Display.Blank` | core/display.py:6-10 | 32 rows of 64 pixels, all off |
| `Display.Visit` | core/display.py:16-20 | visiting one pixel keeps the screen 32x64 |
| `Display.DrawRow` | core/display.py:15-20 | drawing one sprite row keeps the screen 32x64 |
| `Display.DrawRows` | core/display.py:14-20 | drawing the first n rows of a sprite keeps the screen 32x64 |
| `Display.ColOffset` | core/display.py:16 | column (x0 + j) mod 64 is x exactly when (x - x0) mod 64 is j, for j < 64 |
| `Display.RowsDistinct` | core/display.py:17 | fewer than 32 consecutive sprite rows land on distinct screen rows |
| `Display.DrawRowPixel` | core/display.py:15-20 | after drawing the first j bits of a row, a pixel is flipped iff it is on that row, at an offset below j whose bit is 1 |
| `Display.DrawRowsPixel` | core/display.py:14-20 | after drawing n rows, every pixel is its old value XOR the parity of the set sprite bits that land on it |
| `Display.DrawRowsPixelStep` | core/display.py:14-20 | drawing sprite row m on top of the rows above it flips a pixel exactly when row m has a 1 bit over it, which extends the parity description from m rows to m + 1 |
| `Display.DrawPixel` | core/display.py:12-22 | `Draw`, the pure `draw_sprite`: every pixel ends as its old value XOR the parity of the set sprite bits over it, wrapping at both edges (for at most 32 rows, exactly the pixels under a set bit flip); the screen stays 32x64 |
| `Display.DrawTwiceRestores` | core/display.py:20 | drawing the same sprite twice at the same origin gives back the original screen |
| `Display.EmptySpriteIsNoOp` | core/display.py:13-22 | an empty sprite changes nothing and reports no collision |
| `Display.DrawRowHits` | core/display.py:15-19 | each column of a row is visited once, so the row's collision flag is whether one of its visited columns hits a pixel as it was before the row |
| `Display.DrawRowCollision` | core/display.py:15-19 | a row reports a collision iff some visited bit of it meets the collision rule on the screen before the row |
| `Display.UntouchedRow` | core/display.py:14-17 | the first m sprite rows flip nothing on the screen row of a later row, given at most 32 rows |
| `Display.OwnRowUntouched` | core/display.py:14-20 | the rows drawn before sprite row m, for m below 32, leave the pixels of row m's screen row as they were |
| `Display.LastRowSeesOriginal` | core/display.py:14-19 | when sprite row m is drawn after the rows above it, each of its cells hits exactly as it would on the original screen |
| `Display.LastRowCollision` | core/display.py:14-19 | sprite row m, drawn after the rows above it, reports a collision iff one of its bits meets the rule on the original screen |
| `Display.SomeRowCollidesExists` | core/display.py:14-19 | the row-by-row collision predicate holds iff some row below n collides |
| `Display.DrawRowsCollision` | core/display.py:13-19 | for n at most 32, the collision flag after n rows is the disjunction of the rows' collisions on the original screen |
| `Display.DrawCollision` | core/display.py:12-22 | the flag `Draw` returns: for a sprite of at most 32 rows, the result is true iff some row collides with the original screen |
| `Display.CollisionAsWritten` | core/display.py:18-19 | under the rule as written, the result is true iff any pixel of the 8-wide footprint was lit, whatever the bit |
| `Display.CollisionSetBitsOnly` | core/display.py:18-20 | under the corrected rule, the result is true iff a set bit lands on a lit pixel, that is, iff a lit pixel is turned off |
| `Display.TwoLitPixels` | tests/test_display.py:312-317 | a 32x64 screen on which pixel (y, x) is lit iff it is (5,5) or (5,7) |
| `Display.ZeroBitOverLitPixel` | core/display.py:18-20 | sprite 0x40 drawn at (5,5) between the two lit pixels reports a collision as written and none under the corrected rule, and lights (5,6) |
| `Display.BlankScreenNeverCollides` | core/display.py:13-19 | drawing a sprite of at most 32 rows on an all-off screen never reports a collision |
| `Display.TallSpriteSelfCollides` | core/display.py:14-19 | a 33-row sprite of 0x80 drawn at (0,0) on an all-off screen reports a collision under either rule, because row 32 wraps onto the pixel row 0 lit; 32 such rows do not |
| `Display.WrapAround` | core/display.py:16-17 | a one-pixel sprite at (100, 50) lights row 18, column 36 and nothing else |
| `Display.Display.constructor` | core/display.py:6-7 | a new display is blank |
| `Display.Display.ClearScreen` | core/display.py:9-10 | the screen becomes blank |
| `Display.Display.DrawSprite` | core/display.py:12-22 | the outer loop leaves the screen and the returned flag equal to `Draw` of the old screen under the corrected collision rule |
| `Display.Display.DrawSpriteRow` | core/display.py:15-20 | the inner loop over the eight bits of one sprite row leaves the screen and the row's flag equal to `DrawRow` of the old screen |
| `Cpu.HighNibble` | core/cpu.py:34 | the instruction family is below 16 |
| `Cpu.Nnn` | core/cpu.py:74 | the address operand is below 0x1000, and the low 16 bits of the opcode are the family times 0x1000 plus the operand, the split that the masks `& 0xF000` and `& 0x0FFF` make |
| `Cpu.JumpEffect` | core/cpu.py:73-81 | succeeds iff the family is 1 or B; 1nnn sets the program counter to nnn and Bnnn to nnn + V0, unmasked; nothing else changes |
| `Cpu.CallEffect` | core/cpu.py:83-86 | succeeds iff the stack pointer is below 16, else `IndexError`; it pushes the program counter at the stack pointer, increments the pointer and jumps to nnn; registers, index and other stack slots are kept |
| `Cpu.ReturnEffect` | core/cpu.py:69-71 | succeeds iff the stack is not empty, else `RuntimeError`; it pops the top slot into the program counter and changes nothing else |
| `Cpu.PowerOnState` | core/cpu.py:16-23 | `PowerOn`, the state after construction: at power-on the registers and stack slots are 0, the program counter is 0x200, and the index and stack pointer are 0 |
| `Cpu.UnimplementedFamiliesChangeNothing` | core/cpu.py:41-56 | families 3 to 9, A and C to F leave the processor and the screen unchanged |
| `Cpu.DispatchOutcome` | core/cpu.py:25-67 | `DispatchEffect` and `SysControlEffect`, the pure `high_nibble_dispatch` and `sys_control`: dispatch fails exactly on a family-0 opcode other than 00E0/00EE, a return on an empty stack or a call on a full stack; only 00E0 clears the screen; success keeps the state well-formed. The catch-all arm is never reached because the family is below 16 and all sixteen families are listed |
| `Cpu.JumpWithOffsetUnmasked` | core/cpu.py:78-79 | BFFF with V0 = 0xFF sets the program counter to 0x10FE, past the 4 KiB address space |
| `Cpu.CallThenReturn` | core/cpu.py:69-86 | a call followed by a return restores the program counter and stack pointer and keeps registers and index |
| `Cpu.NestedCallsUnwind` | core/cpu.py:69-86 | n calls that fit on the stack followed by n returns restore the program counter, the stack pointer, the registers, the index and the stack below the starting pointer |
| `Cpu.ReturnNSplit` | core/cpu.py:69-71 | helper lemma of `NestedCallsUnwind`: unfolds n returns into n-1 returns followed by one, and keeps the state well-formed |
| `Cpu.ReturnNWellFormed` | core/cpu.py:69-71 | helper lemma of `NestedCallsUnwind`: any number of successful returns keeps the state well-formed |
| `Cpu.EmptyReturnAsWritten` | core/cpu.py:69-71 | `ReturnAsWritten`, `return_from_subroutine` as the source has it: as written, a return on an empty stack sets the stack pointer to -1 and jumps to the last stack slot; `ReturnEffect` raises instead |
| `Cpu.CPU.constructor` | core/cpu.py:16-23 | a new processor is in the power-on state, with fresh power-on memory and a blank display |
| `Cpu.CPU.ReturnFromSubroutine` | core/cpu.py:69-71 | the new state is `ReturnEffect` of the old one, or unchanged with its error |
| `Cpu.CPU.Jump` | core/cpu.py:73-81 | the new state is `JumpEffect` of the old one, or unchanged with its error |
| `Cpu.CPU.Call` | core/cpu.py:83-86 | the new state is `CallEffect` of the old one, or unchanged with its error |
| `Cpu.CPU.SysControl` | core/cpu.py:60-67 | 00E0 blanks the display, 00EE returns, anything else raises `NotImplementedError` and changes nothing |
| `Cpu.CPU.HighNibbleDispatch` | core/cpu.py:25-58 | the new state and display are as `DispatchEffect` says, and an error changes nothing |
| `Input.Inverse` | core/input_.py:17 | turning a one-to-one mapping around gives a mapping whose keys are the old values, each mapped back to its key |
| `Input.Chip8ToQwerty` | core/input_.py:17 | the keypad-to-physical mapping is the inverse of the layout, which is one-to-one |
| `Input.LayoutInjective` | core/input_.py:11-16 | no two physical keys stand for the same keypad key |
| `Input.LayoutInRange` | core/input_.py:11-16 | every physical key stands for a key in 0x0..0xF |
| `Input.LayoutCoversKeypad` | core/input_.py:11-16 | every key in 0x0..0xF has a physical key |
| `Input.MappingIsBijection` | core/input_.py:11-17 | the inverse mapping has exactly the keys 0x0..0xF and undoes the forward mapping both ways |
| `Input.KeyOrderIsPermutation` | core/input_.py:11-17 | the keys of the inverse mapping are visited once each, 16 in all |
| `Input.KeyPressed` | core/input_.py:19-20 | succeeds iff the key is in 0x0..0xF, else `KeyError`; the key reads as pressed iff a held physical key stands for it |
| `Input.KeyNotPressed` | core/input_.py:22-23 | the negation of `KeyPressed`, with the same errors |
| `Input.KeyPressedAsWrittenAlwaysFails` | core/input_.py:19-20 | `KeyPressedAsWritten`, `key_pressed` as the source has it: as written, calling the mapping raises `TypeError` for every key and keyboard; the corrected lookup reads a held X as key 0 pressed |
| `Input.KeyStateView` | core/input_.py:35-40 | sixteen flags, flag k set iff key k reads as pressed |
| `Input.KeyStates` | core/input_.py:35-40 | the returned list is `KeyStateView` of the keyboard |
| `Input.FlagHeldKeys` | core/input_.py:36-39 | visiting every key in the given order and raising the flag of each held key gives sixteen flags, flag k set iff key k's physical key is held |
| `Input.RisingEdgeFrom` | core/input_.py:29-31 | the result is the lowest index from the start point whose flag went from down to up, and none when there is no such index |
| `Input.RisingEdge` | core/input_.py:29-31 | the lowest index whose flag is up now and was down before, or none when no flag rose |
| `Input.ScanRisingEdge` | core/input_.py:29-31 | the loop returns `RisingEdge`: the lowest index pressed now and not before, if any |
| `Input.WaitStoreKey` | core/input_.py:25-33 | over a finite run of readings, the result is `FirstPress`, the first rising edge between consecutive readings (see `FirstPressIsNewPress`, `PressIsFound` and `HeldKeyNeverReported` for what it means); the previous reading is replaced by the current one after each scan |
| `Input.FirstPressIsNewPress` | core/input_.py:25-33 | a key `FirstPress` reports is in 0x0..0xF and went down between two consecutive readings; no key went down at any earlier reading, and no lower key went down at that reading |
| `Input.PressIsFound` | core/input_.py:25-33 | if any key goes down at some reading of the run, `FirstPress` reports a key |
| `Input.EarliestPressShift` | core/input_.py:25-33 | helper lemma of `FirstPressIsNewPress`: when no key went down at the first reading, the earliest press in the rest of the run is the earliest press of the whole run |
| `Input.PressedAtShift` | core/input_.py:28-32 | helper lemma: reading t of a run is reading t-1 of the run after the first reading, with the first reading as the previous one |
| `Input.PressedAtFirst` | core/input_.py:28-31 | helper lemma: a key goes down at the first reading iff its flag rises between the baseline and that reading |
| `Input.HeldKeyNeverReported` | core/input_.py:26-32 | a key held from the first reading on, and held throughout, is never reported |
| `Input.SinglePressReported` | core/input_.py:11-33 | pressing one physical key on an idle keyboard reports the keypad key it stands for |

## Left out

- The font bytes in `Configs.Fontset` are the standard CHIP-8 hexadecimal font. `configs.py` is not part of this model, so those contents are assumed; no proof depends on them.
- `configs.py` is not part of this model. The constants follow the standard CHIP-8 layout: 4096 bytes of memory, font at 0x50, programs at 0x200, 16 registers and 16 stack slots.
- `Display.refresh` (terminal output), `main.py`, `core/emulator.py` and `core/errors.py` are not modelled. They are I/O, a real-time loop, or declarations the core does not use.
- `Memory.Memory.LoadRom`: the file read is left out. The ROM bytes are a parameter.
- `Memory.Memory.LoadRom` requires the ROM to fit behind the program origin. A longer ROM would grow the Python list through slice assignment, and that growth is not modelled.
- `get_sprite_address` is a stub that returns nothing, so there is nothing to model.
- Addresses, opcodes and stack pointers are natural numbers. Python's negative-index wrap-around is not modelled, except for the one negative index `ReturnAsWritten` needs.
- Physical key names are single characters (`char`) rather than strings. Every name the mapping uses is one character long.
- The keyboard is given as the set of physical keys held at each reading, and `sleep` is left out.
- `Input.WaitStoreKey` runs over a finite sequence of readings and returns `None` when none of them shows a new press. The source would keep polling forever, and that liveness is not modelled.
- Sprite rows are bytes (0..255). A larger value would give `format(..., "08b")` more than eight digits, and that case is not modelled.
- `Display.BlankScreenNeverCollides`: holds only for sprites of at most 32 rows. A taller sprite wraps onto screen rows it has already drawn and can collide with itself, as `Display.TallSpriteSelfCollides` shows.
- `Display.DrawCollision`: holds only for sprites of at most 32 rows. A taller sprite wraps onto screen rows it has already drawn and can collide with itself, as `Display.TallSpriteSelfCollides` shows.
- `Display.DrawRowsCollision`: holds only for sprites of at most 32 rows. A taller sprite wraps onto screen rows it has already drawn and can collide with itself, as `Display.TallSpriteSelfCollides` shows.
- `Display.CollisionAsWritten`: holds only for sprites of at most 32 rows. A taller sprite wraps onto screen rows it has already drawn and can collide with itself, as `Display.TallSpriteSelfCollides` shows.
- `Display.CollisionSetBitsOnly`: holds only for sprites of at most 32 rows. A taller sprite wraps onto screen rows it has already drawn and can collide with itself, as `Display.TallSpriteSelfCollides` shows.
- Registers are never changed by the implemented instructions, so no register write is modelled.
- The tests describe an API that the source does not have: `cycle`, timers, `start_waiting`/`check_keystates_changed`, `MemoryOutOfBoundsError`, `ByteOverflowError`. The model follows the source code, not those tests.

## Findings

| source | as written | input that shows it | evidently intended | confidence | as-written member | corrected member |
|---|---|---|---|---|---|---|
| core/memory.py:87-89 | only `value > 255` is rejected, so negative values are stored | `write_byte(100, -1)` stores -1 | reject every value outside 0..255 with `ValueError` | high, not executed | `Memory.NegativeValueStoredAsWritten` | `Memory.Written` |
| core/display.py:18-19 | `bytes_str[j]` is a one-character string, always truthy, so any lit pixel in the 8-wide footprint counts as a collision | pixels (5,5) and (5,7) lit, sprite `[0x40]` drawn at (5,5) returns true | a collision only when a set bit turns a lit pixel off | high, not executed | `Display.ZeroBitOverLitPixel` | `Display.CollisionSetBitsOnly` |
| core/input_.py:20 | the inverse mapping is called like a function, which raises `TypeError`; `_key_states` calls `key_pressed` for its first key, so it raises too, and so does `wait_store_key` | `key_pressed(0)` with any keyboard state | look the key up in the mapping, raising `KeyError` for unmapped keys | high, not executed | `Input.KeyPressedAsWrittenAlwaysFails` | `Input.KeyPressed` |
| core/cpu.py:69-71 | a return with an empty stack decrements the stack pointer to -1 and reads the last stack slot | `return_from_subroutine()` with `sp == 0` | raise an error and leave the state unchanged | high, not executed | `Cpu.EmptyReturnAsWritten` | `Cpu.ReturnEffect` |
