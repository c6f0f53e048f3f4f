# CHIP-8 interpreter core in Dafny

This project models the core of a CHIP-8 interpreter written in C++. It covers:

- the machine state `chip8_t` (keypad, framebuffer, 4 KiB memory, registers V0..VF, I, pc, timers, call stack, sp, current opcode);
- `make_chip8`, `init` and `load_fonset`;
- `load_program` and `load_rom`;
- `fetch`, and the two-level dispatch through `dispatch_table` and `table0`/`table8`/`tableE`/`tableF`;
- all 34 handlers and `op_null`;
- `cycle` (`run_cycle` in `src/chip8.cpp`).

It also models the two handlers of `src/opcodes.cpp` whose bodies differ from the dispatching interpreter.

The project has three layers:

- **Values.** `Bits` holds `uint8_t`/`uint16_t` as bounded newtypes, with explicit wrap-around.
  - `Opcode` holds the field extractors `make_vx`/`make_vy`/`make_kk`/`make_nnn` and an instruction datatype `Op`.
  - `Opcode.Decode` is the dispatch tables after `init_dispatch_table`, written as a function.
  - `Sprite` holds the `op_Dxyn` row and column loops as functions. It also gives a closed form of their effect.
- **Specification.** `MachineSpec` holds `chip8_t` as a datatype.
  - It has one function per handler and `Exec` for the dispatch.
  - It also has `Cycle`, `Init`/`PowerOn`, `LoadFontset`, `LoadProgram` and `CheckRom`/`LoadRom`.
  - `Properties` proves how these operations relate: inverse pairs, complementary skips, subroutine round trips, the boot image, busy-waiting, timer decay over a run, and double draws.
- **Imperative.** `Machine.Chip8` is `chip8_t` as a class whose fixed arrays are updated in place.
  - It has one method per handler, in the source's statement order.
  - Dispatch methods follow `decode_and_execute` → `opcodes_X` → table slot.
  - Each method is proved to move `Snapshot()` exactly as `MachineSpec` says.

C++ undefined behaviour becomes a precondition. The C++ code does not guard against any of these cases:

- `Return` needs `0 < sp <= 16`; `Call` needs `sp < 16`.
- `Fetch` needs `pc + 1 < 4096`.
- Memory must hold `I + n − 1` for Dxyn, `I + 2` for Fx33 and `I + x` for Fx55/Fx65.
- Every framebuffer index Dxyn computes must be below 2048 (`Sprite.Fits`).
- `Vx < 16` for Ex9E/ExA1.
- The selector must be inside its table (`Opcode.SelectorInTable`): a low nibble of 0xF indexes past the 15-entry `table0`/`table8`/`tableE`, and a low byte above 0x65 indexes past `tableF`.

`MachineSpec.Defined` collects these.

`MAX_ROM_SIZE` is `MAX_MEMORY - 0x200` = 0xFFF − 0x200 = 3583 (`src/refactor.cpp:36-37`). That is one byte less than the 3584 bytes from 0x200 to the end of memory. The model keeps 3583, so a 3584-byte image is rejected as too large.

`src/chip8.cpp` repeats the bodies of `make_chip8`, `init`, `load_fonset`, `load_rom`, `fetch`, `load_program` and (as `run_cycle`) `cycle`. They are modelled once. The rows for `Machine.Chip8`'s constructor, `Init`, `LoadFontset`, `LoadProgram`, `LoadRom`, `Fetch` and `Cycle` cite that file. The corresponding `MachineSpec` rows cite `src/refactor.cpp`.

`src/opcodes.cpp` has the same bodies as `src/refactor.cpp` for 00EE, 1nnn, 2nnn, 3xkk, 4xkk, 5xy0, 6xkk, 7xkk, 8xy1, 8xy2, 8xy3, 8xy4 and 8xy5 (`src/opcodes.cpp:18-184`), so `Machine.Chip8` models those too. Its 00E0 and 8xy6 differ; see Findings.

## Model

| member | source | states |
|---|---|---|
| Opcode.Family | src/refactor.cpp:652-656 | the index `(opcode & 0xF000) >> 12` into `dispatch_table`; its properties are stated by `FieldsRecompose` and `FieldsOfWord` |
| Opcode.X | src/refactor.cpp:115-117 | `make_vx`, bits 8..11 of the word; stated by `FieldsRecompose` and `FieldsOfWord` |
| Opcode.Y | src/refactor.cpp:119-121 | `make_vy`, bits 4..7 of the word; stated by `FieldsRecompose` and `FieldsOfWord` |
| Opcode.N | src/refactor.cpp:530-546 | the low nibble, the index into `table0`, `table8` and `tableE` and the sprite height; stated by `FieldsRecompose` and `FieldsOfWord` |
| Opcode.KK | src/refactor.cpp:123-125 | `make_kk`, the low byte and the index into `tableF`; stated by `FieldsRecompose` and `FieldsOfWord` |
| Opcode.NNN | src/refactor.cpp:127-129 | `make_nnn`, the low 12 bits; stated by `FieldsRecompose` and `FieldsOfWord` |
| Opcode.FieldsRecompose | src/refactor.cpp:115-129 | the four nibbles of a word give the word back, and kk and nnn are the low byte and the low 12 bits |
| Opcode.FieldsOfWord | src/refactor.cpp:115-129 | each extractor reads back exactly the field a word was built from |
| Opcode.Decode | src/refactor.cpp:558-612 | a word decodes to `op_null` exactly when its selector is not registered, the operands are the word's fields, and the family is the top nibble |
| Opcode.DecodeBySelector | src/refactor.cpp:524-552 | a registered word reaches the handler whose canonical word has the same family and the same secondary-table index (low nibble for 0, 8, E; low byte for F), so the fields the tables ignore play no part |
| Opcode.IgnoredFields | src/refactor.cpp:558-612 | every 0nn0 is 00E0 and every 0nnE is 00EE; 8xy6 and 8xyE shift Vx whatever y is; ExyE and Exy1 test key Vx whatever y is |
| Opcode.DecodeEncode | src/refactor.cpp:558-612 | every instruction has a word inside the tables that dispatch routes back to it |
| Sprite.DrawPixel | src/refactor.cpp:340-355 | one inner-loop step; its effect is stated by `DrawColsEffect` |
| Sprite.DrawCols | src/refactor.cpp:337-356 | the inner loop from a column on; its effect is stated by `DrawColsEffect` |
| Sprite.DrawRows | src/refactor.cpp:334-357 | the outer loop from a row on; its effect is stated by `DrawRowsEffect` |
| Sprite.Draw | src/refactor.cpp:323-358 | after the row and column loops, exactly the cells under a set sprite bit are inverted, and the collision flag is set iff one of them was lit |
| Sprite.DrawColsEffect | src/refactor.cpp:337-356 | the column loop inverts the cells of the set bits of one row and reports a collision on a lit one |
| Sprite.DrawRowsEffect | src/refactor.cpp:334-357 | the row loop from any row on has the closed-form effect of the remaining rows |
| Sprite.DrawTwiceRestores | src/refactor.cpp:348-355 | drawing the same sprite twice leaves the framebuffer as it was |
| Sprite.SecondDrawCollision | src/refactor.cpp:345-352 | the second of two equal draws collides iff some covered cell was unlit before the first |
| Sprite.DrawTwiceOnClearedScreen | src/refactor.cpp:323-358 | on a blank screen a sprite with a set bit does not collide, its second draw does, and the screen is blank again |
| MachineSpec.Skip | src/refactor.cpp:158-183 | the shared `pc += 2` of the skip handlers: only pc changes, it changes iff the condition holds, and then by 2 mod 65536 |
| MachineSpec.Defined | src/refactor.cpp:137-522 | the conditions under which a handler stays inside its arrays (stack, memory, framebuffer, keypad); no contract of its own, it is the precondition of `Exec` |
| MachineSpec.ClearScreen | src/refactor.cpp:132-135 | every framebuffer cell is 0 and no other field changes |
| MachineSpec.Return | src/refactor.cpp:137-141 | sp goes down by one and pc is the stack entry at the new sp; nothing else changes |
| MachineSpec.Call | src/refactor.cpp:149-156 | the old pc is stored at stack[sp], sp goes up by one, pc is nnn; nothing else changes |
| MachineSpec.AddWithCarry | src/refactor.cpp:233-246 | Vx is the sum mod 256, VF is the carry unless x is F, all other registers are kept |
| MachineSpec.SubWithBorrow | src/refactor.cpp:248-259 | VF is Vx > Vy from the old values, and the subtraction reads the flag when x or y is F |
| MachineSpec.SubReverse | src/refactor.cpp:269-280 | VF is Vy > Vx from the old values, Vx is Vy − Vx mod 256 with the same flag-first reading |
| MachineSpec.ShiftRight | src/refactor.cpp:261-267 | nothing is lost: old Vx = 2·new Vx + VF with VF a bit; with x = F the result is 0 |
| MachineSpec.ShiftLeft | src/refactor.cpp:282-289 | nothing is lost: old Vx = new Vx / 2 + 128·VF, new Vx even; with x = F the result is 2·(old top bit) |
| MachineSpec.DrawSprite | src/refactor.cpp:323-358 | only the framebuffer and VF change, and VF is 0 or 1 |
| MachineSpec.DrawSpriteEffect | src/refactor.cpp:323-358 | exactly the cells under set bits of the `n` rows at I, placed at (Vx mod 64, Vy mod 32), are XORed with all ones, and VF is 1 iff one of them was lit |
| MachineSpec.DrawSpriteRows | src/refactor.cpp:330-357 | `op_Dxyn` is the row loop from row 0 with VF cleared first |
| MachineSpec.FirstPressed | src/refactor.cpp:389-452 | the result is the lowest pressed key at or after k, or none iff no key from k on is pressed |
| MachineSpec.WaitKey | src/refactor.cpp:385-457 | with no key down only pc moves back by 2; otherwise Vx is the lowest key down and nothing else changes |
| MachineSpec.StoreBcd | src/refactor.cpp:487-502 | the three bytes at I are decimal digits whose value is Vx; no other byte changes |
| MachineSpec.StoreRegisters | src/refactor.cpp:504-512 | memory[I + i] = Vi for i ≤ x and every other byte is kept |
| MachineSpec.StoredRegisters | src/refactor.cpp:504-512 | a memory with V0..Vx at I and the old bytes elsewhere is the one Fx55 leaves |
| MachineSpec.LoadRegisters | src/refactor.cpp:514-522 | Vi = memory[I + i] for i ≤ x and every other register is kept |
| MachineSpec.Exec | src/refactor.cpp:132-522 | no handler changes the opcode, the keypad or the array sizes; only Fx15 sets the delay timer and only Fx18 the sound timer; only jumps, call, return, skips and Fx0A move pc |
| MachineSpec.Fetch | src/refactor.cpp:647-650 | the high byte of the word is memory[pc] and the low byte memory[pc + 1] |
| MachineSpec.WordAt | src/refactor.cpp:649 | the big-endian word at an address: its high byte is memory[a] and its low byte memory[a + 1] |
| MachineSpec.CountDown | src/refactor.cpp:669-675 | a timer drops by one when positive and stays at 0 otherwise |
| MachineSpec.Advance | src/refactor.cpp:660-664 | the opcode is the fetched word and pc has moved by 2 |
| MachineSpec.Cycle | src/refactor.cpp:658-676 | the state holds the word fetched at the old pc; each timer counts down once per cycle from its old value, or from Vx after Fx15/Fx18; pc moves by 2 for every instruction that does not set pc itself; a call stores the address after the call |
| MachineSpec.LoadFontset | src/refactor.cpp:62-84 | bytes 0x50..0x9F hold the glyphs and every other byte is kept |
| MachineSpec.Init | src/refactor.cpp:87-106 | glyphs at 0x50, every other byte, register and stack slot 0, pc 0x200, scalars 0, video and keypad untouched |
| MachineSpec.PowerOn | src/refactor.cpp:108-113 | the initial state is fixed by `init`, with a dark screen and no key down |
| MachineSpec.LoadProgram | src/refactor.cpp:631-633 | the image sits at 0x200 and every byte outside it is kept |
| MachineSpec.CheckRom | src/refactor.cpp:638-642 | too large iff over 3583 bytes, empty iff 0 bytes, and an accepted image fits from 0x200 |
| MachineSpec.LoadRom | src/refactor.cpp:635-645 | an accepted image is loaded and only memory changes; a rejected one changes nothing |
| Properties.AddThenSubRestores | src/refactor.cpp:233-259 | 8xy5 after 8xy4 on the same registers gives Vx back |
| Properties.ShiftLeftAfterShiftRight | src/refactor.cpp:261-289 | 8xyE after 8xy6 gives Vx with its low bit cleared and VF = 0 |
| Properties.SkipOpposite | src/refactor.cpp:158-183 | skipping on a condition and on its negation: exactly one advances pc, the other changes nothing |
| Properties.SkipImmComplementary | src/refactor.cpp:158-174 | exactly one of 3xkk and 4xkk skips |
| Properties.SkipRegComplementary | src/refactor.cpp:176-183 | exactly one of 5xy0 and 9xy0 skips |
| Properties.SkipKeyComplementary | src/refactor.cpp:360-376 | exactly one of Ex9E and ExA1 skips |
| Properties.SkipEqImmCycle | src/refactor.cpp:658-676 | a cycle on 3xkk moves pc by 4 when Vx = kk and by 2 otherwise |
| Properties.CallThenReturn | src/refactor.cpp:137-156 | 00EE after 2nnn restores pc and sp; only the written stack slot differs |
| Properties.CallReturnCycles | src/refactor.cpp:658-676 | a call cycle then a return cycle resumes after the call with registers, memory and screen untouched |
| Properties.StoreThenLoadRegisters | src/refactor.cpp:504-522 | Fx65 after Fx55 changes nothing more |
| Properties.LoadThenStoreRegisters | src/refactor.cpp:504-522 | Fx55 after Fx65 changes nothing more |
| Properties.LoadProgramIdempotent | src/refactor.cpp:631-633 | loading an image twice equals loading it once |
| Properties.InitIdempotent | src/refactor.cpp:87-106 | `init` twice equals `init` once |
| Properties.BootImage | src/refactor.cpp:108-113 | after power-on and an accepted load, glyphs and image are in place, the rest is zero and the first fetch reads the image's first two bytes |
| Properties.GlyphLocatesDigit | src/refactor.cpp:479-485 | with glyphs loaded, Fx29 points I at the five glyph rows of digit Vx |
| Properties.PowerOnHasFont | src/refactor.cpp:87-113 | the power-on memory holds the glyphs at 0x50 |
| Properties.NullCycle | src/refactor.cpp:554-555 | an unregistered selector only records the opcode, advances pc and counts the timers down |
| Properties.WaitKeyBusyWaits | src/refactor.cpp:453-456 | Fx0A with no key down ends the cycle at the same pc, so it is fetched again |
| Properties.WaitKeyProceeds | src/refactor.cpp:389-452 | Fx0A with a key down stores the lowest key down and moves on |
| Properties.Run | src/refactor.cpp:658-676 | repeated cycles yield a valid state whenever each cycle is defined |
| Properties.RunAppend | src/refactor.cpp:658-676 | running a then b equals running a and then b from where a stopped, and a run that stopped stays stopped |
| Properties.NullRun | src/refactor.cpp:669-675 | n null cycles move pc by 2n and bring each timer to max(0, t − n), changing nothing else |
| Properties.DrawTwiceRestoresScreen | src/refactor.cpp:323-358 | Dxyn twice restores the screen, and the second VF is 1 iff a covered cell was dark |
| Properties.ClearThenDrawTwice | src/refactor.cpp:132-135 | after 00E0 a sprite draws without collision, again with one, and the screen is clear |
| Machine.Chip8.constructor | src/chip8.cpp:8-12 | the new object is the power-on state |
| Machine.Chip8.Init | src/chip8.cpp:14-32 | the three memsets, resets and glyph copy give `MachineSpec.Init` |
| Machine.Chip8.LoadFontset | src/chip8.cpp:34-55 | memory becomes `MachineSpec.LoadFontset` of the old memory |
| Machine.Chip8.LoadProgram | src/chip8.cpp:114-116 | memory becomes `MachineSpec.LoadProgram` of the old memory |
| Machine.Chip8.LoadRom | src/chip8.cpp:60-69 | the error is `CheckRom` of the image and the state is `MachineSpec.LoadRom` |
| Machine.Chip8.Fetch | src/chip8.cpp:85-88 | the word is `MachineSpec.WordAt` of the memory at pc: its high byte is memory[pc] and its low byte memory[pc + 1] |
| Machine.Chip8.Cycle | src/chip8.cpp:74-83 | the object moves from s to `MachineSpec.Cycle(s, random)` |
| Machine.Chip8.DecodeAndExecute | src/refactor.cpp:652-656 | the object moves by `Exec` of the decoded current opcode |
| Machine.Chip8.Opcodes0 | src/refactor.cpp:530-534 | table0 dispatch equals `Exec` of the decoded opcode |
| Machine.Chip8.Opcodes8 | src/refactor.cpp:536-540 | table8 dispatch equals `Exec` of the decoded opcode |
| Machine.Chip8.OpcodesE | src/refactor.cpp:542-546 | tableE dispatch equals `Exec` of the decoded opcode |
| Machine.Chip8.OpcodesF | src/refactor.cpp:548-552 | tableF dispatch equals `Exec` of the decoded opcode |
| Machine.Chip8.Op00E0 | src/refactor.cpp:132-135 | the object moves by `MachineSpec.ClearScreen` |
| Machine.Chip8.Op00EE | src/refactor.cpp:137-141 | the object moves by `MachineSpec.Return` |
| Machine.Chip8.Op1nnn | src/refactor.cpp:143-147 | pc becomes nnn and nothing else changes |
| Machine.Chip8.Op2nnn | src/refactor.cpp:149-156 | the object moves by `MachineSpec.Call` |
| Machine.Chip8.Op3xkk | src/refactor.cpp:158-165 | pc advances by 2 iff Vx = kk |
| Machine.Chip8.Op4xkk | src/refactor.cpp:167-174 | pc advances by 2 iff Vx ≠ kk |
| Machine.Chip8.Op5xy0 | src/refactor.cpp:176-183 | pc advances by 2 iff Vx = Vy |
| Machine.Chip8.Op6xkk | src/refactor.cpp:185-191 | Vx becomes kk |
| Machine.Chip8.Op7xkk | src/refactor.cpp:193-199 | Vx becomes Vx + kk mod 256, VF untouched unless x is F |
| Machine.Chip8.Op8xy0 | src/refactor.cpp:201-207 | Vx becomes Vy |
| Machine.Chip8.Op8xy1 | src/refactor.cpp:209-215 | Vx becomes Vx OR Vy |
| Machine.Chip8.Op8xy2 | src/refactor.cpp:217-223 | Vx becomes Vx AND Vy |
| Machine.Chip8.Op8xy3 | src/refactor.cpp:225-231 | Vx becomes Vx XOR Vy |
| Machine.Chip8.Op8xy4 | src/refactor.cpp:233-246 | the object moves by `MachineSpec.AddWithCarry` |
| Machine.Chip8.Op8xy5 | src/refactor.cpp:248-259 | the object moves by `MachineSpec.SubWithBorrow` |
| Machine.Chip8.Op8xy6 | src/refactor.cpp:261-267 | the object moves by `MachineSpec.ShiftRight` |
| Machine.Chip8.Op8xy7 | src/refactor.cpp:269-280 | the object moves by `MachineSpec.SubReverse` |
| Machine.Chip8.Op8xyE | src/refactor.cpp:282-289 | the object moves by `MachineSpec.ShiftLeft` |
| Machine.Chip8.Op9xy0 | src/refactor.cpp:291-298 | pc advances by 2 iff Vx ≠ Vy |
| Machine.Chip8.OpAnnn | src/refactor.cpp:300-304 | I becomes nnn |
| Machine.Chip8.OpBnnn | src/refactor.cpp:306-310 | pc becomes V0 + nnn, without wrapping |
| Machine.Chip8.OpCxkk | src/refactor.cpp:312-321 | Vx becomes the given random byte AND kk |
| Machine.Chip8.OpDxyn | src/refactor.cpp:323-358 | the origin is read before VF is cleared, and the loops move the object by `MachineSpec.DrawSprite` |
| Machine.Chip8.DrawRows | src/refactor.cpp:334-357 | the row loop produces `Sprite.DrawRows` of the screen and flag it started from, leaving V0..VE alone |
| Machine.Chip8.DrawRow | src/refactor.cpp:337-356 | the column loop produces `Sprite.DrawCols` of the screen and flag it started from |
| Machine.Chip8.OpEx9E | src/refactor.cpp:360-367 | pc advances by 2 iff key Vx is down |
| Machine.Chip8.OpExA1 | src/refactor.cpp:369-376 | pc advances by 2 iff key Vx is up |
| Machine.Chip8.OpFx07 | src/refactor.cpp:378-383 | Vx becomes the delay timer |
| Machine.Chip8.OpFx0A | src/refactor.cpp:385-457 | the object moves by `MachineSpec.WaitKey` |
| Machine.Chip8.OpFx15 | src/refactor.cpp:459-464 | the delay timer becomes Vx |
| Machine.Chip8.OpFx18 | src/refactor.cpp:466-471 | the sound timer becomes Vx |
| Machine.Chip8.OpFx1E | src/refactor.cpp:473-477 | I becomes I + Vx mod 65536 |
| Machine.Chip8.OpFx29 | src/refactor.cpp:479-485 | I becomes 0x50 + 5·Vx |
| Machine.Chip8.OpFx33 | src/refactor.cpp:487-502 | the object moves by `MachineSpec.StoreBcd` |
| Machine.Chip8.OpFx55 | src/refactor.cpp:504-512 | the loop moves the object by `MachineSpec.StoreRegisters` |
| Machine.Chip8.OpFx65 | src/refactor.cpp:514-522 | the loop moves the object by `MachineSpec.LoadRegisters` |
| Drafts.ClearScreenAsWritten | src/opcodes.cpp:9-11 | only the first 512 cells become 0; the rest are kept |
| Drafts.Op00E0AsWritten | src/opcodes.cpp:9-11 | the memset on the object gives `ClearScreenAsWritten` |
| Drafts.ClearScreenAsWrittenKeepsPixels | src/opcodes.cpp:9-11 | a lit cell at 512 or beyond stays lit, where the intended clear darkens it |
| Drafts.ShiftRightAsWritten | src/opcodes.cpp:193-203 | the state is exactly what 8xy5 (`MachineSpec.SubWithBorrow`) gives: Vx becomes Vx − Vy mod 256 with VF = Vx > Vy |
| Drafts.Op8xy6AsWritten | src/opcodes.cpp:193-203 | the body on the object gives `ShiftRightAsWritten` |
| Drafts.ShiftRightAsWrittenDoesNotShift | src/opcodes.cpp:193-203 | with Vy = 0 and Vx > 1, Vx is kept and VF = 1, where the shift makes Vx smaller |
| Drafts.ShiftRightAsWrittenExample | src/opcodes.cpp:186-203 | for 0x8016 with V0 = 2, V1 = 0: as written V0 = 2, VF = 1; intended V0 = 1, VF = 0 |

## Left out

- `read_program` (`src/refactor.cpp:614-629`) is file I/O. `LoadRom` takes the bytes it would return; a missing file returns no bytes and is then rejected as empty.
- The random engine of `op_Cxkk` (a `std::default_random_engine` seeded from the clock) is not modelled. Its byte is the `random` parameter of `Exec`, `Cycle` and `Machine.Chip8.OpCxkk`.
- `init_dispatch_table` and the global handler tables are not state in this model. `Opcode.Decode` is their contents after `init_dispatch_table` has run. The model assumes it ran before the first cycle.
- Calling a null function pointer (dispatch before `init_dispatch_table`) is not modelled.
- `init(nullptr)` returning `nullptr` is not modelled, because a Dafny object reference is never null.
- `main`, the viewer, the platform layer, sound, and writing the keypad from input are not part of this model. The keypad is state that only the environment changes.
- `src/initialize.cpp`, `include/chip8.h` and `make_dispatcher` in `src/chip8.cpp` are not part of this model. `src/chip8.cpp`'s `decode_and_execute` goes through `make_dispatcher`, which is modelled by the same `Decode`.
- `src/opcodes.cpp` has no `op_8xy0` and stops at 8xy6; the other handlers are only in `src/refactor.cpp`.
- MachineSpec.ShiftRight: `& 0x1` and `>>= 1` on `uint8_t` are written as `% 2` and `/ 2`. Likewise `MachineSpec.ShiftLeft` writes `(& 0x80) >> 7` and `<<= 1` as `/ 0x80` and `* 2` mod 256. These are equal on bytes.
- Machine.Chip8.OpFx0A: the sixteen-way `if`/`else if` chain over keys 0..15 is the recursive search `MachineSpec.FirstPressed` over the same keys in the same order. It is not an unrolled chain.
- Undefined behaviour is left out as preconditions, as listed above. Examples are a stack overflow or underflow, reads or writes past memory, the framebuffer or the keypad, and selectors past the tables.

## Findings

| source | as written | input that shows it | evidently intended | confidence | as-written member | corrected member |
|---|---|---|---|---|---|---|
| src/opcodes.cpp:9-11 | `memset(video.data(), 0, video.size())` passes the element count as a byte count, clearing 512 of 2048 four-byte cells | cell 512 lit before 00E0 stays lit | every cell cleared, as at `src/refactor.cpp:132-135` | high; not executed | Drafts.ClearScreenAsWrittenKeepsPixels | MachineSpec.ClearScreen |
| src/opcodes.cpp:193-203 | `op_8xy6` has the body of `op_8xy5`: Vx −= Vy with VF = Vx > Vy | opcode 0x8016 with V0 = 2, V1 = 0 leaves V0 = 2, VF = 1 | VF = Vx & 1 then Vx >>= 1 (V0 = 1, VF = 0), as at `src/refactor.cpp:261-267` | high; not executed | Drafts.ShiftRightAsWrittenExample | MachineSpec.ShiftRight |
