# CHIP-8 engine core, modelled in Dafny

This project models the core of a CHIP-8 emulator written in Java. The core has two parts:

- The `Memory` class holds the engine: 4096 memory cells, the registers V0–VF, a call stack, the program counter, the index register I, the current opcode, a "screen needs redrawing" (dirty) flag and a delay timer. It loads a program image at 0x200, fetches big-endian instruction words and executes them.
- The `Screen` class holds a 64 × 32 grid of pixels, each 0 or 1. It can read a pixel, toggle it, and clear the grid.

The host's per-tick handler also has a model. It runs one fetch and one execute, then redraws and lowers the dirty flag if the flag is set.

The project has these modules:

- `Opcode` (opcode.dfy) holds the engine's constants and decodes an instruction word into its fields: family, x, y, n, kk, nnn.
- `Faults` (faults.dfy) turns the four runtime exceptions that fetch and execute can raise into values of the form `Err(fault)`: a `pc` past the end of memory, a pop from an empty stack, a sprite row past the end of memory, and a sprite cell off the grid.
- `Display` (screen.dfy) is the `Screen` class over an `array2<int>`. The grid is also viewed as the set of lit cells, and a toggle is a symmetric difference (`Flip`).
- `Sprite` (sprite.dfy) specifies the sprite instruction Dxyn. It follows the engine's two nested loops (`DrawRows`/`DrawCols`) and relates them to an independent description: the set of cells the sprite covers (`Hits`, `SpriteCells`).
- `MachineSpec` (machine.dfy) treats the whole engine state as one value `Machine` and defines `Fetch`, `Exec`, `LoadMem`, `TimerTick` and the host's `Tick` on that value.
- `Engine` (engine.dfy) is the `Memory` class, with its fields updated in place. Every method is proved to change the fields exactly as the matching function of `MachineSpec` says.
- `Driver` (driver.dfy) is the host's per-tick handler, written over the class.
- `Properties` (properties.dfy) holds lemmas about the specification functions.

The model follows the code as written, including its quirks:

- 00E0 clears the grid but does not raise the dirty flag.
- 5xy0 and 9xy0 add 2 to the stored `opcode`, not to `pc`, so they never skip an instruction.
- In 8xy5, 8xy6, 8xy7 and 8xyE, VF is written before Vx is computed, so the computation reads the new VF when x or y is F. 8xy4 takes the sum before either write.
- The delay timer goes down once every 17 calls of `updateDelayTimer` and never drops below 0.
- The sprite neither wraps around nor clips at the grid's edge. Dxy0 draws nothing, yet still clears VF and raises the dirty flag.
- Opcodes outside the handled families return 0 and change nothing. Unmatched selectors of the 8xyk family return 0x8000 and change nothing.

Where fetch or execute throws one of those four exceptions, the model returns `Err(fault)` and keeps the partial state the exception leaves behind. The accessors `getByte`, `getPixel` and `updatePixel` are modelled with preconditions instead (see "Left out").

- A `pc` past the end of memory stops `fetch` before anything changes.
- A return on an empty stack changes nothing.
- A sprite row past the end of memory, or a set bit outside the grid, stops the drawing. The cells toggled so far stay toggled, VF keeps the value written so far, and the dirty flag stays as it was.

An oversized image is a separate case. `loadProgram` with an image larger than 3584 bytes copies the bytes that fit and then throws. `LoadProgram` reports this as `false`.

The Java `int` fields never leave the ranges the invariant `WellFormed` states (bytes in 0..255, words in 0..0xFFFF, I and jump targets below 4096), so unbounded integers model them exactly. Masks followed by shifts are written as division and remainder, which agree with them on non-negative values. The operators `|`, `&` and `^` are written digit by digit over the binary digits (`Bitwise`), which is what they compute on non-negative values.

## Model

| member | source | states |
|---|---|---|
| Opcode.Unsigned | src/main/java/me/ryan/Memory.java:76 | `b & 0xFF` is a byte congruent to `b` modulo 256 |
| Opcode.UnsignedSigned | src/main/java/me/ryan/Memory.java:76 | masking a Java byte loses nothing: the signed and unsigned readings are inverse |
| Opcode.Word | src/main/java/me/ryan/Memory.java:94 | `hi << 8 \| lo` is a 16-bit word from which both bytes come back |
| Opcode.Instr | src/main/java/me/ryan/Memory.java:116 | `opcode & 0xF000` is a multiple of 0x1000 at most `opcode` and within 0x1000 of it |
| Opcode.Reassemble | src/main/java/me/ryan/Memory.java:374-379 | the family, x, y and n fields add back up to the word; kk and nnn are made of the same nibbles |
| Opcode.X | src/main/java/me/ryan/Memory.java:124 | `(opcode & 0x0F00) >> 8` is a register number 0..15 (also lines 153, 188, 232) |
| Opcode.Y | src/main/java/me/ryan/Memory.java:154 | `(opcode & 0x00F0) >> 4` is a register number 0..15 (also lines 211, 233) |
| Opcode.N | src/main/java/me/ryan/Memory.java:155 | `opcode & 0x000F` is a nibble 0..15, the sprite height or 8xyk selector |
| Opcode.KK | src/main/java/me/ryan/Memory.java:125 | `opcode & 0x00FF` is a byte (also lines 133, 189, 200) |
| Opcode.NNN | src/main/java/me/ryan/Memory.java:118 | `opcode & 0x0FFF` is an address inside memory (also lines 147, 181) |
| Opcode.BitwiseBounds | src/main/java/me/ryan/Memory.java:243-255 | digit-wise `\|`, `&`, `^` stay within the operands' width; `\|` is at least either operand and at most their sum, `&` at most either operand, `^` is 0 exactly for equal operands |
| Opcode.AndPower | src/main/java/me/ryan/Memory.java:162 | masking with a single power of two `2^k` keeps exactly binary digit k |
| Display.FlipTwice | src/main/java/me/ryan/Screen.java:79-81 | toggling the same cells twice restores the grid |
| Display.Screen.Lit | src/main/java/me/ryan/Screen.java:20 | the lit cells are on the 64 × 32 grid, and a cell is lit exactly when its pixel is 1 |
| Display.Screen.constructor | src/main/java/me/ryan/Screen.java:26-34 | a fresh 64 × 32 grid, all dark |
| Display.Screen.Clear | src/main/java/me/ryan/Screen.java:56-60 | a fresh grid with every pixel 0, so no cell is lit |
| Display.Screen.GetPixel | src/main/java/me/ryan/Screen.java:69-71 | the pixel is 0 or 1, and it is 1 exactly when the cell is lit |
| Display.Screen.UpdatePixel | src/main/java/me/ryan/Screen.java:79-81 | one pixel toggles and no other changes; the lit set becomes its symmetric difference with that cell |
| Sprite.DrawRows | src/main/java/me/ryan/Memory.java:158-174 | the sprite loops keep every lit cell on the grid and VF in {0, 1} |
| Sprite.DrawCols | src/main/java/me/ryan/Memory.java:161-173 | the inner bit loop keeps every lit cell on the grid and VF in {0, 1}; it stops only with a memory or grid fault |
| Sprite.BitMask | src/main/java/me/ryan/Memory.java:162 | the engine's test `(spriteData & (0x80 >>> xVal)) != 0` holds exactly when `Bit` does, i.e. when binary digit 7 − xVal of the row is 1 |
| Sprite.HitsStep | src/main/java/me/ryan/Memory.java:161-172 | bit `col` of a row contributes its own cell, if set, and no other |
| Sprite.DrawRowsEffect | src/main/java/me/ryan/Memory.java:158-174 | from any row, the loops finish exactly when the rest of the sprite fits; they toggle exactly its cells and set VF to 1 exactly on a collision |
| Sprite.DrawColsEffect | src/main/java/me/ryan/Memory.java:161-173 | the same, from any bit of a row |
| Sprite.DrawEffect | src/main/java/me/ryan/Memory.java:152-178 | Dxyn completes exactly when the sprite fits; the grid is then XORed with the sprite's cells and VF is 1 exactly when one of them was lit |
| MachineSpec.Initial | src/main/java/me/ryan/Memory.java:62-72 | memory and registers zeroed, empty stack, `pc` at 0x200, dirty flag down, timer and count at 0 |
| MachineSpec.LoadMem | src/main/java/me/ryan/Memory.java:74-78 | cell 0x200 + i holds `b[i] & 0xFF`; every other cell is unchanged |
| MachineSpec.Fetch | src/main/java/me/ryan/Memory.java:93-97 | succeeds exactly when `pc + 1` is inside memory; then `opcode` is the big-endian word at `pc`, `pc` grows by 2 and nothing else changes; otherwise nothing changes |
| MachineSpec.AddValue | src/main/java/me/ryan/Memory.java:131-144 | the overflow handler yields `(Vx + kk) mod 256` |
| MachineSpec.Or | src/main/java/me/ryan/Memory.java:243 | `Vx \| Vy` is a byte at least either operand and at most their sum |
| MachineSpec.And | src/main/java/me/ryan/Memory.java:249 | `Vx & Vy` is a byte at most either operand |
| MachineSpec.Xor | src/main/java/me/ryan/Memory.java:255 | `Vx ^ Vy` is a byte at most their sum, and 0 exactly when they are equal |
| MachineSpec.Logical | src/main/java/me/ryan/Memory.java:231-308 | the 8xyk update keeps every register a byte and changes no register but Vx and VF |
| MachineSpec.ExecDraw | src/main/java/me/ryan/Memory.java:152-178 | Dxyn changes only VF, the lit cells and the dirty flag; on completion it returns 0xD000 and raises the flag, on a fault the flag is unchanged and the fault is a memory or grid fault |
| MachineSpec.TimerTick | src/main/java/me/ryan/Memory.java:333-342 | the count advances modulo 17; when it wraps to 0 a positive timer drops by one (never below 0); nothing else changes |
| MachineSpec.Exec | src/main/java/me/ryan/Memory.java:102-312 | every instruction keeps the state well formed |
| MachineSpec.Tick | src/main/java/me/ryan/Chip8.java:37-45 | the per-tick handler keeps the state well formed |
| Engine.Memory.constructor | src/main/java/me/ryan/Memory.java:62-72 | the new engine's state is `Initial` over the screen's lit cells |
| Engine.Memory.LoadProgram | src/main/java/me/ryan/Memory.java:74-78 | memory becomes `LoadMem` of the image and nothing else changes; the result says whether the image fits |
| Engine.Memory.GetByte | src/main/java/me/ryan/Memory.java:83-85 | the cell's value, a byte |
| Engine.Memory.Fetch | src/main/java/me/ryan/Memory.java:93-97 | result and new state are `MachineSpec.Fetch` of the old state |
| Engine.Memory.Execute | src/main/java/me/ryan/Memory.java:102-312 | result and new state are `Exec` of the old state |
| Engine.Memory.ExecuteControl | src/main/java/me/ryan/Memory.java:117-121 | for jump, call and the four skips, result and new state are `Exec` of the old state (also lines 180-229) |
| Engine.Memory.ExecuteRegisters | src/main/java/me/ryan/Memory.java:123-150 | for 6xkk, 7xkk, Annn and 8xyk, result and new state are `Exec` of the old state (also lines 231-308) |
| Engine.Memory.LogicalInstr | src/main/java/me/ryan/Memory.java:231-308 | the register array becomes `Logical` of the old one |
| Engine.Memory.DrawSprite | src/main/java/me/ryan/Memory.java:152-178 | the nested loops leave exactly the state and result `ExecDraw` describes, fault or not |
| Engine.Memory.DrawRow | src/main/java/me/ryan/Memory.java:161-173 | one sprite row leaves the lit set and VF where the inner-loop specification `DrawCols` says, or stops at the first set bit off the grid; no register but VF changes |
| Engine.Memory.IsUpdateScreen | src/main/java/me/ryan/Memory.java:318-320 | the dirty flag |
| Engine.Memory.GetDelayTimer | src/main/java/me/ryan/Memory.java:326-328 | the delay timer, never negative |
| Engine.Memory.UpdateDelayTimer | src/main/java/me/ryan/Memory.java:333-342 | the new state is `TimerTick` of the old one |
| Engine.Memory.SetUpdateScreen | src/main/java/me/ryan/Memory.java:348-350 | only the dirty flag changes |
| Driver.Tick | src/main/java/me/ryan/Chip8.java:37-45 | result and new state are `MachineSpec.Tick` of the old state |
| Properties.FetchFrame | src/main/java/me/ryan/Memory.java:93-97 | fetch changes only `opcode` and `pc` |
| Properties.Jump | src/main/java/me/ryan/Memory.java:117-121 | 1nnn sets `pc` to nnn, an address inside memory, and changes nothing else |
| Properties.CallThenReturn | src/main/java/me/ryan/Memory.java:180-185 | a call pushes its return address and jumps; a return at the target restores `pc` and the stack (also lines 111-114) |
| Properties.ReturnOnEmptyStack | src/main/java/me/ryan/Memory.java:111-114 | 00EE on an empty stack faults and changes nothing |
| Properties.Call | src/main/java/me/ryan/Memory.java:180-185 | 2nnn pushes `pc` and jumps to nnn; nothing else changes |
| Properties.Return | src/main/java/me/ryan/Memory.java:111-114 | 00EE on a non-empty stack pops the top address into `pc`; nothing else changes |
| Properties.CallsPush | src/main/java/me/ryan/Memory.java:180-185 | a run of calls pushes each call's origin in order and ends at the last target |
| Properties.ReturnsPop | src/main/java/me/ryan/Memory.java:111-114 | k returns pop the top k entries, ending at the k-th one from the top |
| Properties.CallsThenReturns | src/main/java/me/ryan/Memory.java:111-114 | N calls then N returns restore the stack and `pc` (also lines 180-185) |
| Properties.SkipIfEqual | src/main/java/me/ryan/Memory.java:187-196 | a tick running 3xkk moves `pc` by 4 exactly when Vx = kk, by 2 otherwise; besides `pc` only `opcode` and the dirty flag (lowered) change |
| Properties.SkipIfNotEqual | src/main/java/me/ryan/Memory.java:198-207 | a tick running 4xkk moves `pc` by 4 exactly when Vx ≠ kk, by 2 otherwise; besides `pc` only `opcode` and the dirty flag (lowered) change |
| Properties.RegisterSkipsNeverSkip | src/main/java/me/ryan/Memory.java:209-229 | 5xy0 and 9xy0 move `pc` by 2 only and add 2 to `opcode` when their condition holds |
| Properties.TickAdvancesPc | src/main/java/me/ryan/Chip8.java:37-45 | a tick whose instruction is not a jump, call, return or immediate skip moves `pc` by exactly 2 |
| Properties.SetRegister | src/main/java/me/ryan/Memory.java:123-129 | 6xkk sets Vx to kk and changes nothing else |
| Properties.AddImmediate | src/main/java/me/ryan/Memory.java:131-144 | 7xkk sets Vx to `(Vx + kk) mod 256` without touching VF or anything else |
| Properties.SetIndex | src/main/java/me/ryan/Memory.java:146-150 | Annn sets I to nnn and changes nothing else |
| Properties.AddWithCarry | src/main/java/me/ryan/Memory.java:260-268 | for x ≠ F the new Vx plus 256 × carry is the full sum, and the carry is 1 exactly on overflow |
| Properties.SubtractWithBorrow | src/main/java/me/ryan/Memory.java:271-280 | for x, y ≠ F, VF is 1 exactly when Vx > Vy, and Vx becomes the difference mod 256 |
| Properties.ShiftRight | src/main/java/me/ryan/Memory.java:283-287 | for x ≠ F the old Vx is 2 × new Vx + VF |
| Properties.SubtractReversed | src/main/java/me/ryan/Memory.java:290-299 | for x, y ≠ F, VF is 1 exactly when Vy > Vx, and Vx becomes Vy − Vx mod 256 |
| Properties.ShiftLeft | src/main/java/me/ryan/Memory.java:301-305 | for x ≠ F, 2 × old Vx is new Vx + 256 × VF |
| Properties.FlagWrittenFirst | src/main/java/me/ryan/Memory.java:271-287 | with y = F, 8xF5 subtracts the new flag; 8Fy6 always leaves VF at 0 |
| Properties.LogicalUnmatched | src/main/java/me/ryan/Memory.java:307 | 8xyk with k in 8..D or F returns 0x8000 and changes nothing |
| Properties.LogicalStep | src/main/java/me/ryan/Memory.java:231-308 | 8xyk replaces the register file by `Logical` of it and changes nothing else |
| Properties.CopyAndBitwise | src/main/java/me/ryan/Memory.java:236-257 | 8xy0 to 8xy3 write Vy, Vx \| Vy, Vx & Vy or Vx ^ Vy into Vx and change no other register |
| Properties.XorSelfClears | src/main/java/me/ryan/Memory.java:254-257 | 8xx3 clears Vx |
| Properties.UnmatchedIsNoOp | src/main/java/me/ryan/Memory.java:310 | an opcode of no handled family returns 0 and changes nothing |
| Properties.ExecFrame | src/main/java/me/ryan/Memory.java:102-312 | no instruction writes memory, the delay timer or the cycle count |
| Properties.ClearScreen | src/main/java/me/ryan/Memory.java:105-109 | 00E0 darkens every cell and changes nothing else, the dirty flag included |
| Properties.DrawSprite | src/main/java/me/ryan/Memory.java:152-178 | Dxyn completes exactly when the sprite fits; then the grid is XORed with the sprite, VF reports a collision, the dirty flag is raised and nothing else changes |
| Properties.DrawTwiceRestores | src/main/java/me/ryan/Memory.java:152-178 | drawing the same sprite twice at the same place restores the grid |
| Properties.TimerHolds | src/main/java/me/ryan/Memory.java:333-342 | up to a count of 16 the timer holds and only the count grows |
| Properties.TimerPeriod | src/main/java/me/ryan/Memory.java:333-342 | from a count of 0, 16 calls leave the timer alone and the 17th lowers a positive timer by one and resets the count |
| Properties.TimerShift | src/main/java/me/ryan/Memory.java:333-342 | k + 1 calls are k calls followed by one more |
| Properties.DelayTimerStaysZero | src/main/java/me/ryan/Memory.java:326-342 | no operation raises the delay timer: at 0 it stays 0 |
| Properties.TickConsumesDirtyFlag | src/main/java/me/ryan/Chip8.java:41-44 | after a completed tick the dirty flag is down |
| Properties.LoadProgramContents | src/main/java/me/ryan/Memory.java:74-78 | each stored cell read back as a signed byte is the program byte; cells outside the image keep their values |
| Properties.ClearLoadDraw | src/main/java/me/ryan/Memory.java:105-178 | the program 00E0 600A A000 D001 with 0xFF at cell 0 lights exactly the cells (10..17, 10) with no collision |

## Left out

- The JavaFX window, the canvas rendering (`Screen.draw`, the graphics-context calls in the `Screen` constructor and in `clear`), the timeline that schedules the per-tick handler, and reading the ROM file from disk are not part of this model. `Driver.Tick` marks the redraw with a comment only.
- Chip8.java's `loadProgram` wrapper (stopping the timeline, clearing the screen, building a new `Memory`) is not part of this model. Only `Memory.loadProgram` is modelled.
- The constants the engine declares but never uses (`MAX_CYCLES`, the window size and `SCALE`) and the commented-out trace printing are left out.
- The instruction families the engine does not handle (0nnn apart from 00E0/00EE, Bnnn, Cxkk, Exxx, Fxxx) are modelled as the engine treats them: no-ops returning 0. Keys, the sound timer and the Fxxx timer loads do not exist in the source. Nothing sets the delay timer, so `DelayTimerStaysZero` is all the timer can show.
- Engine.Memory.LoadProgram: Java raises an array-bounds exception when the image does not fit. The model returns `false` after copying the bytes that fit, which is the memory that exception leaves.
- The four fetch and execute faults are modelled as `Err` results, not as control transfer. The state each one leaves is the one stated above.
- Engine.Memory.GetByte, Display.Screen.GetPixel, Display.Screen.UpdatePixel: Java throws an array-bounds exception for an index outside memory or a cell off the grid. The model leaves that out, because the precondition excludes the out-of-range index. The engine's own callers (`DrawRow`) check the grid bound first and report `PixelOutOfRange` themselves.
- Faults the types already rule out are not modelled: a register index is a nibble, so it is always in range.
- MachineSpec.Exec and MachineSpec.Tick: their own contracts state only that the state stays well formed. Lemmas in `Properties` give the whole result of every instruction family:
  - `ClearScreen`, `Return` and `ReturnOnEmptyStack` cover the two full-word instructions.
  - `Jump`, `Call`, `SetRegister`, `AddImmediate` and `SetIndex` cover 1nnn, 2nnn, 6xkk, 7xkk and Annn.
  - `LogicalStep` and `LogicalUnmatched` cover 8xyk, with the effect of each selector in the ALU lemmas.
  - `DrawSprite` covers Dxyn that completes, and `ExecDraw` covers one that faults.
  - `UnmatchedIsNoOp` covers the families without a case.
  - `SkipIfEqual`, `SkipIfNotEqual` and `RegisterSkipsNeverSkip` give the whole tick for the four skips.
  - For a tick, `TickAdvancesPc` and `TickConsumesDirtyFlag` add the effect of the host's handler.
