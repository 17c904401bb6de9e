/**
  Properties of the engine's operations, stated over the specification
  functions of module MachineSpec (which the `Memory` methods are proved to
  follow).
*/
module Properties {
  import opened Opcode
  import opened Faults
  import opened Display
  import opened Sprite
  import opened MachineSpec

  /** The word the next fetch reads, for a `pc` inside memory. */
  ghost function NextWord(m: Machine): int
    requires WellFormed(m) && m.pc + 1 < MEM_SIZE
  {
    Word(m.mem[m.pc], m.mem[m.pc + 1])
  }

  // ---------------------------------------------------------------- fetch

  /** Fetch changes `opcode` and `pc` only; nothing else. */
  lemma FetchFrame(m: Machine)
    requires WellFormed(m)
    ensures var m' := Fetch(m).after;
      m'.mem == m.mem && m'.v == m.v && m'.stack == m.stack && m'.index == m.index &&
      m'.updateScreen == m.updateScreen && m'.lit == m.lit &&
      m'.delayTimer == m.delayTimer && m'.cycleCount == m.cycleCount
  {
  }

  // ------------------------------------------------------- control flow

  /** 1nnn: `pc := nnn`, and nothing else changes. */
  lemma Jump(m: Machine)
    requires WellFormed(m) && Instr(m.opcode) == JUMP
    ensures Exec(m) == Outcome(Ok(JUMP), m.(pc := NNN(m.opcode)))
    ensures Exec(m).after.pc < MEM_SIZE
  {
  }

  /**
    2nnn then 00EE: a call pushes the address of the instruction after it
    and jumps; when the subroutine's first instruction is a return, the next
    tick comes back with `pc` and the stack exactly as they were.
  */
  lemma CallThenReturn(m: Machine)
    requires WellFormed(m) && Instr(m.opcode) == SUBROUTINE_JUMP
    requires var a := NNN(m.opcode); a + 1 < MEM_SIZE && m.mem[a] == 0 && m.mem[a + 1] == SUBROUTINE_RESTORE
    ensures var m1 := Exec(m).after;
      && m1.stack == m.stack + [m.pc] && m1.pc == NNN(m.opcode)
      && Tick(m1).status == Ok(SUBROUTINE_RESTORE)
      && Tick(m1).after.pc == m.pc && Tick(m1).after.stack == m.stack
  {
    var m1 := Exec(m).after;
    var f := Fetch(m1);
    assert f.after.opcode == SUBROUTINE_RESTORE by {
      assert f.after.opcode / 256 == 0 && f.after.opcode % 256 == SUBROUTINE_RESTORE;
    }
    assert (m.stack + [m.pc])[..|m.stack|] == m.stack;
  }

  /** 2nnn: push `pc` (the address after the call) and jump to nnn; nothing else changes. */
  lemma Call(m: Machine)
    requires WellFormed(m) && Instr(m.opcode) == SUBROUTINE_JUMP
    ensures Exec(m) == Outcome(Ok(SUBROUTINE_JUMP), m.(stack := m.stack + [m.pc], pc := NNN(m.opcode)))
  {
  }

  /** 00EE on a non-empty stack: pop the top address into `pc`; nothing else changes. */
  lemma Return(m: Machine)
    requires WellFormed(m) && m.opcode == SUBROUTINE_RESTORE && m.stack != []
    ensures Exec(m) == Outcome(Ok(SUBROUTINE_RESTORE), m.(pc := m.stack[|m.stack| - 1], stack := m.stack[..|m.stack| - 1]))
  {
  }

  /** 00EE on an empty stack is a fault and changes nothing. */
  lemma ReturnOnEmptyStack(m: Machine)
    requires WellFormed(m) && m.opcode == SUBROUTINE_RESTORE && m.stack == []
    ensures Exec(m) == Outcome(Err(StackUnderflow), m)
  {
  }

  predicate Addresses(ts: seq<int>) {
    forall i :: 0 <= i < |ts| ==> 0 <= ts[i] < 0x1000
  }

  /** Executes the calls 2t for each t of `ts` in turn. */
  ghost function Calls(m: Machine, ts: seq<int>): (r: Machine)
    requires WellFormed(m) && Addresses(ts)
    ensures WellFormed(r)
    decreases |ts|
  {
    if ts == [] then m
    else Calls(Exec(m.(opcode := SUBROUTINE_JUMP + ts[0])).after, ts[1..])
  }

  /** Executes 00EE `k` times. */
  ghost function Returns(m: Machine, k: nat): (r: Machine)
    requires WellFormed(m)
    ensures WellFormed(r)
    decreases k
  {
    if k == 0 then m
    else Returns(Exec(m.(opcode := SUBROUTINE_RESTORE)).after, k - 1)
  }

  /** Each call pushes the `pc` it was made from: the stack grows by those addresses. */
  lemma {:induction false} CallsPush(m: Machine, ts: seq<int>)
    requires WellFormed(m) && Addresses(ts) && |ts| > 0
    ensures Calls(m, ts).stack == m.stack + [m.pc] + ts[..|ts| - 1]
    ensures Calls(m, ts).pc == ts[|ts| - 1]
    decreases |ts|
  {
    var m1 := Exec(m.(opcode := SUBROUTINE_JUMP + ts[0])).after;
    assert Instr(SUBROUTINE_JUMP + ts[0]) == SUBROUTINE_JUMP;
    assert m1.stack == m.stack + [m.pc] && m1.pc == ts[0];
    if |ts| > 1 {
      var rest := ts[1..];
      CallsPush(m1, rest);
      assert rest[..|rest| - 1] == ts[1..|ts| - 1];
      assert ts[..|ts| - 1] == [ts[0]] + ts[1..|ts| - 1];
    }
  }

  /** Each return pops the top of the stack into `pc`. */
  lemma {:induction false} ReturnsPop(m: Machine, k: nat)
    requires WellFormed(m) && k <= |m.stack|
    ensures Returns(m, k).stack == m.stack[..|m.stack| - k]
    ensures k > 0 ==> Returns(m, k).pc == m.stack[|m.stack| - k]
    decreases k
  {
    if k > 0 {
      var m1 := Exec(m.(opcode := SUBROUTINE_RESTORE)).after;
      assert m1.stack == m.stack[..|m.stack| - 1] && m1.pc == m.stack[|m.stack| - 1];
      ReturnsPop(m1, k - 1);
      assert m1.stack[..|m1.stack| - (k - 1)] == m.stack[..|m.stack| - k];
    }
  }

  /**
    N calls followed by N returns leave the stack as it was and `pc` at the
    instruction after the first call.
  */
  lemma CallsThenReturns(m: Machine, ts: seq<int>)
    requires WellFormed(m) && Addresses(ts)
    ensures Returns(Calls(m, ts), |ts|).stack == m.stack
    ensures Returns(Calls(m, ts), |ts|).pc == m.pc
  {
    if ts != [] {
      CallsPush(m, ts);
      var c := Calls(m, ts);
      ReturnsPop(c, |ts|);
      assert c.stack[..|c.stack| - |ts|] == m.stack;
      assert c.stack[|c.stack| - |ts|] == m.pc;
    }
  }

  /**
    3xkk and 4xkk: the tick that runs the skip moves `pc` past the skipped
    instruction (by four) exactly when the condition holds, and to the next
    instruction (by two) otherwise. Besides `pc` only `opcode` changes, and
    the dirty flag, which the host lowers.
  */
  lemma SkipIfEqual(m: Machine)
    requires WellFormed(m) && m.pc + 1 < MEM_SIZE && Instr(NextWord(m)) == SKIP_IF_VX
    ensures var op := NextWord(m);
      Tick(m).after.pc == if m.v[X(op)] == KK(op) then m.pc + 4 else m.pc + 2
    ensures var op := NextWord(m);
      Tick(m) == Outcome(Ok(SKIP_IF_VX), m.(pc := Tick(m).after.pc, opcode := op, updateScreen := false))
  {
  }

  lemma SkipIfNotEqual(m: Machine)
    requires WellFormed(m) && m.pc + 1 < MEM_SIZE && Instr(NextWord(m)) == SKIP_IF_NOT_VX
    ensures var op := NextWord(m);
      Tick(m).after.pc == if m.v[X(op)] != KK(op) then m.pc + 4 else m.pc + 2
    ensures var op := NextWord(m);
      Tick(m) == Outcome(Ok(SKIP_IF_NOT_VX), m.(pc := Tick(m).after.pc, opcode := op, updateScreen := false))
  {
  }

  /**
    5xy0 and 9xy0 as written never skip: `pc` only advances past the
    instruction itself, and when the condition holds the stored `opcode`
    grows by two instead. Nothing else changes but the dirty flag, which the
    host lowers.
  */
  lemma RegisterSkipsNeverSkip(m: Machine)
    requires WellFormed(m) && m.pc + 1 < MEM_SIZE
    requires Instr(NextWord(m)) == SKIP_IF_VX_VY || Instr(NextWord(m)) == SKIP_IF_NOT_VX_VY
    ensures var op := NextWord(m);
      var cond := if Instr(op) == SKIP_IF_VX_VY then m.v[X(op)] == m.v[Y(op)] else m.v[X(op)] != m.v[Y(op)];
      Tick(m) == Outcome(Ok(Instr(op)), m.(pc := m.pc + 2, opcode := if cond then op + 2 else op, updateScreen := false))
  {
  }

  /**
    A tick whose instruction is not a jump, call, return or conditional skip
    on an immediate moves `pc` by exactly two, whether or not it faults.
  */
  lemma TickAdvancesPc(m: Machine)
    requires WellFormed(m) && m.pc + 1 < MEM_SIZE
    requires NextWord(m) != SUBROUTINE_RESTORE
    requires Instr(NextWord(m)) !in {JUMP, SUBROUTINE_JUMP, SKIP_IF_VX, SKIP_IF_NOT_VX}
    ensures Tick(m).after.pc == m.pc + 2
  {
  }

  // ------------------------------------------------------ register loads

  /** 6xkk: `Vx := kk`; only Vx changes. */
  lemma SetRegister(m: Machine)
    requires WellFormed(m) && Instr(m.opcode) == SET_REGISTER
    ensures var x, m' := X(m.opcode), Exec(m).after;
      m'.v[x] == KK(m.opcode) && m' == m.(v := m'.v) &&
      forall r :: 0 <= r < NUM_REGISTERS && r != x ==> m'.v[r] == m.v[r]
  {
  }

  /**
    7xkk: `Vx := (Vx + kk) mod 256` with no carry flag; only Vx changes,
    so VF is untouched unless x is F.
  */
  lemma AddImmediate(m: Machine)
    requires WellFormed(m) && Instr(m.opcode) == ADD_VALUE
    ensures var x, m' := X(m.opcode), Exec(m).after;
      m'.v[x] == (m.v[x] + KK(m.opcode)) % 256 && m' == m.(v := m'.v) &&
      forall r :: 0 <= r < NUM_REGISTERS && r != x ==> m'.v[r] == m.v[r]
  {
  }

  /** Annn: `I := nnn`, an address inside memory; nothing else changes. */
  lemma SetIndex(m: Machine)
    requires WellFormed(m) && Instr(m.opcode) == SET_INDEX
    ensures Exec(m).after == m.(index := NNN(m.opcode))
    ensures Exec(m).after.index < MEM_SIZE
  {
  }

  // ------------------------------------------------------------ 8xyN ALU

  /** 8xy4 with x not F: the new Vx and the carry in VF make up the full sum. */
  lemma AddWithCarry(v: seq<int>, x: int, y: int)
    requires IsRegisterFile(v) && 0 <= x < FLAG && 0 <= y < NUM_REGISTERS
    ensures var r := Logical(v, x, y, 4);
      r[x] + 256 * r[FLAG] == v[x] + v[y] &&
      (r[FLAG] == 1 <==> v[x] + v[y] > 255) && (r[FLAG] == 0 || r[FLAG] == 1)
  {
  }

  /**
    8xy5 with neither x nor y F: VF is 1 exactly when Vx > Vy (strictly), and
    Vx becomes the difference modulo 256.
  */
  lemma SubtractWithBorrow(v: seq<int>, x: int, y: int)
    requires IsRegisterFile(v) && 0 <= x < FLAG && 0 <= y < FLAG
    ensures var r := Logical(v, x, y, 5);
      (r[FLAG] == 1 <==> v[x] > v[y]) && (r[FLAG] == 0 || r[FLAG] == 1) &&
      r[x] == (if v[x] >= v[y] then v[x] - v[y] else v[x] - v[y] + 256)
  {
  }

  /** 8xy7 with neither x nor y F: the reverse subtraction, flag 1 exactly when Vy > Vx. */
  lemma SubtractReversed(v: seq<int>, x: int, y: int)
    requires IsRegisterFile(v) && 0 <= x < FLAG && 0 <= y < FLAG
    ensures var r := Logical(v, x, y, 7);
      (r[FLAG] == 1 <==> v[y] > v[x]) && (r[FLAG] == 0 || r[FLAG] == 1) &&
      r[x] == (if v[y] >= v[x] then v[y] - v[x] else v[y] - v[x] + 256)
  {
  }

  /** 8xy6 with x not F: VF receives the bit shifted out, so the old Vx is recovered. */
  lemma ShiftRight(v: seq<int>, x: int, y: int)
    requires IsRegisterFile(v) && 0 <= x < FLAG && 0 <= y < NUM_REGISTERS
    ensures var r := Logical(v, x, y, 6);
      v[x] == 2 * r[x] + r[FLAG] && (r[FLAG] == 0 || r[FLAG] == 1) && r[x] < 128
  {
  }

  /** 8xyE with x not F: VF receives bit 7, so the old Vx is recovered. */
  lemma ShiftLeft(v: seq<int>, x: int, y: int)
    requires IsRegisterFile(v) && 0 <= x < FLAG && 0 <= y < NUM_REGISTERS
    ensures var r := Logical(v, x, y, 0xE);
      2 * v[x] == r[x] + 256 * r[FLAG] && (r[FLAG] == 0 || r[FLAG] == 1) && r[x] % 2 == 0
  {
  }

  /**
    The flag is written before Vx is recomputed: with y = F, 8xF5 subtracts
    the new flag rather than the old VF, and 8Fy6 always leaves VF at 0.
  */
  lemma FlagWrittenFirst(v: seq<int>, x: int, y: int)
    requires IsRegisterFile(v) && 0 <= x < FLAG && 0 <= y < NUM_REGISTERS
    ensures var borrow := if v[x] > v[FLAG] then 1 else 0;
      Logical(v, x, FLAG, 5)[x] == (v[x] - borrow) % 256
    ensures Logical(v, FLAG, y, 6)[FLAG] == 0
  {
  }

  /** 8xyk: the register file becomes `Logical` of the old one; nothing else changes. */
  lemma LogicalStep(m: Machine)
    requires WellFormed(m) && Instr(m.opcode) == LOGICAL_INSTR
    ensures Exec(m) == Outcome(Ok(LOGICAL_INSTR), m.(v := Logical(m.v, X(m.opcode), Y(m.opcode), N(m.opcode))))
  {
  }

  /** 8xy0-8xy3: a copy, `|`, `&` or `^` of Vx with Vy into Vx; no other register changes. */
  lemma CopyAndBitwise(v: seq<int>, x: int, y: int)
    requires IsRegisterFile(v) && 0 <= x < NUM_REGISTERS && 0 <= y < NUM_REGISTERS
    ensures Logical(v, x, y, 0) == v[x := v[y]]
    ensures Logical(v, x, y, 1) == v[x := Or(v[x], v[y])]
    ensures Logical(v, x, y, 2) == v[x := And(v[x], v[y])]
    ensures Logical(v, x, y, 3) == v[x := Xor(v[x], v[y])]
  {
  }

  /** 8xx3 clears Vx: a value XORed with itself is 0. */
  lemma XorSelfClears(v: seq<int>, x: int)
    requires IsRegisterFile(v) && 0 <= x < NUM_REGISTERS
    ensures Logical(v, x, x, 3)[x] == 0
  {
  }

  /** 8xy with a selector outside {0..7, E}: a no-op that still reports the family. */
  lemma LogicalUnmatched(m: Machine)
    requires WellFormed(m) && Instr(m.opcode) == LOGICAL_INSTR
    requires N(m.opcode) in {8, 9, 0xA, 0xB, 0xC, 0xD, 0xF}
    ensures Exec(m) == Outcome(Ok(LOGICAL_INSTR), m)
  {
  }

  /** Opcodes of no handled family are no-ops that return 0. */
  lemma UnmatchedIsNoOp(m: Machine)
    requires WellFormed(m) && m.opcode != CLEAR_SCREEN && m.opcode != SUBROUTINE_RESTORE
    requires Instr(m.opcode) in {0, 0xB000, 0xC000, 0xE000, FUNCTIONS}
    ensures Exec(m) == Outcome(Ok(0), m)
  {
  }

  /** No instruction writes memory, the delay timer or its cycle count. */
  lemma ExecFrame(m: Machine)
    requires WellFormed(m)
    ensures var m' := Exec(m).after;
      m'.mem == m.mem && m'.delayTimer == m.delayTimer && m'.cycleCount == m.cycleCount
  {
  }

  // --------------------------------------------------------------- screen

  /** 00E0 darkens every cell and, as written, leaves the dirty flag alone. */
  lemma ClearScreen(m: Machine)
    requires WellFormed(m) && m.opcode == CLEAR_SCREEN
    ensures Exec(m).status == Ok(CLEAR_SCREEN)
    ensures Exec(m).after == m.(lit := {})
    ensures Exec(m).after.updateScreen == m.updateScreen
  {
  }

  ghost function DrawArgsOf(m: Machine): (d: DrawArgs)
    requires WellFormed(m)
    ensures d.Valid()
  {
    DrawArgs(m.mem, m.index, m.v[X(m.opcode)], m.v[Y(m.opcode)], N(m.opcode))
  }

  /**
    Dxyn completes exactly when the sprite fits (its rows inside memory, its
    set bits on the grid). It then XORs the sprite into the screen, sets VF
    to 1 exactly when a toggled cell was lit before and to 0 otherwise, raises
    the dirty flag and changes nothing else.
  */
  lemma DrawSprite(m: Machine)
    requires WellFormed(m) && Instr(m.opcode) == DISPLAY
    ensures var d := DrawArgsOf(m);
      Exec(m).status.Ok? <==> Fits(d)
    ensures var d := DrawArgsOf(m);
      Fits(d) ==>
        var m' := Exec(m).after;
        && m'.lit == Flip(m.lit, SpriteCells(d))
        && (forall p :: OnScreen(p) ==> (p in m'.lit <==> (p in m.lit <==> p !in SpriteCells(d))))
        && m'.v[FLAG] == (if m.lit * SpriteCells(d) != {} then 1 else 0)
        && m'.updateScreen
        && m' == m.(v := m.v[FLAG := m'.v[FLAG]], lit := m'.lit, updateScreen := true)
  {
    DrawEffect(DrawArgsOf(m), m.lit);
    forall p | OnScreen(p) {
      FlipMember(m.lit, SpriteCells(DrawArgsOf(m)), p);
    }
  }

  /**
    Drawing the same sprite twice at the same place (Vx, Vy not being VF)
    restores the screen.
  */
  lemma DrawTwiceRestores(m: Machine)
    requires WellFormed(m) && Instr(m.opcode) == DISPLAY
    requires X(m.opcode) != FLAG && Y(m.opcode) != FLAG
    requires Exec(m).status.Ok?
    ensures Exec(Exec(m).after).status.Ok?
    ensures Exec(Exec(m).after).after.lit == m.lit
  {
    var m1 := Exec(m).after;
    DrawSprite(m);
    assert DrawArgsOf(m1) == DrawArgsOf(m);
    DrawSprite(m1);
    FlipTwice(m.lit, SpriteCells(DrawArgsOf(m)));
  }

  // ---------------------------------------------------------------- timer

  /** `k` calls of updateDelayTimer. */
  ghost function TimerTicks(m: Machine, k: nat): (r: Machine)
    requires WellFormed(m)
    ensures WellFormed(r)
    decreases k
  {
    if k == 0 then m else TimerTicks(TimerTick(m), k - 1)
  }

  /** Before the count passes 16 the timer holds its value. */
  lemma {:induction false} TimerHolds(m: Machine, k: nat)
    requires WellFormed(m) && m.cycleCount + k <= 16
    ensures TimerTicks(m, k) == m.(cycleCount := m.cycleCount + k)
    decreases k
  {
    if k > 0 {
      TimerHolds(TimerTick(m), k - 1);
    }
  }

  /**
    The timer is lowered once every 17 calls, never below 0: from a count of
    0, sixteen calls leave it alone and the seventeenth lowers a positive
    timer by one and resets the count.
  */
  lemma TimerPeriod(m: Machine)
    requires WellFormed(m) && m.cycleCount == 0
    ensures TimerTicks(m, 16).delayTimer == m.delayTimer
    ensures TimerTicks(m, 17) == m.(delayTimer := if m.delayTimer > 0 then m.delayTimer - 1 else 0)
  {
    TimerHolds(m, 16);
    assert TimerTicks(m, 17) == TimerTicks(TimerTick(m), 16);
    TimerShift(m, 16);
  }

  /** Running k + 1 calls is running k calls and then one more. */
  lemma {:induction false} TimerShift(m: Machine, k: nat)
    requires WellFormed(m)
    ensures TimerTicks(m, k + 1) == TimerTick(TimerTicks(m, k))
    decreases k
  {
    if k > 0 {
      TimerShift(TimerTick(m), k - 1);
    }
  }

  /** Nothing raises the delay timer: a timer at 0 stays at 0 through every operation. */
  lemma DelayTimerStaysZero(m: Machine)
    requires WellFormed(m) && m.delayTimer == 0
    ensures Fetch(m).after.delayTimer == 0 && Exec(m).after.delayTimer == 0
    ensures Tick(m).after.delayTimer == 0 && TimerTick(m).delayTimer == 0
  {
  }

  // ----------------------------------------------------------- the driver

  /** After a completed tick the dirty flag is down: the host has consumed it. */
  lemma TickConsumesDirtyFlag(m: Machine)
    requires WellFormed(m)
    requires Tick(m).status.Ok?
    ensures !Tick(m).after.updateScreen
  {
  }

  // -------------------------------------------------------------- loading

  /**
    loadProgram stores each program byte, reinterpreted as unsigned, at
    0x200 on: reading a stored cell back as a signed byte gives the program
    byte, every memory cell stays a byte, and cells outside the image keep
    their value.
  */
  lemma LoadProgramContents(mem: seq<int>, b: seq<JavaByte>)
    requires |mem| == MEM_SIZE && forall a :: 0 <= a < MEM_SIZE ==> IsByte(mem[a])
    requires LoadFits(b)
    ensures var r := LoadMem(mem, b);
      && (forall i :: 0 <= i < |b| ==> Signed(r[MEM_START + i]) == b[i])
      && (forall a :: 0 <= a < MEM_SIZE ==> IsByte(r[a]))
      && (forall a :: 0 <= a < MEM_SIZE && !(MEM_START <= a < MEM_START + |b|) ==> r[a] == mem[a])
  {
    var r := LoadMem(mem, b);
    forall i | 0 <= i < |b| ensures Signed(r[MEM_START + i]) == b[i] {
      UnsignedSigned(b[i], 0);
    }
  }

  // ------------------------------------------------------------- scenario

  /** The eight cells of the row `y = 10` from `x = 10` to `x = 17`. */
  ghost function RowAt10(): set<(int, int)> {
    set c | 10 <= c < 18 :: (c, 10)
  }

  /** The word at `pc` is `hi lo`. */
  lemma NextWordIs(m: Machine, hi: int, lo: int)
    requires WellFormed(m) && m.pc + 1 < MEM_SIZE && m.mem[m.pc] == hi && m.mem[m.pc + 1] == lo
    ensures NextWord(m) == hi * 256 + lo
  {
  }

  /**
    A four-instruction program at 0x200: clear the screen, `V0 := 10`,
    `I := 0`, then draw the one-row sprite 0xFF at (V0, V0). Four ticks leave
    exactly the eight cells (10..17, 10) lit, no collision in VF and `pc` at
    the next instruction.
  */
  lemma ClearLoadDraw(m: Machine)
    requires WellFormed(m) && m.pc == MEM_START && m.mem[0] == 0xFF
    requires m.mem[MEM_START..MEM_START + 8] == [0x00, 0xE0, 0x60, 0x0A, 0xA0, 0x00, 0xD0, 0x01]
    ensures var t1 := Tick(m).after; var t2 := Tick(t1).after; var t3 := Tick(t2).after;
      && Tick(t3).status == Ok(DISPLAY)
      && Tick(t3).after.lit == RowAt10()
      && Tick(t3).after.v[FLAG] == 0 && Tick(t3).after.v[0] == 10
      && Tick(t3).after.index == 0 && Tick(t3).after.pc == MEM_START + 8
  {
    var code := m.mem[MEM_START..MEM_START + 8];
    forall i | 0 <= i < 8 ensures m.mem[MEM_START + i] == code[i] {
    }
    assert code[0] == 0x00 && code[1] == 0xE0 && code[2] == 0x60 && code[3] == 0x0A;
    assert code[4] == 0xA0 && code[5] == 0x00 && code[6] == 0xD0 && code[7] == 0x01;
    var t1 := ClearStep(m);
    var t2 := LoadV0Step(t1);
    var t3 := LoadIStep(t2);
    DrawStep(t3);
  }

  /** First step: 00E0 at `pc`. */
  lemma ClearStep(m: Machine) returns (t: Machine)
    requires WellFormed(m) && m.pc + 1 < MEM_SIZE && m.mem[m.pc] == 0x00 && m.mem[m.pc + 1] == 0xE0
    ensures t == Tick(m).after && WellFormed(t)
    ensures t.lit == {} && t.pc == m.pc + 2 && t.mem == m.mem
  {
    NextWordIs(m, 0x00, 0xE0);
    t := Tick(m).after;
  }

  /** Second step: 600A at `pc`. */
  lemma LoadV0Step(m: Machine) returns (t: Machine)
    requires WellFormed(m) && m.pc + 1 < MEM_SIZE && m.mem[m.pc] == 0x60 && m.mem[m.pc + 1] == 0x0A
    ensures t == Tick(m).after && WellFormed(t)
    ensures t.v[0] == 10 && t.lit == m.lit && t.pc == m.pc + 2 && t.mem == m.mem
  {
    NextWordIs(m, 0x60, 0x0A);
    SetRegister(Fetch(m).after);
    t := Tick(m).after;
  }

  /** Third step: A000 at `pc`. */
  lemma LoadIStep(m: Machine) returns (t: Machine)
    requires WellFormed(m) && m.pc + 1 < MEM_SIZE && m.mem[m.pc] == 0xA0 && m.mem[m.pc + 1] == 0x00
    ensures t == Tick(m).after && WellFormed(t)
    ensures t.index == 0 && t.v == m.v && t.lit == m.lit && t.pc == m.pc + 2 && t.mem == m.mem
  {
    NextWordIs(m, 0xA0, 0x00);
    SetIndex(Fetch(m).after);
    t := Tick(m).after;
  }

  /** Every bit of the row 0xFF is set. */
  lemma FullRow(col: int)
    requires 0 <= col < 8
    ensures Bit(0xFF, col)
  {
    assert Digit(0xFF, 0) == 1 && Digit(0xFF, 1) == 1 && Digit(0xFF, 2) == 1 && Digit(0xFF, 3) == 1;
    assert Digit(0xFF, 4) == 1 && Digit(0xFF, 5) == 1 && Digit(0xFF, 6) == 1 && Digit(0xFF, 7) == 1;
  }

  /** The last step of the program above: draw the 0xFF row at (10, 10) on a dark screen. */
  lemma DrawStep(t3: Machine)
    requires WellFormed(t3) && t3.pc + 1 < MEM_SIZE && t3.mem[t3.pc] == 0xD0 && t3.mem[t3.pc + 1] == 0x01
    requires t3.v[0] == 10 && t3.index == 0 && t3.lit == {} && t3.mem[0] == 0xFF
    ensures && Tick(t3).status == Ok(DISPLAY)
      && Tick(t3).after.lit == RowAt10()
      && Tick(t3).after.v[FLAG] == 0 && Tick(t3).after.v[0] == 10
      && Tick(t3).after.index == 0 && Tick(t3).after.pc == t3.pc + 2
  {
    NextWordIs(t3, 0xD0, 0x01);
    var f := Fetch(t3).after;
    var d := DrawArgsOf(f);
    assert d == DrawArgs(t3.mem, 0, 10, 10, 1);
    forall p ensures p in SpriteCells(d) <==> p in RowAt10() {
      HitsMember(d, 0, 0, p);
      if p in RowAt10() {
        FullRow(p.0 - 10);
      }
    }
    assert Fits(d);
    DrawSprite(f);
  }
}
