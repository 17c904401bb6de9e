/**
  The engine object: memory, registers, stack, program counter, index
  register, current opcode, dirty flag and delay timer, updated in place by
  fetch and execute. Every method is proved to leave the fields exactly as the
  matching function of module MachineSpec says, applied to the state before.
*/
module Engine {
  import opened Opcode
  import opened Faults
  import opened Display
  import opened Sprite
  import opened MachineSpec

  class Memory {
    const screen: Screen
    const memory: array<int>
    const V: array<int>
    var stack: seq<int>
    var pc: int
    var I: int
    var opcode: int
    var updateScreen: bool
    var delayTimer: int
    var cycleCount: int

    /** The fields, and the screen's lit cells, as one value. */
    ghost function State(): Machine
      reads this, memory, V, screen, screen.pixels
      requires screen.Valid()
    {
      Machine(memory[..], V[..], stack, pc, I, opcode, updateScreen, delayTimer, cycleCount, screen.Lit())
    }

    ghost predicate Valid()
      reads this, memory, V, screen, screen.pixels
    {
      memory.Length == MEM_SIZE && V.Length == NUM_REGISTERS && screen.Valid() && WellFormed(State())
    }

    /** A zeroed memory and register file, an empty stack, and `pc` at 0x200. */
    constructor (screen: Screen)
      requires screen.Valid()
      ensures Valid() && this.screen == screen && fresh(memory) && fresh(V)
      ensures State() == Initial(screen.Lit())
    {
      this.screen := screen;
      memory := new int[MEM_SIZE](_ => 0);
      V := new int[NUM_REGISTERS](_ => 0);
      updateScreen := false;
      delayTimer := 0;
      cycleCount := 0;
      stack := [];
      pc := MEM_START;
      I := 0;
      opcode := 0;
      new;
      assert memory[..] == Initial(screen.Lit()).mem;
      assert V[..] == Initial(screen.Lit()).v;
    }

    /**
      Copies the program image to 0x200 on, as unsigned bytes. An image too
      large for memory is copied as far as the last cell and then reported.
    */
    method LoadProgram(b: seq<JavaByte>) returns (ok: bool)
      requires Valid()
      modifies memory
      ensures Valid()
      ensures ok == LoadFits(b)
      ensures State() == old(State()).(mem := LoadMem(old(memory[..]), b))
    {
      var i := 0;
      while i < |b|
        invariant 0 <= i <= |b| && MEM_START + i <= MEM_SIZE
        invariant memory[..] == LoadMem(old(memory[..]), b[..i])
      {
        if MEM_START + i >= MEM_SIZE {
          // `memory[i + MEM_START]` is out of bounds: the copy stops here.
          assert LoadMem(old(memory[..]), b[..i]) == LoadMem(old(memory[..]), b);
          return false;
        }
        memory[MEM_START + i] := Unsigned(b[i]);
        i := i + 1;
        assert memory[..] == LoadMem(old(memory[..]), b[..i]);
      }
      assert b[..i] == b;
      ok := true;
    }

    /** The cell at `index`. */
    function GetByte(index: int): (b: int)
      reads this, memory, V, screen, screen.pixels
      requires Valid() && 0 <= index < MEM_SIZE
      ensures IsByte(b) && b == State().mem[index]
    {
      memory[index]
    }

    /** Reads the big-endian word at `pc` into `opcode` and advances `pc` by two. */
    method Fetch() returns (r: Result<int>)
      requires Valid()
      modifies this
      ensures Valid()
      ensures Outcome(r, State()) == MachineSpec.Fetch(old(State()))
    {
      if pc + 1 >= MEM_SIZE {
        // `memory[pc]` or `memory[pc + 1]` is out of bounds.
        return Err(PcOutOfRange);
      }
      opcode := Word(memory[pc], memory[pc + 1]);
      pc := pc + 2;
      r := Ok(opcode);
    }

    /** Decodes `opcode` and carries it out. */
    method Execute() returns (r: Result<int>)
      requires Valid()
      modifies this, V, screen, screen.pixels
      ensures Valid()
      ensures Outcome(r, State()) == Exec(old(State()))
    {
      if opcode == CLEAR_SCREEN {
        screen.Clear();
        return Ok(CLEAR_SCREEN);
      }
      if opcode == SUBROUTINE_RESTORE {
        if stack == [] {
          // Stack.pop() on an empty stack.
          return Err(StackUnderflow);
        }
        pc := stack[|stack| - 1];
        stack := stack[..|stack| - 1];
        return Ok(SUBROUTINE_RESTORE);
      }
      var instr := Instr(opcode);
      if instr == JUMP || instr == SUBROUTINE_JUMP || instr == SKIP_IF_VX || instr == SKIP_IF_NOT_VX
        || instr == SKIP_IF_VX_VY || instr == SKIP_IF_NOT_VX_VY
      {
        r := ExecuteControl();
      } else if instr == SET_REGISTER || instr == ADD_VALUE || instr == SET_INDEX || instr == LOGICAL_INSTR {
        r := ExecuteRegisters();
      } else if instr == DISPLAY {
        r := DrawSprite(X(opcode), Y(opcode), N(opcode));
      } else {
        r := Ok(0);
      }
    }

    /** The jump, call and skip cases of the switch: they change only `pc`, the stack or `opcode`. */
    method ExecuteControl() returns (r: Result<int>)
      requires Valid() && opcode != CLEAR_SCREEN && opcode != SUBROUTINE_RESTORE
      requires Instr(opcode) in {JUMP, SUBROUTINE_JUMP, SKIP_IF_VX, SKIP_IF_NOT_VX, SKIP_IF_VX_VY, SKIP_IF_NOT_VX_VY}
      modifies this
      ensures Valid()
      ensures Outcome(r, State()) == Exec(old(State()))
    {
      var instr := Instr(opcode);
      if instr == JUMP {
        pc := NNN(opcode);
        r := Ok(JUMP);
      } else if instr == SUBROUTINE_JUMP {
        var addr := NNN(opcode);
        stack := stack + [pc];
        pc := addr;
        r := Ok(SUBROUTINE_JUMP);
      } else if instr == SKIP_IF_VX {
        if KK(opcode) == V[X(opcode)] {
          pc := pc + 2;
        }
        r := Ok(SKIP_IF_VX);
      } else if instr == SKIP_IF_NOT_VX {
        if KK(opcode) != V[X(opcode)] {
          pc := pc + 2;
        }
        r := Ok(SKIP_IF_NOT_VX);
      } else if instr == SKIP_IF_VX_VY {
        // The engine adds 2 to `opcode`, not to `pc`.
        if V[X(opcode)] == V[Y(opcode)] {
          opcode := opcode + 2;
        }
        r := Ok(SKIP_IF_VX_VY);
      } else {
        if V[X(opcode)] != V[Y(opcode)] {
          opcode := opcode + 2;
        }
        r := Ok(SKIP_IF_NOT_VX_VY);
      }
    }

    /** The load, add, set-index and 8xyk cases of the switch: they change only V or I. */
    method ExecuteRegisters() returns (r: Result<int>)
      requires Valid() && opcode != CLEAR_SCREEN && opcode != SUBROUTINE_RESTORE
      requires Instr(opcode) in {SET_REGISTER, ADD_VALUE, SET_INDEX, LOGICAL_INSTR}
      modifies this, V
      ensures Valid()
      ensures Outcome(r, State()) == Exec(old(State()))
    {
      var instr := Instr(opcode);
      if instr == SET_REGISTER {
        V[X(opcode)] := KK(opcode);
        r := Ok(SET_REGISTER);
      } else if instr == ADD_VALUE {
        var register := X(opcode);
        var result := V[register] + KK(opcode);
        if result >= 256 {
          V[register] := result - 256;
        } else {
          V[register] := result;
        }
        r := Ok(ADD_VALUE);
      } else if instr == SET_INDEX {
        I := NNN(opcode);
        r := Ok(SET_INDEX);
      } else {
        LogicalInstr(X(opcode), Y(opcode), N(opcode));
        r := Ok(LOGICAL_INSTR);
      }
    }

    /** The 8xyk family on the register array, writing VF before Vx where the engine does. */
    method LogicalInstr(x: int, y: int, k: int)
      requires Valid() && 0 <= x < NUM_REGISTERS && 0 <= y < NUM_REGISTERS
      modifies V
      ensures V[..] == Logical(old(V[..]), x, y, k)
    {
      if k == 0 {
        V[x] := V[y];
      } else if k == 1 {
        V[x] := Or(V[x], V[y]);
      } else if k == 2 {
        V[x] := And(V[x], V[y]);
      } else if k == 3 {
        V[x] := Xor(V[x], V[y]);
      } else if k == 4 {
        var value := V[x] + V[y];
        V[FLAG] := if value > 0xFF then 1 else 0;
        V[x] := value % 256;
      } else if k == 5 {
        V[FLAG] := if V[x] > V[y] then 1 else 0;
        V[x] := (V[x] - V[y]) % 256;
      } else if k == 6 {
        V[FLAG] := V[x] % 2;
        V[x] := V[x] / 2;
      } else if k == 7 {
        V[FLAG] := if V[y] > V[x] then 1 else 0;
        V[x] := (V[y] - V[x]) % 256;
      } else if k == 0xE {
        V[FLAG] := V[x] / 0x80;
        V[x] := (V[x] * 2) % 256;
      }
    }

    /**
      Dxyn: reads Vx and Vy, clears VF, then walks the sprite rows and their
      bits, testing and toggling one cell per set bit.
    */
    method DrawSprite(x: int, y: int, height: int) returns (r: Result<int>)
      requires Valid() && 0 <= x < NUM_REGISTERS && 0 <= y < NUM_REGISTERS && 0 <= height < 16
      modifies this, V, screen.pixels
      ensures Valid()
      ensures Outcome(r, State()) == ExecDraw(old(State()), x, y, height)
    {
      var vx := V[x];
      var vy := V[y];
      V[FLAG] := 0;
      ghost var d := DrawArgs(memory[..], I, vx, vy, height);
      ghost var lit0 := screen.Lit();
      ghost var v0 := old(V[..]);
      var yVal := 0;
      while yVal < height
        invariant 0 <= yVal <= height
        invariant Valid()
        invariant V[..] == v0[FLAG := V[FLAG]]
        invariant DrawRows(d, lit0, 0, 0) == DrawRows(d, screen.Lit(), V[FLAG], yVal)
        modifies V, screen.pixels
      {
        if I + yVal >= MEM_SIZE {
          // `memory[I + yVal]` is out of bounds.
          return Err(SpriteOutOfMemory);
        }
        var ok := DrawRow(d, vx, vy, yVal);
        if !ok {
          return Err(PixelOutOfRange);
        }
        yVal := yVal + 1;
      }
      updateScreen := true;
      r := Ok(DISPLAY);
    }

    /**
      The inner loop of Dxyn over the eight bits of sprite row `yVal`. It
      stops, reporting `false`, at a set bit whose cell is off the grid.
    */
    method DrawRow(ghost d: DrawArgs, vx: int, vy: int, yVal: int) returns (ok: bool)
      requires Valid() && d.Valid() && d.mem == memory[..] && d.index == I && d.vx == vx && d.vy == vy
      requires 0 <= yVal < d.height && I + yVal < MEM_SIZE
      modifies V, screen.pixels
      ensures Valid()
      ensures V[..] == old(V[..])[FLAG := V[FLAG]]
      ensures var rest := DrawCols(d, old(screen.Lit()), old(V[FLAG]), yVal, 0);
        if ok then rest == DrawRows(d, screen.Lit(), V[FLAG], yVal + 1)
        else rest == Stopped(PixelOutOfRange, screen.Lit(), V[FLAG])
    {
      ghost var v0 := V[..];
      ghost var rest := DrawCols(d, screen.Lit(), V[FLAG], yVal, 0);
      var spriteData := memory[I + yVal];
      var xVal := 0;
      while xVal < 8
        invariant 0 <= xVal <= 8
        invariant Valid()
        invariant V[..] == v0[FLAG := V[FLAG]]
        invariant rest == DrawCols(d, screen.Lit(), V[FLAG], yVal, xVal)
        modifies V, screen.pixels
      {
        BitMask(spriteData, xVal);
        if Bitwise(AndOp, spriteData, Pow2(7 - xVal), 8) != 0 {
          var xCoord := vx + xVal;
          var yCoord := vy + yVal;
          if !OnScreen((xCoord, yCoord)) {
            // `pixels[xCoord][yCoord]` is out of bounds.
            return false;
          }
          if screen.GetPixel(xCoord, yCoord) == 1 {
            V[FLAG] := 1;
          }
          screen.UpdatePixel(xCoord, yCoord);
        }
        xVal := xVal + 1;
      }
      ok := true;
    }

    /** The dirty flag. */
    function IsUpdateScreen(): (b: bool)
      reads this, memory, V, screen, screen.pixels
      requires Valid()
      ensures b == State().updateScreen
    {
      updateScreen
    }

    /** The delay timer, never negative. */
    function GetDelayTimer(): (t: int)
      reads this, memory, V, screen, screen.pixels
      requires Valid()
      ensures t >= 0 && t == State().delayTimer
    {
      delayTimer
    }

    /** Counts a call; every 17th call resets the count and lowers a positive timer. */
    method UpdateDelayTimer()
      requires Valid()
      modifies this
      ensures Valid()
      ensures State() == TimerTick(old(State()))
    {
      cycleCount := cycleCount + 1;
      if cycleCount > 16 {
        cycleCount := 0;
        if delayTimer > 0 {
          delayTimer := delayTimer - 1;
        }
      }
    }

    /** Sets the dirty flag and nothing else. */
    method SetUpdateScreen(b: bool)
      requires Valid()
      modifies this
      ensures Valid()
      ensures State() == old(State()).(updateScreen := b)
    {
      updateScreen := b;
    }
  }
}
