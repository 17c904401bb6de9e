/**
  The engine's whole state as one value, and what each engine operation does
  to it: `Fetch`, `Exec` (the instruction switch), `LoadMem`, `TimerTick` and
  the host's per-tick `Tick`. The `Memory` class in module Engine is proved to
  change its fields exactly as these functions say.
*/
module MachineSpec {
  import opened Opcode
  import opened Faults
  import opened Display
  import opened Sprite

  datatype Machine = Machine(
    mem: seq<int>,          // the 4096 memory cells
    v: seq<int>,            // registers V0 .. VF
    stack: seq<int>,        // return addresses, top of the stack last
    pc: int,
    index: int,             // the index register I
    opcode: int,            // the word the last fetch read
    updateScreen: bool,     // the dirty flag
    delayTimer: int,
    cycleCount: int,
    lit: set<(int, int)>)   // the lit cells of the screen

  /** The state invariant: bytes are bytes, I is an address, the screen is 64 x 32. */
  ghost predicate WellFormed(m: Machine) {
    && |m.mem| == MEM_SIZE && (forall a :: 0 <= a < MEM_SIZE ==> IsByte(m.mem[a]))
    && |m.v| == NUM_REGISTERS && (forall r :: 0 <= r < NUM_REGISTERS ==> IsByte(m.v[r]))
    && (forall k :: 0 <= k < |m.stack| ==> m.stack[k] >= 0)
    && m.pc >= 0
    && 0 <= m.index < MEM_SIZE
    && IsWord(m.opcode)
    && m.delayTimer >= 0
    && 0 <= m.cycleCount <= 16
    && OnScreenSet(m.lit)
  }

  /** The result of an operation and the state it leaves. */
  datatype Outcome = Outcome(status: Result<int>, after: Machine)

  /** A freshly constructed engine over a screen whose lit set is `lit`. */
  ghost function Initial(lit: set<(int, int)>): (m: Machine)
    requires OnScreenSet(lit)
    ensures WellFormed(m)
    ensures forall a :: 0 <= a < MEM_SIZE ==> m.mem[a] == 0
    ensures forall r :: 0 <= r < NUM_REGISTERS ==> m.v[r] == 0
    ensures m.stack == [] && m.pc == MEM_START && m.index == 0 && m.opcode == 0
    ensures !m.updateScreen && m.delayTimer == 0 && m.cycleCount == 0 && m.lit == lit
  {
    Machine(seq(MEM_SIZE, _ => 0), seq(NUM_REGISTERS, _ => 0), [], MEM_START, 0, 0, false, 0, 0, lit)
  }

  /** A program image fits in memory above 0x200. */
  predicate LoadFits(b: seq<JavaByte>) {
    |b| <= MEM_SIZE - MEM_START
  }

  /**
    Memory after copying `b` to 0x200 on: each copied cell holds `b[i] & 0xFF`.
    An image that does not fit is copied as far as the end of memory.
  */
  ghost function LoadMem(mem: seq<int>, b: seq<JavaByte>): (r: seq<int>)
    requires |mem| == MEM_SIZE
    ensures |r| == MEM_SIZE
    ensures forall a :: 0 <= a < MEM_SIZE ==>
      r[a] == if MEM_START <= a < MEM_START + |b| then Unsigned(b[a - MEM_START]) else mem[a]
  {
    seq(MEM_SIZE, a requires 0 <= a < MEM_SIZE =>
      if MEM_START <= a < MEM_START + |b| then Unsigned(b[a - MEM_START]) else mem[a])
  }

  /**
    fetch: the big-endian word at `pc`, then `pc += 2`. Reading past the end
    of memory faults before anything changes.
  */
  ghost function Fetch(m: Machine): (o: Outcome)
    requires WellFormed(m)
    ensures WellFormed(o.after)
    ensures o.status.Ok? <==> m.pc + 1 < MEM_SIZE
    ensures o.status.Ok? ==>
      && o.status.value == o.after.opcode
      && o.after.opcode / 256 == m.mem[m.pc] && o.after.opcode % 256 == m.mem[m.pc + 1]
      && o.after.pc == m.pc + 2
      && o.after.(opcode := m.opcode, pc := m.pc) == m
    ensures o.status.Err? ==> o == Outcome(Err(PcOutOfRange), m)
  {
    if m.pc + 1 < MEM_SIZE then
      var op := Word(m.mem[m.pc], m.mem[m.pc + 1]);
      Outcome(Ok(op), m.(opcode := op, pc := m.pc + 2))
    else
      Outcome(Err(PcOutOfRange), m)
  }

  /** 7xkk's overflow handler: subtract 256 once the sum reaches 256. */
  function AddValue(a: int, b: int): (r: int)
    requires IsByte(a) && IsByte(b)
    ensures IsByte(r) && r == (a + b) % 256
  {
    var result := a + b;
    if result >= 256 then result - 256 else result
  }

  /** `a | b` on two bytes: a byte no smaller than either operand, and no larger than their sum. */
  function Or(a: int, b: int): (r: int)
    requires IsByte(a) && IsByte(b)
    ensures IsByte(r) && a <= r && b <= r && r <= a + b
  {
    assert Pow2(8) == 256;
    BitwiseBounds(OrOp, a, b, 8);
    Bitwise(OrOp, a, b, 8)
  }

  /** `a & b` on two bytes: a byte no larger than either operand. */
  function And(a: int, b: int): (r: int)
    requires IsByte(a) && IsByte(b)
    ensures IsByte(r) && r <= a && r <= b
  {
    assert Pow2(8) == 256;
    BitwiseBounds(AndOp, a, b, 8);
    Bitwise(AndOp, a, b, 8)
  }

  /** `a ^ b` on two bytes: a byte no larger than their sum, and 0 exactly when the operands are equal. */
  function Xor(a: int, b: int): (r: int)
    requires IsByte(a) && IsByte(b)
    ensures IsByte(r) && r <= a + b && (r == 0 <==> a == b)
  {
    assert Pow2(8) == 256;
    BitwiseBounds(XorOp, a, b, 8);
    Bitwise(XorOp, a, b, 8)
  }

  predicate IsRegisterFile(v: seq<int>) {
    |v| == NUM_REGISTERS && forall r :: 0 <= r < NUM_REGISTERS ==> IsByte(v[r])
  }

  /**
    The 8xyk register file update, in the engine's order of writes. For k in
    {5, 6, 7, E} VF is written first and Vx is then computed from the register
    file as it is after that write. For k = 4 the sum is taken before either
    write. Selectors 8..D and F change nothing.
  */
  ghost function Logical(v: seq<int>, x: int, y: int, k: int): (r: seq<int>)
    requires IsRegisterFile(v) && 0 <= x < NUM_REGISTERS && 0 <= y < NUM_REGISTERS
    ensures IsRegisterFile(r)
    ensures forall i :: 0 <= i < NUM_REGISTERS && i != x && i != FLAG ==> r[i] == v[i]
  {
    if k == 0 then v[x := v[y]]
    else if k == 1 then v[x := Or(v[x], v[y])]
    else if k == 2 then v[x := And(v[x], v[y])]
    else if k == 3 then v[x := Xor(v[x], v[y])]
    else if k == 4 then
      var value := v[x] + v[y];
      v[FLAG := if value > 0xFF then 1 else 0][x := value % 256]
    else if k == 5 then
      var w := v[FLAG := if v[x] > v[y] then 1 else 0];
      w[x := (w[x] - w[y]) % 256]
    else if k == 6 then
      var w := v[FLAG := v[x] % 2];
      w[x := w[x] / 2]
    else if k == 7 then
      var w := v[FLAG := if v[y] > v[x] then 1 else 0];
      w[x := (w[y] - w[x]) % 256]
    else if k == 0xE then
      var w := v[FLAG := v[x] / 0x80];
      w[x := (w[x] * 2) % 256]
    else v
  }

  /** Dxyn: VF := 0, then the sprite loops; the dirty flag is raised only on completion. */
  ghost function ExecDraw(m: Machine, x: int, y: int, n: int): (o: Outcome)
    requires WellFormed(m) && 0 <= x < NUM_REGISTERS && 0 <= y < NUM_REGISTERS && 0 <= n < 16
    ensures WellFormed(o.after)
    ensures o.after == m.(v := m.v[FLAG := o.after.v[FLAG]], lit := o.after.lit, updateScreen := o.after.updateScreen)
    ensures o.status.Ok? ==> o.status.value == DISPLAY && o.after.updateScreen
    ensures o.status.Err? ==>
      && o.after.updateScreen == m.updateScreen
      && (o.status.fault == SpriteOutOfMemory || o.status.fault == PixelOutOfRange)
  {
    var d := DrawArgs(m.mem, m.index, m.v[x], m.v[y], n);
    match DrawRows(d, m.lit, 0, 0)
    case Drawn(lit, vf) =>
      Outcome(Ok(DISPLAY), m.(v := m.v[FLAG := vf], lit := lit, updateScreen := true))
    case Stopped(fault, lit, vf) =>
      Outcome(Err(fault), m.(v := m.v[FLAG := vf], lit := lit))
  }

  /**
    execute: the two full-word instructions first, then the switch on the
    family. The result is the value the engine returns: the matched constant,
    or 0 for an opcode no case matches.
  */
  ghost function Exec(m: Machine): (o: Outcome)
    requires WellFormed(m)
    ensures WellFormed(o.after)
  {
    var op := m.opcode;
    if op == CLEAR_SCREEN then
      Outcome(Ok(CLEAR_SCREEN), m.(lit := {}))
    else if op == SUBROUTINE_RESTORE then
      if m.stack == [] then Outcome(Err(StackUnderflow), m)
      else Outcome(Ok(SUBROUTINE_RESTORE), m.(pc := m.stack[|m.stack| - 1], stack := m.stack[..|m.stack| - 1]))
    else
      var family, x, y := Instr(op), X(op), Y(op);
      if family == JUMP then
        Outcome(Ok(JUMP), m.(pc := NNN(op)))
      else if family == SET_REGISTER then
        Outcome(Ok(SET_REGISTER), m.(v := m.v[x := KK(op)]))
      else if family == ADD_VALUE then
        Outcome(Ok(ADD_VALUE), m.(v := m.v[x := AddValue(m.v[x], KK(op))]))
      else if family == SET_INDEX then
        Outcome(Ok(SET_INDEX), m.(index := NNN(op)))
      else if family == DISPLAY then
        ExecDraw(m, x, y, N(op))
      else if family == SUBROUTINE_JUMP then
        Outcome(Ok(SUBROUTINE_JUMP), m.(stack := m.stack + [m.pc], pc := NNN(op)))
      else if family == SKIP_IF_VX then
        Outcome(Ok(SKIP_IF_VX), if KK(op) == m.v[x] then m.(pc := m.pc + 2) else m)
      else if family == SKIP_IF_NOT_VX then
        Outcome(Ok(SKIP_IF_NOT_VX), if KK(op) != m.v[x] then m.(pc := m.pc + 2) else m)
      else if family == SKIP_IF_VX_VY then
        Outcome(Ok(SKIP_IF_VX_VY), if m.v[x] == m.v[y] then m.(opcode := op + 2) else m)
      else if family == SKIP_IF_NOT_VX_VY then
        Outcome(Ok(SKIP_IF_NOT_VX_VY), if m.v[x] != m.v[y] then m.(opcode := op + 2) else m)
      else if family == LOGICAL_INSTR then
        Outcome(Ok(LOGICAL_INSTR), m.(v := Logical(m.v, x, y, N(op))))
      else
        Outcome(Ok(0), m)
  }

  /** updateDelayTimer: every 17th call resets the count and lowers a positive timer by one. */
  ghost function TimerTick(m: Machine): (m': Machine)
    requires WellFormed(m)
    ensures WellFormed(m')
    ensures m'.cycleCount == (m.cycleCount + 1) % 17
    ensures m'.delayTimer == if m'.cycleCount == 0 then (if m.delayTimer > 0 then m.delayTimer - 1 else 0) else m.delayTimer
    ensures m' == m.(cycleCount := m'.cycleCount, delayTimer := m'.delayTimer)
  {
    var count := m.cycleCount + 1;
    if count > 16 then
      m.(cycleCount := 0, delayTimer := if m.delayTimer > 0 then m.delayTimer - 1 else m.delayTimer)
    else
      m.(cycleCount := count)
  }

  /**
    The host's key-frame handler: fetch, execute, and when the dirty flag is
    set, redraw and clear it. A fault ends the handler where it is raised.
  */
  ghost function Tick(m: Machine): (o: Outcome)
    requires WellFormed(m)
    ensures WellFormed(o.after)
  {
    var f := Fetch(m);
    if f.status.Err? then f
    else
      var e := Exec(f.after);
      if e.status.Err? || !e.after.updateScreen then e
      else Outcome(e.status, e.after.(updateScreen := false))
  }
}
