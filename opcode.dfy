/**
  Constants of the CHIP-8 engine and the pure decoding of a 16-bit
  instruction word into its nibble fields.

  The engine extracts fields with a mask and a shift (`(op & 0x0F00) >> 8`);
  on a non-negative word a mask of consecutive bits followed by a shift is a
  division and a remainder, which is how the fields are written here.
*/
module Opcode {

  const MEM_SIZE := 4096
  const MEM_START := 0x200
  const NUM_REGISTERS := 16
  const FLAG := 0xF          // register VF: carry, borrow and collision flag

  // Full-word instructions, checked before the family dispatch.
  const CLEAR_SCREEN := 0xE0
  const SUBROUTINE_RESTORE := 0xEE

  // Instruction families, i.e. the value of `opcode & 0xF000`.
  const JUMP := 0x1000
  const SUBROUTINE_JUMP := 0x2000
  const SKIP_IF_VX := 0x3000
  const SKIP_IF_NOT_VX := 0x4000
  const SKIP_IF_VX_VY := 0x5000
  const SET_REGISTER := 0x6000
  const ADD_VALUE := 0x7000
  const LOGICAL_INSTR := 0x8000
  const SKIP_IF_NOT_VX_VY := 0x9000
  const SET_INDEX := 0xA000
  const DISPLAY := 0xD000
  const FUNCTIONS := 0xF000  // declared by the engine, but no case dispatches on it

  predicate IsByte(b: int) { 0 <= b < 256 }

  predicate IsWord(w: int) { 0 <= w < 0x10000 }

  /** A signed Java `byte`, as a loaded program image delivers it. */
  type JavaByte = b: int | -128 <= b < 128

  /** `b & 0xFF`: the unsigned value with the same low eight bits. */
  function Unsigned(b: JavaByte): (u: int)
    ensures IsByte(u)
    ensures (u - b) % 256 == 0
  {
    if b < 0 then b + 256 else b
  }

  /** The signed reading of an unsigned byte (the inverse of `Unsigned`). */
  function Signed(u: int): (b: JavaByte)
    requires IsByte(u)
    ensures (u - b) % 256 == 0
  {
    if u < 128 then u else u - 256
  }

  lemma UnsignedSigned(b: JavaByte, u: int)
    requires IsByte(u)
    ensures Signed(Unsigned(b)) == b
    ensures Unsigned(Signed(u)) == u
  {
  }

  /**
    The big-endian word `hi << 8 | lo` formed by two memory cells; since
    `lo` has no bit above bit 7, the `|` is an addition. Both bytes are
    recovered from the word.
  */
  function Word(hi: int, lo: int): (w: int)
    requires IsByte(hi) && IsByte(lo)
    ensures IsWord(w)
    ensures w / 256 == hi && w % 256 == lo
  {
    hi * 256 + lo
  }

  /** `opcode & 0xF000`: the word with its low twelve bits cleared. */
  function Instr(op: int): (f: int)
    requires IsWord(op)
    ensures f % 0x1000 == 0 && 0 <= f <= 0xF000
    ensures f <= op < f + 0x1000
  {
    op / 0x1000 * 0x1000
  }

  /** `(opcode & 0x0F00) >> 8`: the first register operand. */
  function X(op: int): (x: int)
    ensures 0 <= x < NUM_REGISTERS
  {
    op / 0x100 % 16
  }

  /** `(opcode & 0x00F0) >> 4`: the second register operand. */
  function Y(op: int): (y: int)
    ensures 0 <= y < NUM_REGISTERS
  {
    op / 0x10 % 16
  }

  /** `opcode & 0x000F`: the low nibble (sprite height, ALU selector). */
  function N(op: int): (n: int)
    ensures 0 <= n < 16
  {
    op % 0x10
  }

  /** `opcode & 0x00FF`: the immediate byte. */
  function KK(op: int): (kk: int)
    ensures IsByte(kk)
  {
    op % 0x100
  }

  /** `opcode & 0x0FFF`: the twelve-bit address. */
  function NNN(op: int): (nnn: int)
    ensures 0 <= nnn < MEM_SIZE
  {
    op % 0x1000
  }

  /** `2^k`. */
  function Pow2(k: nat): (p: int)
    ensures p >= 1
  {
    if k == 0 then 1 else 2 * Pow2(k - 1)
  }

  /** Java's three bitwise operators on `int`. */
  datatype BitOp = OrOp | AndOp | XorOp

  /** The operator on one binary digit of each operand. */
  function DigitOp(op: BitOp, a: int, b: int): int {
    match op
    case OrOp => if a == 1 || b == 1 then 1 else 0
    case AndOp => if a == 1 && b == 1 then 1 else 0
    case XorOp => if a != b then 1 else 0
  }

  /**
    `a | b`, `a & b` or `a ^ b` on non-negative values below `2^width`: the
    operator applied to each pair of binary digits, least significant first.
  */
  function Bitwise(op: BitOp, a: int, b: int, width: nat): int
    requires 0 <= a < Pow2(width) && 0 <= b < Pow2(width)
    decreases width
  {
    if width == 0 then 0
    else 2 * Bitwise(op, a / 2, b / 2, width - 1) + DigitOp(op, a % 2, b % 2)
  }

  /**
    The result fits the same width; an `|` is at least either operand and at
    most their sum, an `&` at most either operand, and an `^` is 0 exactly
    when the operands are equal.
  */
  lemma {:induction false} BitwiseBounds(op: BitOp, a: int, b: int, width: nat)
    requires 0 <= a < Pow2(width) && 0 <= b < Pow2(width)
    ensures var r := Bitwise(op, a, b, width);
      && 0 <= r < Pow2(width)
      && (op == OrOp ==> a <= r && b <= r && r <= a + b)
      && (op == AndOp ==> r <= a && r <= b)
      && (op == XorOp ==> r <= a + b && (r == 0 <==> a == b))
    decreases width
  {
    if width > 0 {
      BitwiseBounds(op, a / 2, b / 2, width - 1);
    }
  }

  lemma {:induction false} Pow2Below(k: nat, width: nat)
    requires k < width
    ensures Pow2(k) < Pow2(width)
    decreases width
  {
    if k < width - 1 {
      Pow2Below(k, width - 1);
    }
  }

  lemma {:induction false} AndZero(a: int, width: nat)
    requires 0 <= a < Pow2(width)
    ensures Bitwise(AndOp, a, 0, width) == 0
    decreases width
  {
    if width > 0 {
      AndZero(a / 2, width - 1);
    }
  }

  /** Binary digit `k` of `a`, counted from the least significant one. */
  function Digit(a: int, k: nat): (d: int)
    requires a >= 0
    ensures d == 0 || d == 1
  {
    if k == 0 then a % 2 else Digit(a / 2, k - 1)
  }

  /**
    Masking with a single power of two keeps exactly that binary digit:
    `a & 2^k` is `2^k` when digit k of `a` is 1, and 0 otherwise.
  */
  lemma {:induction false} AndPower(a: int, k: nat, width: nat)
    requires k < width && 0 <= a < Pow2(width)
    ensures Pow2(k) < Pow2(width)
    ensures Bitwise(AndOp, a, Pow2(k), width) == if Digit(a, k) == 1 then Pow2(k) else 0
    decreases k
  {
    Pow2Below(k, width);
    if k == 0 {
      AndZero(a / 2, width - 1);
    } else {
      AndPower(a / 2, k - 1, width - 1);
    }
  }

  /**
    The fields partition the word: the family, x, y and n put back together
    give the word again, and kk and nnn are the low byte and low twelve bits
    made of the same nibbles.
  */
  lemma Reassemble(op: int)
    requires IsWord(op)
    ensures op == Instr(op) + X(op) * 0x100 + Y(op) * 0x10 + N(op)
    ensures KK(op) == Y(op) * 0x10 + N(op)
    ensures NNN(op) == X(op) * 0x100 + KK(op)
  {
    var q := op / 0x10;
    assert op == q * 0x10 + N(op);
    assert q == q / 0x10 * 0x10 + Y(op);
    assert op / 0x100 == q / 0x10;
    var h := op / 0x100;
    assert h == h / 0x10 * 0x10 + X(op);
    assert op / 0x1000 == h / 0x10;
  }
}
