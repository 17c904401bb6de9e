/**
  What the sprite instruction Dxyn does to the lit set and to VF.

  `DrawRows`/`DrawCols` follow the engine's two nested loops step by step,
  in the same order: a row is read from `memory[I + row]`, then each of its
  eight bits from the most significant one; a set bit first tests the cell
  (raising VF on a collision) and then toggles it. A row address past the end
  of memory, or a set bit whose cell lies outside the grid, stops the drawing
  where it stands, with the cells toggled so far left toggled.

  `Hits` is an independent description of the same sprite: the set of
  coordinates `(vx + col, vy + row)` whose sprite bit is set. The lemma
  `DrawEffect` relates the two.
*/
module Sprite {
  import opened Opcode
  import opened Faults
  import opened Display

  /** The values the instruction works from: memory, I, Vx, Vy and n. */
  datatype DrawArgs = DrawArgs(mem: seq<int>, index: int, vx: int, vy: int, height: int)
  {
    ghost predicate Valid() {
      |mem| == MEM_SIZE && (forall a :: 0 <= a < MEM_SIZE ==> IsByte(mem[a])) &&
      0 <= index < MEM_SIZE && IsByte(vx) && IsByte(vy) && 0 <= height < 16
    }
  }

  /** Where a drawing ends: the lit set and VF, and the fault if it stopped early. */
  datatype Drawing =
    | Drawn(lit: set<(int, int)>, vf: int)
    | Stopped(fault: Fault, lit: set<(int, int)>, vf: int)

  /** Bit `col` of a sprite row, counted from the most significant one. */
  predicate Bit(sprite: int, col: int)
    requires IsByte(sprite) && 0 <= col < 8
  {
    Digit(sprite, 7 - col) == 1
  }

  /**
    The engine's test `(sprite & (0x80 >>> col)) != 0` is `Bit`: the mask
    `0x80 >>> col` is `2^(7 - col)`, and masking with it keeps that digit only.
  */
  lemma BitMask(sprite: int, col: int)
    requires IsByte(sprite) && 0 <= col < 8
    ensures Pow2(7 - col) < 256
    ensures Bitwise(AndOp, sprite, Pow2(7 - col), 8) != 0 <==> Bit(sprite, col)
  {
    assert Pow2(8) == 256;
    AndPower(sprite, 7 - col, 8);
  }

  ghost predicate OnScreenSet(s: set<(int, int)>) {
    forall p :: p in s ==> OnScreen(p)
  }

  /** The outer loop, from sprite row `row` on. */
  ghost function DrawRows(d: DrawArgs, lit: set<(int, int)>, vf: int, row: int): (r: Drawing)
    requires d.Valid() && 0 <= row <= d.height
    ensures OnScreenSet(lit) ==> OnScreenSet(r.lit)
    ensures (vf == 0 || vf == 1) ==> (r.vf == 0 || r.vf == 1)
    ensures r.Stopped? ==> r.fault == SpriteOutOfMemory || r.fault == PixelOutOfRange
    decreases d.height - row, 1, 0
  {
    if row == d.height then Drawn(lit, vf)
    else if d.index + row >= MEM_SIZE then Stopped(SpriteOutOfMemory, lit, vf)
    else DrawCols(d, lit, vf, row, 0)
  }

  /** The inner loop over the eight bits of sprite row `row`, from bit `col` on. */
  ghost function DrawCols(d: DrawArgs, lit: set<(int, int)>, vf: int, row: int, col: int): (r: Drawing)
    requires d.Valid() && 0 <= row < d.height && d.index + row < MEM_SIZE && 0 <= col <= 8
    ensures OnScreenSet(lit) ==> OnScreenSet(r.lit)
    ensures (vf == 0 || vf == 1) ==> (r.vf == 0 || r.vf == 1)
    ensures r.Stopped? ==> r.fault == SpriteOutOfMemory || r.fault == PixelOutOfRange
    decreases d.height - row, 0, 8 - col
  {
    if col == 8 then DrawRows(d, lit, vf, row + 1)
    else if !Bit(d.mem[d.index + row], col) then DrawCols(d, lit, vf, row, col + 1)
    else
      var p := (d.vx + col, d.vy + row);
      if !OnScreen(p) then Stopped(PixelOutOfRange, lit, vf)
      else DrawCols(d, Flip(lit, {p}), if p in lit then 1 else vf, row, col + 1)
  }

  /**
    Coordinate `p` is covered by a set sprite bit at row `row` and bit `col`
    or later in the loops' order (and its row is inside memory).
  */
  ghost predicate Covers(d: DrawArgs, row: int, col: int, p: (int, int))
    requires d.Valid()
  {
    var r, c := p.1 - d.vy, p.0 - d.vx;
    0 <= row <= r < d.height && 0 <= c < 8 && (r > row || c >= col) &&
    d.index + r < MEM_SIZE && Bit(d.mem[d.index + r], c)
  }

  /** The coordinates the rest of the sprite toggles, from row `row`, bit `col` on. */
  ghost function Hits(d: DrawArgs, row: int, col: int): set<(int, int)>
    requires d.Valid()
  {
    set x, y | d.vx <= x < d.vx + 8 && d.vy <= y < d.vy + d.height && Covers(d, row, col, (x, y)) :: (x, y)
  }

  /** The rest of the sprite can be drawn: its rows are in memory and its set bits on the grid. */
  ghost predicate FitsFrom(d: DrawArgs, row: int, col: int)
    requires d.Valid()
  {
    (row < d.height ==> d.index + d.height <= MEM_SIZE) && OnScreenSet(Hits(d, row, col))
  }

  /** The whole sprite, and the condition under which it draws without a fault. */
  ghost function SpriteCells(d: DrawArgs): set<(int, int)>
    requires d.Valid()
  {
    Hits(d, 0, 0)
  }

  ghost predicate Fits(d: DrawArgs)
    requires d.Valid()
  {
    FitsFrom(d, 0, 0)
  }

  lemma HitsMember(d: DrawArgs, row: int, col: int, p: (int, int))
    requires d.Valid()
    ensures p in Hits(d, row, col) <==> Covers(d, row, col, p)
  {
    if Covers(d, row, col, p) {
      var x, y := p.0, p.1;
      assert (x, y) in Hits(d, row, col);
    }
  }

  /** After the last bit of a row the rest of the sprite is the next rows. */
  lemma HitsNextRow(d: DrawArgs, row: int)
    requires d.Valid() && 0 <= row < d.height
    ensures Hits(d, row, 8) == Hits(d, row + 1, 0)
  {
    forall p | p in Hits(d, row, 8) + Hits(d, row + 1, 0)
      ensures p in Hits(d, row, 8) <==> p in Hits(d, row + 1, 0)
    {
      HitsMember(d, row, 8, p);
      HitsMember(d, row + 1, 0, p);
    }
  }

  /** Bit `col` of a row contributes its own coordinate, if set, and no other. */
  lemma HitsStep(d: DrawArgs, row: int, col: int)
    requires d.Valid() && 0 <= row < d.height && d.index + row < MEM_SIZE && 0 <= col < 8
    ensures var p := (d.vx + col, d.vy + row);
      && p !in Hits(d, row, col + 1)
      && Hits(d, row, col) == (if Bit(d.mem[d.index + row], col) then {p} else {}) + Hits(d, row, col + 1)
  {
    var p := (d.vx + col, d.vy + row);
    var here: set<(int, int)> := if Bit(d.mem[d.index + row], col) then {p} else {};
    HitsMember(d, row, col + 1, p);
    forall q | q in Hits(d, row, col) + here + Hits(d, row, col + 1)
      ensures q in Hits(d, row, col) <==> q in here + Hits(d, row, col + 1)
    {
      HitsMember(d, row, col, q);
      HitsMember(d, row, col + 1, q);
    }
  }

  /** No sprite row is left once the rows are used up. */
  lemma HitsDone(d: DrawArgs)
    requires d.Valid()
    ensures Hits(d, d.height, 0) == {}
  {
    forall p | p in Hits(d, d.height, 0) ensures false {
      HitsMember(d, d.height, 0, p);
    }
  }

  /**
    The sprite loops draw without a fault exactly when the rest of the sprite
    fits; they then toggle exactly the sprite's coordinates, and VF ends 1
    when one of them was lit beforehand and keeps its value otherwise.
  */
  lemma {:induction false} DrawRowsEffect(d: DrawArgs, lit: set<(int, int)>, vf: int, row: int)
    requires d.Valid() && 0 <= row <= d.height
    ensures DrawRows(d, lit, vf, row).Drawn? <==> FitsFrom(d, row, 0)
    ensures FitsFrom(d, row, 0) ==>
      DrawRows(d, lit, vf, row) == Drawn(Flip(lit, Hits(d, row, 0)), if lit * Hits(d, row, 0) != {} then 1 else vf)
    decreases d.height - row, 1, 0
  {
    if row == d.height {
      HitsDone(d);
    } else if d.index + row >= MEM_SIZE {
    } else {
      DrawColsEffect(d, lit, vf, row, 0);
    }
  }

  lemma {:induction false} DrawColsEffect(d: DrawArgs, lit: set<(int, int)>, vf: int, row: int, col: int)
    requires d.Valid() && 0 <= row < d.height && d.index + row < MEM_SIZE && 0 <= col <= 8
    ensures DrawCols(d, lit, vf, row, col).Drawn? <==> FitsFrom(d, row, col)
    ensures FitsFrom(d, row, col) ==>
      DrawCols(d, lit, vf, row, col) == Drawn(Flip(lit, Hits(d, row, col)), if lit * Hits(d, row, col) != {} then 1 else vf)
    decreases d.height - row, 0, 8 - col
  {
    if col == 8 {
      HitsNextRow(d, row);
      DrawRowsEffect(d, lit, vf, row + 1);
    } else {
      var p := (d.vx + col, d.vy + row);
      var rest := Hits(d, row, col + 1);
      HitsStep(d, row, col);
      if !Bit(d.mem[d.index + row], col) {
        DrawColsEffect(d, lit, vf, row, col + 1);
      } else if !OnScreen(p) {
        assert p in Hits(d, row, col);
      } else {
        var lit' := Flip(lit, {p});
        var vf' := if p in lit then 1 else vf;
        DrawColsEffect(d, lit', vf', row, col + 1);
        assert Flip(lit', rest) == Flip(lit, {p} + rest);
        assert lit' * rest == lit * rest;
        assert lit * ({p} + rest) == (if p in lit then {p} else {}) + lit * rest;
      }
    }
  }

  /**
    The whole instruction: it completes exactly when the sprite fits, and
    then the lit set is XORed with the sprite's cells and VF (reset to 0
    first) ends 1 exactly when one of those cells was lit before.
  */
  lemma DrawEffect(d: DrawArgs, lit: set<(int, int)>)
    requires d.Valid()
    ensures DrawRows(d, lit, 0, 0).Drawn? <==> Fits(d)
    ensures Fits(d) ==> DrawRows(d, lit, 0, 0) == Drawn(Flip(lit, SpriteCells(d)), if lit * SpriteCells(d) != {} then 1 else 0)
  {
    DrawRowsEffect(d, lit, 0, 0);
  }
}
