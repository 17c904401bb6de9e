/**
  The 64 x 32 frame buffer. The engine sees it through three operations:
  read one cell, XOR-toggle one cell, clear everything. Abstractly the grid
  is the set of lit coordinates, and toggling is a symmetric difference.
*/
module Display {

  const WIDTH := 64
  const HEIGHT := 32

  predicate OnScreen(p: (int, int)) {
    0 <= p.0 < WIDTH && 0 <= p.1 < HEIGHT
  }

  /** The lit set after toggling every coordinate of `s` once. */
  ghost function Flip(lit: set<(int, int)>, s: set<(int, int)>): set<(int, int)> {
    (lit - s) + (s - lit)
  }

  /** A coordinate is lit after the flip exactly when it was lit or toggled, but not both. */
  lemma FlipMember(lit: set<(int, int)>, s: set<(int, int)>, p: (int, int))
    ensures p in Flip(lit, s) <==> (p in lit <==> p !in s)
  {
  }

  /** XOR is self-inverse: toggling the same coordinates twice restores the grid. */
  lemma FlipTwice(lit: set<(int, int)>, s: set<(int, int)>)
    ensures Flip(Flip(lit, s), s) == lit
  {
  }

  /** Toggling on-screen coordinates keeps every lit coordinate on the screen. */
  lemma FlipOnScreen(lit: set<(int, int)>, s: set<(int, int)>)
    requires forall p :: p in lit ==> OnScreen(p)
    requires forall p :: p in s ==> OnScreen(p)
    ensures forall p :: p in Flip(lit, s) ==> OnScreen(p)
  {
  }

  class Screen {
    /** `pixels[x, y]` is the cell in column x and row y, 0 (dark) or 1 (lit). */
    var pixels: array2<int>

    ghost predicate Valid()
      reads this, pixels
    {
      pixels.Length0 == WIDTH && pixels.Length1 == HEIGHT &&
      forall x, y :: 0 <= x < WIDTH && 0 <= y < HEIGHT ==> pixels[x, y] == 0 || pixels[x, y] == 1
    }

    /** The coordinates of the lit cells. */
    ghost function Lit(): (s: set<(int, int)>)
      reads this, pixels
      requires Valid()
      ensures forall p :: p in s ==> OnScreen(p)
      ensures forall x, y :: 0 <= x < WIDTH && 0 <= y < HEIGHT ==> ((x, y) in s <==> pixels[x, y] == 1)
    {
      set x, y | 0 <= x < WIDTH && 0 <= y < HEIGHT && pixels[x, y] == 1 :: (x, y)
    }

    /** A new grid has every cell dark. */
    constructor ()
      ensures Valid() && fresh(pixels)
      ensures Lit() == {}
    {
      pixels := new int[WIDTH, HEIGHT]((x, y) => 0);
    }

    /** Replaces the grid by a new, all-dark one. */
    method Clear()
      modifies this
      ensures Valid() && fresh(pixels)
      ensures forall x, y :: 0 <= x < WIDTH && 0 <= y < HEIGHT ==> pixels[x, y] == 0
      ensures Lit() == {}
    {
      pixels := new int[WIDTH, HEIGHT]((x, y) => 0);
    }

    /** Reads one cell; the coordinates index the grid directly, with no wrap. */
    function GetPixel(x: int, y: int): (p: int)
      reads this, pixels
      requires Valid() && OnScreen((x, y))
      ensures p == 0 || p == 1
      ensures p == 1 <==> (x, y) in Lit()
    {
      pixels[x, y]
    }

    /** XORs one cell with 1 and leaves every other cell as it was. */
    method UpdatePixel(x: int, y: int)
      requires Valid() && OnScreen((x, y))
      modifies pixels
      ensures Valid()
      ensures pixels[x, y] == 1 - old(pixels[x, y])
      ensures forall a, b :: 0 <= a < WIDTH && 0 <= b < HEIGHT && (a, b) != (x, y) ==> pixels[a, b] == old(pixels[a, b])
      ensures Lit() == Flip(old(Lit()), {(x, y)})
    {
      // The cell holds 0 or 1, so `^= 1` is `1 - cell`.
      pixels[x, y] := 1 - pixels[x, y];
      forall p | p in Lit() + Flip(old(Lit()), {(x, y)})
        ensures p in Lit() <==> p in Flip(old(Lit()), {(x, y)})
      {
        FlipMember(old(Lit()), {(x, y)}, p);
      }
    }
  }
}
