/** Sprite drawing for DRW Vx, Vy, n (Dxyn): each sprite row is one byte, its
    most significant bit the leftmost pixel; set bits flip the pixel they land
    on, positions wrap around the 64x32 screen, and the collision flag reports
    whether any lit pixel was turned off. */
module Display {
  import opened Machine
  import opened Bits

  /** Column `col` of a sprite row, counted from the most significant bit:
      the test `byte & (0x80 >> col)` of the drawing loop. */
  predicate SpriteBit(b: Byte, col: nat)
    requires col < 8
  {
    Bit(b, 7 - col)
  }

  /** Framebuffer index of the pixel at column `x`, row `y`, each wrapped to
      the screen: cells are addressed as `x + y * 64`. */
  function PixelAt(x: int, y: int): (p: nat)
    ensures p < ScreenSize
  {
    (x % Width) + (y % Height) * Width
  }

  /** The sprite column that lands on pixel `p` when the sprite's left edge is
      at screen column `vx`. */
  function ColumnOf(p: nat, vx: int): nat
  {
    (p % Width - vx) % Width
  }

  /** The sprite row that lands on pixel `p` when the sprite's top edge is at
      screen row `vy`. */
  function RowOf(p: nat, vy: int): nat
  {
    (p / Width - vy) % Height
  }

  /** Pixel `p` is hit by a set bit of the sprite drawn at (vx, vy). */
  predicate Covers(sprite: seq<Byte>, vx: int, vy: int, p: nat)
  {
    var col, row := ColumnOf(p, vx), RowOf(p, vy);
    col < 8 && row < |sprite| && SpriteBit(sprite[row], col)
  }

  /** The screen after the sprite is XOR-ed onto it. */
  function DrawScreen(g: Screen, sprite: seq<Byte>, vx: Byte, vy: Byte): (r: Screen)
  {
    seq(ScreenSize, p requires 0 <= p < ScreenSize => g[p] != Covers(sprite, vx, vy, p))
  }

  /** Some pixel the sprite hits is lit before the draw. */
  predicate Collides(g: Screen, sprite: seq<Byte>, vx: Byte, vy: Byte)
  {
    exists p :: 0 <= p < ScreenSize && Covers(sprite, vx, vy, p) && g[p]
  }

  /** Sprite column `col` of row `row` lands on pixel `p` exactly when `p`
      maps back to that column and row: placement with wrap-around is a
      bijection between sprite cells and screen cells. */
  lemma PixelAtInverse(p: nat, vx: int, vy: int, col: nat, row: nat)
    requires p < ScreenSize && col < Width && row < Height
    ensures p == PixelAt(vx + col, vy + row) <==> ColumnOf(p, vx) == col && RowOf(p, vy) == row
  {
    var px, py := p % Width, p / Width;
    var tx, ty := (vx + col) % Width, (vy + row) % Height;
    assert py < Height;
    ModShift(px, vx, col, Width);
    ModShift(py, vy, row, Height);
    if p == tx + ty * Width {
      DivMod(p, Width, ty, tx);
    }
  }

  /** Going back `v` from `a` reaches `c` exactly when going forward `c` from
      `v` reaches `a`, modulo `m`. */
  lemma ModShift(a: int, v: int, c: int, m: int)
    requires 0 < m && 0 <= a < m && 0 <= c < m
    ensures (a - v) % m == c <==> a == (v + c) % m
  {
    var q := (a - v) / m;
    if (a - v) % m == c {
      assert v + c == -q * m + a;
      DivMod(v + c, m, -q, a);
    }
    var q' := (v + c) / m;
    if a == (v + c) % m {
      assert a - v == -q' * m + c;
      DivMod(a - v, m, -q', c);
    }
  }

  /** Pixel `p` was hit by a sprite row before `row`, or by a column before
      `col` of row `row`: the part of the sprite the loops have drawn. */
  predicate CoveredBefore(sprite: seq<Byte>, vx: int, vy: int, p: nat, row: nat, col: nat)
  {
    && Covers(sprite, vx, vy, p)
    && (RowOf(p, vy) < row || (RowOf(p, vy) == row && ColumnOf(p, vx) < col))
  }

  /** A lit pixel already drawn over. */
  predicate CollidesBefore(g: Screen, sprite: seq<Byte>, vx: int, vy: int, row: nat, col: nat)
  {
    exists p :: 0 <= p < ScreenSize && CoveredBefore(sprite, vx, vy, p, row, col) && g[p]
  }

  /** Drawing one more column adds exactly the pixel that column lands on. */
  lemma CoverStep(sprite: seq<Byte>, vx: int, vy: int, p: nat, row: nat, col: nat)
    requires p < ScreenSize && row < |sprite| < 16 && col < 8
    ensures CoveredBefore(sprite, vx, vy, p, row, col + 1)
      <==> CoveredBefore(sprite, vx, vy, p, row, col)
           || (SpriteBit(sprite[row], col) && p == PixelAt(vx + col, vy + row))
  {
    PixelAtInverse(p, vx, vy, col, row);
  }

  /** The drawing loops of the DRW handler, written as the C code writes them
      (row by row, column by column, flipping each hit pixel), with the
      coordinates and the flag taken as its comment describes. */
  method DrawSprite(g: Screen, sprite: seq<Byte>, vx: Byte, vy: Byte) returns (r: Screen, collision: bool)
    requires |sprite| < 16
    ensures r == DrawScreen(g, sprite, vx, vy)
    ensures collision == Collides(g, sprite, vx, vy)
  {
    r := g;
    collision := false;
    var row := 0;
    while row < |sprite|
      invariant row <= |sprite|
      invariant forall p :: 0 <= p < ScreenSize ==> r[p] == (g[p] != CoveredBefore(sprite, vx, vy, p, row, 0))
      invariant collision == CollidesBefore(g, sprite, vx, vy, row, 0)
    {
      var col := 0;
      while col < 8
        invariant col <= 8
        invariant forall p :: 0 <= p < ScreenSize ==> r[p] == (g[p] != CoveredBefore(sprite, vx, vy, p, row, col))
        invariant collision == CollidesBefore(g, sprite, vx, vy, row, col)
      {
        if SpriteBit(sprite[row], col) {
          var q := PixelAt(vx + col, vy + row);
          PixelAtInverse(q, vx, vy, col, row);
          forall p | 0 <= p < ScreenSize
            ensures CoveredBefore(sprite, vx, vy, p, row, col + 1)
              <==> CoveredBefore(sprite, vx, vy, p, row, col) || p == q
          {
            CoverStep(sprite, vx, vy, p, row, col);
          }
          assert CoveredBefore(sprite, vx, vy, q, row, col + 1);
          collision := collision || r[q];
          r := r[q := !r[q]];
        } else {
          forall p | 0 <= p < ScreenSize
            ensures CoveredBefore(sprite, vx, vy, p, row, col + 1)
              <==> CoveredBefore(sprite, vx, vy, p, row, col)
          {
            CoverStep(sprite, vx, vy, p, row, col);
          }
        }
        col := col + 1;
      }
      row := row + 1;
    }
    assert forall p :: 0 <= p < ScreenSize ==>
      (CoveredBefore(sprite, vx, vy, p, row, 0) <==> Covers(sprite, vx, vy, p));
  }

  /** Each set bit (row, col) of the sprite flips the pixel at
      ((vx + col) mod 64, (vy + row) mod 32). */
  lemma DrawFlipsSpriteBits(g: Screen, sprite: seq<Byte>, vx: Byte, vy: Byte)
    requires |sprite| < 16
    ensures forall row, col :: 0 <= row < |sprite| && 0 <= col < 8 ==>
      var p := PixelAt(vx + col, vy + row);
      DrawScreen(g, sprite, vx, vy)[p] == (g[p] != SpriteBit(sprite[row], col))
  {
    forall row, col | 0 <= row < |sprite| && 0 <= col < 8
      ensures var p := PixelAt(vx + col, vy + row);
        DrawScreen(g, sprite, vx, vy)[p] == (g[p] != SpriteBit(sprite[row], col))
    {
      PixelAtInverse(PixelAt(vx + col, vy + row), vx, vy, col, row);
    }
  }

  /** No set bit of the sprite lands on pixel `p`. */
  predicate Missed(sprite: seq<Byte>, vx: int, vy: int, p: nat)
  {
    forall row, col :: 0 <= row < |sprite| && 0 <= col < 8 && SpriteBit(sprite[row], col) ==>
      p != PixelAt(vx + col, vy + row)
  }

  /** A covered pixel is the landing place of the set bit it is covered by. */
  lemma CoveredIsLanding(sprite: seq<Byte>, vx: int, vy: int, p: nat)
    requires p < ScreenSize && Covers(sprite, vx, vy, p)
    ensures !Missed(sprite, vx, vy, p)
  {
    var row, col := RowOf(p, vy), ColumnOf(p, vx);
    PixelAtInverse(p, vx, vy, col, row);
    assert SpriteBit(sprite[row], col) && p == PixelAt(vx + col, vy + row);
  }

  /** Every pixel no set bit lands on keeps its value. */
  lemma DrawKeepsMissedPixels(g: Screen, sprite: seq<Byte>, vx: Byte, vy: Byte)
    requires |sprite| < 16
    ensures forall p :: 0 <= p < ScreenSize && Missed(sprite, vx, vy, p) ==>
      DrawScreen(g, sprite, vx, vy)[p] == g[p]
  {
    forall p | 0 <= p < ScreenSize && Covers(sprite, vx, vy, p)
      ensures !Missed(sprite, vx, vy, p)
    {
      CoveredIsLanding(sprite, vx, vy, p);
    }
  }

  /** The flag is set exactly when a pixel lit before the draw is hit by a
      set bit of the sprite. */
  lemma CollisionMeansErased(g: Screen, sprite: seq<Byte>, vx: Byte, vy: Byte)
    requires |sprite| < 16
    ensures Collides(g, sprite, vx, vy) <==>
      exists p :: 0 <= p < ScreenSize && g[p] && !DrawScreen(g, sprite, vx, vy)[p]
  {
  }

  /** Drawing the same sprite twice at the same place restores the screen;
      the second draw reports a collision exactly when the sprite hit a
      pixel that was dark before the first. */
  lemma DrawTwice(g: Screen, sprite: seq<Byte>, vx: Byte, vy: Byte)
    requires |sprite| < 16
    ensures DrawScreen(DrawScreen(g, sprite, vx, vy), sprite, vx, vy) == g
    ensures Collides(DrawScreen(g, sprite, vx, vy), sprite, vx, vy)
      <==> exists p :: 0 <= p < ScreenSize && Covers(sprite, vx, vy, p) && !g[p]
  {
    var once := DrawScreen(g, sprite, vx, vy);
    assert forall p :: 0 <= p < ScreenSize ==> DrawScreen(once, sprite, vx, vy)[p] == g[p];
  }

  /** On a blank screen the first draw reports no collision, and the second
      reports one exactly when the sprite has a set bit. */
  lemma DrawTwiceOnBlank(sprite: seq<Byte>, vx: Byte, vy: Byte)
    requires |sprite| < 16
    ensures !Collides(BlankScreen(), sprite, vx, vy)
    ensures DrawScreen(DrawScreen(BlankScreen(), sprite, vx, vy), sprite, vx, vy) == BlankScreen()
    ensures Collides(DrawScreen(BlankScreen(), sprite, vx, vy), sprite, vx, vy)
      <==> exists row, col :: 0 <= row < |sprite| && 0 <= col < 8 && SpriteBit(sprite[row], col)
  {
    DrawTwice(BlankScreen(), sprite, vx, vy);
    if exists row, col :: 0 <= row < |sprite| && 0 <= col < 8 && SpriteBit(sprite[row], col) {
      var row, col :| 0 <= row < |sprite| && 0 <= col < 8 && SpriteBit(sprite[row], col);
      var p := PixelAt(vx + col, vy + row);
      PixelAtInverse(p, vx, vy, col, row);
      assert Covers(sprite, vx, vy, p);
    }
  }

  /** A sprite drawn at column 60 puts its columns 4..7 at screen columns
      0..3 of the same row. */
  lemma WrapAtRightEdge(col: nat, vy: int)
    requires 4 <= col < 8
    ensures PixelAt(60 + col, vy) == col - 4 + (vy % Height) * Width
  {
  }
}
