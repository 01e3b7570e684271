/** The monochrome screen: 32 rows of 64 pixels, cleared by rebinding
    the grid and drawn on by XOR-ing sprite bits in, most significant bit
    first, wrapping at both edges. Pure functions on `Screen` values state
    what a draw does; the class `Display` performs it cell by cell and is
    proved against them. */
module Display {
  import opened Common

  const Height: nat := 32
  const Width: nat := 64

  /** Pixels per sprite row: the digits of a byte's 8-digit binary rendering. */
  const SpriteWidth: nat := 8

  /** The screen as rows of pixels; `g[y][x]` is the pixel in row y, column x. */
  type Screen = seq<seq<bool>>

  predicate WellFormed(g: Screen)
  {
    |g| == Height && forall y :: 0 <= y < |g| ==> |g[y]| == Width
  }

  /** The screen with every pixel off. */
  function Blank(): (g: Screen)
    ensures WellFormed(g)
    ensures forall y, x :: 0 <= y < Height && 0 <= x < Width ==> !g[y][x]
  {
    seq(Height, _ => seq(Width, _ => false))
  }

  /** Bit `j` of the 8-digit binary rendering of `b`, counting from the
      most significant digit. */
  function Bit(b: byte, j: nat): bool
    requires j < SpriteWidth
  {
    ((b as bv8) >> (7 - j)) & 1 == 1
  }

  /** Column that sprite column `j` lands on when the sprite's left edge is
      at `x0`, and row that sprite row `i` lands on when its top is at `y0`. */
  function Col(x0: int, j: int): nat { (x0 + j) % Width }
  function Row(y0: int, i: int): nat { (y0 + i) % Height }

  /** Which sprite column covers screen column `x` (meaningful below 8). */
  function Offset(x0: int, x: int): nat { (x - x0) % Width }

  /** Which pixels count towards the collision flag. */
  datatype CollisionRule =
    | AnyVisitedCell  // every lit pixel the 8-wide footprint passes over
    | SetBitsOnly     // only lit pixels under a 1 bit of the sprite

  /** One step of the inner drawing loop: report whether the visited pixel
      counts as a collision, then XOR the sprite bit into it. */
  function Visit(g: Screen, y: nat, x: nat, bit: bool, rule: CollisionRule): (r: (Screen, bool))
    requires WellFormed(g) && y < Height && x < Width
    ensures WellFormed(r.0)
  {
    (g[y := g[y][x := g[y][x] != bit]], g[y][x] && (rule == AnyVisitedCell || bit))
  }

  /** The first `j` columns of one sprite row drawn into screen row `y`. */
  function DrawRow(g: Screen, x0: int, y: nat, b: byte, j: nat, rule: CollisionRule): (r: (Screen, bool))
    requires WellFormed(g) && y < Height && j <= SpriteWidth
    ensures WellFormed(r.0)
    decreases j
  {
    if j == 0 then (g, false)
    else
      var (h, hit) := DrawRow(g, x0, y, b, j - 1, rule);
      var (h', hit') := Visit(h, y, Col(x0, j - 1), Bit(b, j - 1), rule);
      (h', hit || hit')
  }

  /** The first `n` rows of a sprite drawn with its top-left corner at (x0, y0). */
  function DrawRows(g: Screen, x0: int, y0: int, sprite: seq<byte>, n: nat, rule: CollisionRule): (r: (Screen, bool))
    requires WellFormed(g) && n <= |sprite|
    ensures WellFormed(r.0)
    decreases n
  {
    if n == 0 then (g, false)
    else
      var (h, hit) := DrawRows(g, x0, y0, sprite, n - 1, rule);
      var (h', hit') := DrawRow(h, x0, Row(y0, n - 1), sprite[n - 1], SpriteWidth, rule);
      (h', hit || hit')
  }

  /** `draw_sprite`: the new screen and the collision flag. */
  function Draw(g: Screen, x0: int, y0: int, sprite: seq<byte>, rule: CollisionRule): (Screen, bool)
    requires WellFormed(g)
  {
    DrawRows(g, x0, y0, sprite, |sprite|, rule)
  }

  // ---------------------------------------------------------------------
  // An independent, pixel-wise description of a draw.

  /** Whether sprite row `i` has a 1 bit over pixel (y, x). */
  predicate Covers(x0: int, y0: int, sprite: seq<byte>, i: nat, y: nat, x: nat)
    requires i < |sprite|
  {
    Row(y0, i) == y && Offset(x0, x) < SpriteWidth && Bit(sprite[i], Offset(x0, x))
  }

  /** Whether an odd number of the first `n` sprite rows cover (y, x). */
  function Flipped(x0: int, y0: int, sprite: seq<byte>, n: nat, y: nat, x: nat): bool
    requires n <= |sprite|
  {
    if n == 0 then false
    else Flipped(x0, y0, sprite, n - 1, y, x) != Covers(x0, y0, sprite, n - 1, y, x)
  }

  /** Sprite column `j` lands on column `x` exactly when `x` is `j` columns
      right of the origin, counting with wrap-around. */
  lemma ColOffset(x0: int, j: nat, x: nat)
    requires j < Width && x < Width
    ensures Col(x0, j) == x <==> Offset(x0, x) == j
  {
    var q := (x0 + j) / Width;
    assert x0 + j == q * Width + Col(x0, j);
    if Col(x0, j) == x {
      assert x - x0 == j + (-q) * Width;
    }
    if Offset(x0, x) == j {
      var p := (x - x0) / Width;
      assert x0 + j == x + (-p) * Width;
    }
  }

  /** Two sprite rows less than a screen height apart land on different rows. */
  lemma RowsDistinct(y0: int, i: nat, k: nat)
    requires i < k < i + Height
    ensures Row(y0, i) != Row(y0, k)
  {
  }

  /** Drawing `j` columns of a row flips pixel (y', x) exactly when it is in
      that row under a 1 bit of one of those columns. */
  lemma {:induction false} DrawRowPixel(g: Screen, x0: int, y: nat, b: byte, j: nat, rule: CollisionRule, y': nat, x: nat)
    requires WellFormed(g) && y < Height && j <= SpriteWidth && y' < Height && x < Width
    ensures DrawRow(g, x0, y, b, j, rule).0[y'][x]
      == (g[y'][x] != (y' == y && Offset(x0, x) < j && Bit(b, Offset(x0, x))))
  {
    if j > 0 {
      DrawRowPixel(g, x0, y, b, j - 1, rule, y', x);
      ColOffset(x0, j - 1, x);
    }
  }

  /** Drawing the first `n` rows flips a pixel exactly when an odd number of
      them have a 1 bit over it. */
  lemma {:induction false} DrawRowsPixel(g: Screen, x0: int, y0: int, sprite: seq<byte>, n: nat, rule: CollisionRule, y: nat, x: nat)
    requires WellFormed(g) && n <= |sprite| && y < Height && x < Width
    ensures DrawRows(g, x0, y0, sprite, n, rule).0[y][x] == (g[y][x] != Flipped(x0, y0, sprite, n, y, x))
  {
    if n > 0 {
      var m := n - 1;
      DrawRowsPixel(g, x0, y0, sprite, m, rule, y, x);
      DrawRowsPixelStep(g, x0, y0, sprite, m, rule, y, x);
    }
  }

  /** Drawing row `m` on top of the first `m` rows flips pixel (y, x)
      exactly when row `m` has a 1 bit over it. */
  lemma DrawRowsPixelStep(g: Screen, x0: int, y0: int, sprite: seq<byte>, m: nat, rule: CollisionRule, y: nat, x: nat)
    requires WellFormed(g) && m < |sprite| && y < Height && x < Width
    requires DrawRows(g, x0, y0, sprite, m, rule).0[y][x] == (g[y][x] != Flipped(x0, y0, sprite, m, y, x))
    ensures DrawRows(g, x0, y0, sprite, m + 1, rule).0[y][x] == (g[y][x] != Flipped(x0, y0, sprite, m + 1, y, x))
  {
    var h := DrawRows(g, x0, y0, sprite, m, rule).0;
    var row := DrawRow(h, x0, Row(y0, m), sprite[m], SpriteWidth, rule).0;
    assert DrawRows(g, x0, y0, sprite, m + 1, rule).0 == row by {
      DrawRowsStep(g, x0, y0, sprite, m, rule);
    }
    assert row[y][x] == (h[y][x] != Covers(x0, y0, sprite, m, y, x)) by {
      DrawRowPixel(h, x0, Row(y0, m), sprite[m], SpriteWidth, rule, y, x);
    }
  }

  /** A draw XORs the sprite into the screen: pixel (y, x) ends up flipped
      exactly when an odd number of sprite rows have a 1 bit over it, and
      keeps its value everywhere else; the collision rule does not matter. */
  lemma DrawPixel(g: Screen, x0: int, y0: int, sprite: seq<byte>, rule: CollisionRule, y: nat, x: nat)
    requires WellFormed(g) && y < Height && x < Width
    ensures WellFormed(Draw(g, x0, y0, sprite, rule).0)
    ensures Draw(g, x0, y0, sprite, rule).0[y][x] == (g[y][x] != Flipped(x0, y0, sprite, |sprite|, y, x))
  {
    DrawRowsPixel(g, x0, y0, sprite, |sprite|, rule, y, x);
  }

  /** Drawing the same sprite twice at the same origin restores the screen. */
  lemma DrawTwiceRestores(g: Screen, x0: int, y0: int, sprite: seq<byte>, rule: CollisionRule)
    requires WellFormed(g)
    ensures Draw(Draw(g, x0, y0, sprite, rule).0, x0, y0, sprite, rule).0 == g
  {
    var h := Draw(g, x0, y0, sprite, rule).0;
    var k := Draw(h, x0, y0, sprite, rule).0;
    forall y | 0 <= y < Height
      ensures k[y] == g[y]
    {
      forall x | 0 <= x < Width
        ensures k[y][x] == g[y][x]
      {
        DrawPixel(g, x0, y0, sprite, rule, y, x);
        DrawPixel(h, x0, y0, sprite, rule, y, x);
      }
    }
  }

  /** An empty sprite changes nothing and does not collide. */
  lemma EmptySpriteIsNoOp(g: Screen, x0: int, y0: int, rule: CollisionRule)
    requires WellFormed(g)
    ensures Draw(g, x0, y0, [], rule) == (g, false)
  {
  }

  // ---------------------------------------------------------------------
  // The collision flag.

  /** Whether sprite cell (row i, column j) counts as a collision, judged by
      the pixel it lands on in screen `g`. */
  predicate Hits(g: Screen, x0: int, y0: int, sprite: seq<byte>, i: nat, j: nat, rule: CollisionRule)
    requires WellFormed(g) && i < |sprite| && j < SpriteWidth
  {
    RowHit(g, x0, Row(y0, i), sprite[i], j, rule)
  }

  /** Whether column `j` of sprite row `b`, drawn into row `y`, counts as a
      collision, judged by the pixel it lands on in screen `h`. */
  predicate RowHit(h: Screen, x0: int, y: nat, b: byte, j: nat, rule: CollisionRule)
    requires WellFormed(h) && y < Height && j < SpriteWidth
  {
    h[y][Col(x0, j)] && (rule == AnyVisitedCell || Bit(b, j))
  }

  /** Whether one of the first `j` columns of sprite row `b`, drawn into
      row `y`, hits, judged by the screen `h` before the row. */
  predicate SomeColumnHits(h: Screen, x0: int, y: nat, b: byte, j: nat, rule: CollisionRule)
    requires WellFormed(h) && y < Height && j <= SpriteWidth
  {
    j > 0 && (SomeColumnHits(h, x0, y, b, j - 1, rule) || RowHit(h, x0, y, b, j - 1, rule))
  }

  lemma {:induction false} SomeColumnHitsExists(h: Screen, x0: int, y: nat, b: byte, j: nat, rule: CollisionRule)
    requires WellFormed(h) && y < Height && j <= SpriteWidth
    ensures SomeColumnHits(h, x0, y, b, j, rule) <==> exists j' :: 0 <= j' < j && RowHit(h, x0, y, b, j', rule)
  {
    if j > 0 {
      SomeColumnHitsExists(h, x0, y, b, j - 1, rule);
      if exists j' :: 0 <= j' < j && RowHit(h, x0, y, b, j', rule) {
        var j' :| 0 <= j' < j && RowHit(h, x0, y, b, j', rule);
        if j' < j - 1 {
          assert exists j'' :: 0 <= j'' < j - 1 && RowHit(h, x0, y, b, j'', rule);
        }
      }
    }
  }

  /** Within one row every column is visited once, so the collision flag of
      the first `j` columns is whether one of them hits a pixel as it was
      before the row. */
  lemma {:induction false} DrawRowHits(h: Screen, x0: int, y: nat, b: byte, j: nat, rule: CollisionRule)
    requires WellFormed(h) && y < Height && j <= SpriteWidth
    ensures DrawRow(h, x0, y, b, j, rule).1 == SomeColumnHits(h, x0, y, b, j, rule)
  {
    if j > 0 {
      var k := j - 1;
      var prev := DrawRow(h, x0, y, b, k, rule);
      var x := Col(x0, k);
      var cell := Visit(prev.0, y, x, Bit(b, k), rule);
      assert DrawRow(h, x0, y, b, j, rule).1 == (prev.1 || cell.1) by {
        DrawRowStep(h, x0, y, b, k, rule);
      }
      assert prev.0[y][x] == h[y][x] by {
        DrawRowPixel(h, x0, y, b, k, rule, y, x);
        ColOffset(x0, k, x);
      }
      assert prev.1 == SomeColumnHits(h, x0, y, b, k, rule) by {
        DrawRowHits(h, x0, y, b, k, rule);
      }
      assert cell.1 == RowHit(h, x0, y, b, k, rule);
    }
  }

  /** A row collides exactly when one of its visited columns hits a pixel as
      it was before the row. */
  lemma DrawRowCollision(h: Screen, x0: int, y: nat, b: byte, j: nat, rule: CollisionRule)
    requires WellFormed(h) && y < Height && j <= SpriteWidth
    ensures DrawRow(h, x0, y, b, j, rule).1 <==> exists j' :: 0 <= j' < j && RowHit(h, x0, y, b, j', rule)
  {
    DrawRowHits(h, x0, y, b, j, rule);
    SomeColumnHitsExists(h, x0, y, b, j, rule);
  }

  /** Pixels of a row that none of the first `m` sprite rows reaches keep
      their value: sprite rows fewer than a screen height apart never land
      on the same screen row. */
  lemma {:induction false} UntouchedRow(x0: int, y0: int, sprite: seq<byte>, m: nat, k: nat, x: nat)
    requires m <= k < Height && m <= |sprite|
    ensures !Flipped(x0, y0, sprite, m, Row(y0, k), x)
  {
    if m > 0 {
      UntouchedRow(x0, y0, sprite, m - 1, k, x);
      RowsDistinct(y0, m - 1, k);
    }
  }

  /** The rows drawn before sprite row `m` leave its screen row as it was. */
  lemma OwnRowUntouched(g: Screen, x0: int, y0: int, sprite: seq<byte>, m: nat, rule: CollisionRule, x: nat)
    requires WellFormed(g) && m < |sprite| && m < Height && x < Width
    ensures DrawRows(g, x0, y0, sprite, m, rule).0[Row(y0, m)][x] == g[Row(y0, m)][x]
  {
    var y := Row(y0, m);
    DrawRowsPixel(g, x0, y0, sprite, m, rule, y, x);
    UntouchedRow(x0, y0, sprite, m, m, x);
  }

  /** Sprite row `m`, drawn after the rows above it, sees the pixels of its
      screen row as they were before the draw. */
  lemma LastRowSeesOriginal(g: Screen, x0: int, y0: int, sprite: seq<byte>, m: nat, rule: CollisionRule, j: nat)
    requires WellFormed(g) && m < |sprite| && m < Height && j < SpriteWidth
    ensures RowHit(DrawRows(g, x0, y0, sprite, m, rule).0, x0, Row(y0, m), sprite[m], j, rule)
      == Hits(g, x0, y0, sprite, m, j, rule)
  {
    OwnRowUntouched(g, x0, y0, sprite, m, rule, Col(x0, j));
  }

  /** Whether some cell of sprite row `i` counts as a collision, judged by
      the screen `g` before the draw. */
  predicate RowCollides(g: Screen, x0: int, y0: int, sprite: seq<byte>, i: nat, rule: CollisionRule)
    requires WellFormed(g) && i < |sprite|
  {
    exists j :: 0 <= j < SpriteWidth && Hits(g, x0, y0, sprite, i, j, rule)
  }

  /** Sprite row `m`, drawn after the rows above it, collides exactly when
      one of its cells hits a pixel of the screen before the draw. */
  lemma LastRowCollision(g: Screen, x0: int, y0: int, sprite: seq<byte>, m: nat, rule: CollisionRule)
    requires WellFormed(g) && m < |sprite| && m < Height
    ensures DrawRow(DrawRows(g, x0, y0, sprite, m, rule).0, x0, Row(y0, m), sprite[m], SpriteWidth, rule).1
      == RowCollides(g, x0, y0, sprite, m, rule)
  {
    var h := DrawRows(g, x0, y0, sprite, m, rule).0;
    var y, b := Row(y0, m), sprite[m];
    DrawRowCollision(h, x0, y, b, SpriteWidth, rule);
    if DrawRow(h, x0, y, b, SpriteWidth, rule).1 {
      var j :| 0 <= j < SpriteWidth && RowHit(h, x0, y, b, j, rule);
      LastRowSeesOriginal(g, x0, y0, sprite, m, rule, j);
      assert Hits(g, x0, y0, sprite, m, j, rule);
    }
    if RowCollides(g, x0, y0, sprite, m, rule) {
      var j :| 0 <= j < SpriteWidth && Hits(g, x0, y0, sprite, m, j, rule);
      LastRowSeesOriginal(g, x0, y0, sprite, m, rule, j);
      assert RowHit(h, x0, y, b, j, rule);
    }
  }

  /** Whether one of the first `n` sprite rows collides, judged by the
      screen `g` before the draw. */
  predicate SomeRowCollides(g: Screen, x0: int, y0: int, sprite: seq<byte>, n: nat, rule: CollisionRule)
    requires WellFormed(g) && n <= |sprite|
  {
    n > 0 && (SomeRowCollides(g, x0, y0, sprite, n - 1, rule) || RowCollides(g, x0, y0, sprite, n - 1, rule))
  }

  lemma {:induction false} SomeRowCollidesExists(g: Screen, x0: int, y0: int, sprite: seq<byte>, n: nat, rule: CollisionRule)
    requires WellFormed(g) && n <= |sprite|
    ensures SomeRowCollides(g, x0, y0, sprite, n, rule)
      <==> exists i :: 0 <= i < n && RowCollides(g, x0, y0, sprite, i, rule)
  {
    if n > 0 {
      SomeRowCollidesExists(g, x0, y0, sprite, n - 1, rule);
      if exists i :: 0 <= i < n && RowCollides(g, x0, y0, sprite, i, rule) {
        var i :| 0 <= i < n && RowCollides(g, x0, y0, sprite, i, rule);
        if i < n - 1 {
          assert exists i' :: 0 <= i' < n - 1 && RowCollides(g, x0, y0, sprite, i', rule);
        }
      }
    }
  }

  /** Drawing `j + 1` columns of a row draws the first `j`, then visits
      column `j`. */
  lemma DrawRowStep(g: Screen, x0: int, y: nat, b: byte, j: nat, rule: CollisionRule)
    requires WellFormed(g) && y < Height && j < SpriteWidth
    ensures var prev := DrawRow(g, x0, y, b, j, rule);
      var cell := Visit(prev.0, y, Col(x0, j), Bit(b, j), rule);
      DrawRow(g, x0, y, b, j + 1, rule) == (cell.0, prev.1 || cell.1)
  {
  }

  /** Drawing `m + 1` rows draws the first `m`, then row `m` into the result. */
  lemma DrawRowsStep(g: Screen, x0: int, y0: int, sprite: seq<byte>, m: nat, rule: CollisionRule)
    requires WellFormed(g) && m < |sprite|
    ensures var above := DrawRows(g, x0, y0, sprite, m, rule);
      var row := DrawRow(above.0, x0, Row(y0, m), sprite[m], SpriteWidth, rule);
      DrawRows(g, x0, y0, sprite, m + 1, rule) == (row.0, above.1 || row.1)
  {
  }

  /** For a sprite no taller than the screen, every pixel is visited at most
      once, so the first `n` rows collide exactly when one of their cells
      hits a pixel of the screen as it was before the draw. */
  lemma {:induction false} DrawRowsCollision(g: Screen, x0: int, y0: int, sprite: seq<byte>, n: nat, rule: CollisionRule)
    requires WellFormed(g) && n <= |sprite| && n <= Height
    ensures DrawRows(g, x0, y0, sprite, n, rule).1 == SomeRowCollides(g, x0, y0, sprite, n, rule)
  {
    if n > 0 {
      var m := n - 1;
      var above := DrawRows(g, x0, y0, sprite, m, rule);
      var row := DrawRow(above.0, x0, Row(y0, m), sprite[m], SpriteWidth, rule);
      assert DrawRows(g, x0, y0, sprite, n, rule).1 == (above.1 || row.1) by {
        DrawRowsStep(g, x0, y0, sprite, m, rule);
      }
      assert above.1 == SomeRowCollides(g, x0, y0, sprite, m, rule) by {
        DrawRowsCollision(g, x0, y0, sprite, m, rule);
      }
      assert row.1 == RowCollides(g, x0, y0, sprite, m, rule) by {
        LastRowCollision(g, x0, y0, sprite, m, rule);
      }
      assert SomeRowCollides(g, x0, y0, sprite, n, rule)
        == (SomeRowCollides(g, x0, y0, sprite, m, rule) || RowCollides(g, x0, y0, sprite, m, rule));
    }
  }

  /** The draw of a sprite no taller than the screen collides exactly when
      one of its rows does. */
  lemma DrawCollision(g: Screen, x0: int, y0: int, sprite: seq<byte>, rule: CollisionRule)
    requires WellFormed(g) && |sprite| <= Height
    ensures Draw(g, x0, y0, sprite, rule).1
      <==> exists i :: 0 <= i < |sprite| && RowCollides(g, x0, y0, sprite, i, rule)
  {
    DrawRowsCollision(g, x0, y0, sprite, |sprite|, rule);
    SomeRowCollidesExists(g, x0, y0, sprite, |sprite|, rule);
  }

  /** The collision rule the source implements: since every character of
      the binary rendering is a non-empty string, a draw of a sprite no
      taller than the screen collides exactly when its 8-wide footprint
      passes over a lit pixel, whatever the sprite's bits are. */
  lemma CollisionAsWritten(g: Screen, x0: int, y0: int, sprite: seq<byte>)
    requires WellFormed(g) && |sprite| <= Height
    ensures Draw(g, x0, y0, sprite, AnyVisitedCell).1
      <==> exists i, j :: 0 <= i < |sprite| && 0 <= j < SpriteWidth && g[Row(y0, i)][Col(x0, j)]
  {
    DrawCollision(g, x0, y0, sprite, AnyVisitedCell);
    if Draw(g, x0, y0, sprite, AnyVisitedCell).1 {
      var i :| 0 <= i < |sprite| && RowCollides(g, x0, y0, sprite, i, AnyVisitedCell);
      var j :| 0 <= j < SpriteWidth && Hits(g, x0, y0, sprite, i, j, AnyVisitedCell);
      assert g[Row(y0, i)][Col(x0, j)];
    }
    if exists i, j :: 0 <= i < |sprite| && 0 <= j < SpriteWidth && g[Row(y0, i)][Col(x0, j)] {
      var i, j :| 0 <= i < |sprite| && 0 <= j < SpriteWidth && g[Row(y0, i)][Col(x0, j)];
      assert Hits(g, x0, y0, sprite, i, j, AnyVisitedCell);
      assert RowCollides(g, x0, y0, sprite, i, AnyVisitedCell);
    }
  }

  /** The intended collision rule: a draw of a sprite no taller than the
      screen collides exactly when a 1 bit of the sprite lands on a pixel
      that is lit. */
  lemma CollisionSetBitsOnly(g: Screen, x0: int, y0: int, sprite: seq<byte>)
    requires WellFormed(g) && |sprite| <= Height
    ensures Draw(g, x0, y0, sprite, SetBitsOnly).1
      <==> exists i, j :: 0 <= i < |sprite| && 0 <= j < SpriteWidth && Bit(sprite[i], j) && g[Row(y0, i)][Col(x0, j)]
  {
    DrawCollision(g, x0, y0, sprite, SetBitsOnly);
    if Draw(g, x0, y0, sprite, SetBitsOnly).1 {
      var i :| 0 <= i < |sprite| && RowCollides(g, x0, y0, sprite, i, SetBitsOnly);
      var j :| 0 <= j < SpriteWidth && Hits(g, x0, y0, sprite, i, j, SetBitsOnly);
      assert Bit(sprite[i], j) && g[Row(y0, i)][Col(x0, j)];
    }
    if exists i, j :: 0 <= i < |sprite| && 0 <= j < SpriteWidth && Bit(sprite[i], j) && g[Row(y0, i)][Col(x0, j)] {
      var i, j :| 0 <= i < |sprite| && 0 <= j < SpriteWidth && Bit(sprite[i], j) && g[Row(y0, i)][Col(x0, j)];
      assert Hits(g, x0, y0, sprite, i, j, SetBitsOnly);
      assert RowCollides(g, x0, y0, sprite, i, SetBitsOnly);
    }
  }

  /** The screen with exactly the two pixels (5, 5) and (5, 7) lit. */
  function TwoLitPixels(): (g: Screen)
    ensures WellFormed(g)
    ensures forall y, x :: 0 <= y < Height && 0 <= x < Width ==> (g[y][x] <==> y == 5 && (x == 5 || x == 7))
  {
    Blank()[5 := Blank()[5][5 := true][7 := true]]
  }

  /** The byte 0b01000000 has exactly one 1 bit, the second from the left. */
  lemma OnlySecondBit()
    ensures forall j :: 0 <= j < SpriteWidth ==> (Bit(0x40, j) <==> j == 1)
  {
  }

  /** Drawing the one-pixel sprite 0b01000000 at (5, 5) between two lit
      pixels lights (5, 6) and overlaps neither; the rule as written still
      reports a collision, because the lit pixel (5, 5) lies under a 0 bit,
      while the intended rule does not. */
  lemma ZeroBitOverLitPixel()
    ensures Draw(TwoLitPixels(), 5, 5, [0x40], AnyVisitedCell).1
    ensures !Draw(TwoLitPixels(), 5, 5, [0x40], SetBitsOnly).1
    ensures Draw(TwoLitPixels(), 5, 5, [0x40], SetBitsOnly).0[5][6]
  {
    var g := TwoLitPixels();
    assert Draw(g, 5, 5, [0x40], AnyVisitedCell).1 by {
      CollisionAsWritten(g, 5, 5, [0x40]);
      assert g[Row(5, 0)][Col(5, 0)];
    }
    assert !Draw(g, 5, 5, [0x40], SetBitsOnly).1 by {
      CollisionSetBitsOnly(g, 5, 5, [0x40]);
      OnlySecondBit();
      assert !g[Row(5, 0)][Col(5, 1)];
    }
    assert Draw(g, 5, 5, [0x40], SetBitsOnly).0[5][6] by {
      DrawPixel(g, 5, 5, [0x40], SetBitsOnly, 5, 6);
      assert Flipped(5, 5, [0x40], 1, 5, 6);
    }
  }

  /** On a screen with every pixel off, no draw of a sprite at most a screen
      tall collides, under either rule. */
  lemma BlankScreenNeverCollides(x0: int, y0: int, sprite: seq<byte>, rule: CollisionRule)
    requires |sprite| <= Height
    ensures !Draw(Blank(), x0, y0, sprite, rule).1
  {
    DrawCollision(Blank(), x0, y0, sprite, rule);
  }

  /** Whether the first column of the first `n` sprite rows drawn at (0, 0)
      has an odd number of 1 bits over pixel (0, 0): with at most a screen
      height of rows, only row 0 lands on screen row 0. */
  lemma {:induction false} OnlyFirstRowCovers(sprite: seq<byte>, n: nat)
    requires 1 <= n <= |sprite| && n <= Height && Bit(sprite[0], 0)
    ensures Flipped(0, 0, sprite, n, 0, 0)
  {
    if n > 1 {
      OnlyFirstRowCovers(sprite, n - 1);
      assert Row(0, n - 1) != 0;
    }
  }

  /** The bound of a screen height in the collision lemmas cannot be
      dropped: a sprite of 33 rows 0b10000000 drawn at (0, 0) on a blank
      screen collides under either rule, since row 32 wraps onto the pixel
      row 0 lit; 32 such rows do not collide. */
  lemma TallSpriteSelfCollides(rule: CollisionRule)
    ensures Draw(Blank(), 0, 0, seq(33, _ => 0x80), rule).1
    ensures !Draw(Blank(), 0, 0, seq(32, _ => 0x80), rule).1
  {
    var sprite: seq<byte> := seq(33, _ => 0x80);
    var m := 32;
    var above := DrawRows(Blank(), 0, 0, sprite, m, rule);
    var y := Row(0, m);
    assert y == 0;
    assert above.0[0][0] by {
      DrawRowsPixel(Blank(), 0, 0, sprite, m, rule, 0, 0);
      OnlyFirstRowCovers(sprite, m);
    }
    assert DrawRow(above.0, 0, y, sprite[m], SpriteWidth, rule).1 by {
      assert RowHit(above.0, 0, y, sprite[m], 0, rule);
      DrawRowCollision(above.0, 0, y, sprite[m], SpriteWidth, rule);
    }
    DrawRowsStep(Blank(), 0, 0, sprite, m, rule);
    BlankScreenNeverCollides(0, 0, seq(32, _ => 0x80), rule);
  }

  /** Coordinates wrap at both edges: the one-pixel sprite 0b10000000 drawn at
      column 100, row 50 of a blank screen lights column 36 of row 18 and
      nothing else. */
  lemma WrapAround(rule: CollisionRule)
    ensures Draw(Blank(), 100, 50, [0x80], rule).0[18][36]
    ensures forall y, x :: 0 <= y < Height && 0 <= x < Width && (y, x) != (18, 36) ==>
      !Draw(Blank(), 100, 50, [0x80], rule).0[y][x]
  {
    DrawPixel(Blank(), 100, 50, [0x80], rule, 18, 36);
    forall y, x | 0 <= y < Height && 0 <= x < Width && (y, x) != (18, 36)
      ensures !Draw(Blank(), 100, 50, [0x80], rule).0[y][x]
    {
      DrawPixel(Blank(), 100, 50, [0x80], rule, y, x);
      ColOffset(100, 0, x);
    }
  }

  // ---------------------------------------------------------------------
  // The display component.

  /** The screen component. `clear_screen` rebinds the grid; `draw_sprite`
      updates it pixel by pixel. */
  class Display {
    var screen: Screen

    ghost predicate Valid()
      reads this
    {
      WellFormed(screen)
    }

    /** A new display has every pixel off. */
    constructor()
      ensures Valid() && screen == Blank()
    {
      screen := Blank();
    }

    /** Turns every pixel off. */
    method ClearScreen()
      modifies this
      ensures Valid() && screen == Blank()
    {
      screen := Blank();
    }

    /** XORs `sprite` into the screen with its top-left corner at (x0, y0),
        row by row and, within a row, most significant bit first, wrapping at
        both edges; reports whether a 1 bit landed on a lit pixel. */
    method DrawSprite(x0: int, y0: int, sprite: seq<byte>) returns (collided: bool)
      requires Valid()
      modifies this
      ensures Valid()
      ensures (screen, collided) == Draw(old(screen), x0, y0, sprite, SetBitsOnly)
    {
      collided := false;
      for i := 0 to |sprite|
        invariant WellFormed(screen)
        invariant (screen, collided) == DrawRows(old(screen), x0, y0, sprite, i, SetBitsOnly)
      {
        var rowCollided := DrawSpriteRow(x0, (y0 + i) % Height, sprite[i]);
        collided := collided || rowCollided;
        DrawRowsStep(old(screen), x0, y0, sprite, i, SetBitsOnly);
      }
    }

    /** The inner loop of `DrawSprite`: XORs the eight bits of `b` into
        screen row `y` from column `x0` on; reports whether a 1 bit landed on
        a lit pixel. */
    method DrawSpriteRow(x0: int, y: nat, b: byte) returns (collided: bool)
      requires Valid() && y < Height
      modifies this
      ensures Valid()
      ensures (screen, collided) == DrawRow(old(screen), x0, y, b, SpriteWidth, SetBitsOnly)
    {
      collided := false;
      for j := 0 to SpriteWidth
        invariant WellFormed(screen)
        invariant (screen, collided) == DrawRow(old(screen), x0, y, b, j, SetBitsOnly)
      {
        var x := (x0 + j) % Width;
        var bit := Bit(b, j);
        if screen[y][x] && bit {
          collided := true;
        }
        screen := screen[y := screen[y][x := screen[y][x] != bit]];
        DrawRowStep(old(screen), x0, y, b, j, SetBitsOnly);
      }
    }
  }
}
