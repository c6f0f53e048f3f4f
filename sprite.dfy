/** The sprite drawing of `op_Dxyn`: a functional mirror of its row and
    column loops (`DrawPixel`, `DrawCols`, `DrawRows`) and, proved about it, the
    closed form of their effect on the framebuffer and on the collision flag. */
module Sprite {
  import opened Bits

  const VideoWidth := 64
  const VideoHeight := 32
  const VideoSize := VideoWidth * VideoHeight

  /** A lit framebuffer cell; an unlit cell is 0. */
  const Lit: bv32 := 0xFFFF_FFFF

  /** The framebuffer together with "some set sprite bit met a lit cell". */
  datatype Frame = Frame(video: seq<bv32>, collision: bool)

  /** `spriteByte & (0x80 >> col)` is non-zero: column `col` of the row is set. */
  predicate SpriteBit(b: uint8, col: int)
    requires 0 <= col < 8
  {
    (b as bv8) & ((0x80 as bv8) >> col) != 0
  }

  /** The unwrapped cell index `(yPos + row) * VIDEO_WIDTH + (xPos + col)`. */
  function Cell(xPos: nat, yPos: nat, row: nat, col: nat): nat {
    (yPos + row) * VideoWidth + xPos + col
  }

  /** Every cell index the loops compute for a sprite of `n` rows lies inside the
      framebuffer; an index past it is undefined behaviour in the C++. */
  predicate Fits(xPos: nat, yPos: nat, n: nat) {
    n == 0 || Cell(xPos, yPos, n - 1, 7) < VideoSize
  }

  /** One iteration of the inner loop: a set sprite bit reports a collision if
      its cell is lit, and XORs the cell with all ones. */
  function DrawPixel(f: Frame, b: uint8, xPos: nat, yPos: nat, row: nat, col: nat): (g: Frame)
    requires |f.video| == VideoSize && col < 8 && Cell(xPos, yPos, row, col) < VideoSize
  {
    if SpriteBit(b, col) then
      var p := Cell(xPos, yPos, row, col);
      Frame(f.video[p := f.video[p] ^ Lit], f.collision || f.video[p] == Lit)
    else
      f
  }

  /** The inner loop from column `col` on. */
  function DrawCols(f: Frame, b: uint8, xPos: nat, yPos: nat, row: nat, col: nat): (g: Frame)
    requires |f.video| == VideoSize && col <= 8 && Cell(xPos, yPos, row, 7) < VideoSize
    decreases 8 - col
  {
    if col == 8 then f
    else DrawCols(DrawPixel(f, b, xPos, yPos, row, col), b, xPos, yPos, row, col + 1)
  }

  /** The outer loop from row `row` on; `sprite[row]` is `memory[index + row]`. */
  function DrawRows(f: Frame, sprite: seq<uint8>, xPos: nat, yPos: nat, row: nat): (g: Frame)
    requires |f.video| == VideoSize && row <= |sprite| && Fits(xPos, yPos, |sprite|)
    decreases |sprite| - row
  {
    if row == |sprite| then f
    else DrawRows(DrawCols(f, sprite[row], xPos, yPos, row, 0), sprite, xPos, yPos, row + 1)
  }

  /** Cell `p` lies under a set bit of row `row`, at column `col` or later. */
  predicate InRow(b: uint8, xPos: nat, yPos: nat, row: nat, col: nat, p: int) {
    var c := p - Cell(xPos, yPos, row, 0);
    col <= c < 8 && SpriteBit(b, c)
  }

  /** Cell `p` lies under a set bit of the sprite, in row `row` or later.  The
      offset of `p` from the origin names the only row and column that can
      reach it. */
  predicate Under(sprite: seq<uint8>, xPos: nat, yPos: nat, row: nat, p: int) {
    var q := p - Cell(xPos, yPos, 0, 0);
    0 <= q && row <= q / VideoWidth < |sprite| && q % VideoWidth < 8
    && SpriteBit(sprite[q / VideoWidth], q % VideoWidth)
  }

  /** The sprite `sprite` drawn with its top-left corner at (`xPos`, `yPos`):
      exactly the cells under set sprite bits change, each by XOR with all
      ones, and a collision is reported iff one of them was lit before. */
  function Draw(v: seq<bv32>, sprite: seq<uint8>, xPos: nat, yPos: nat): (f: Frame)
    requires |v| == VideoSize && Fits(xPos, yPos, |sprite|)
    ensures |f.video| == VideoSize
    ensures forall p :: 0 <= p < VideoSize ==>
      f.video[p] == if Under(sprite, xPos, yPos, 0, p) then v[p] ^ Lit else v[p]
    ensures f.collision <==> exists p :: 0 <= p < VideoSize && Under(sprite, xPos, yPos, 0, p) && v[p] == Lit
  {
    DrawRowsEffect(Frame(v, false), sprite, xPos, yPos, 0);
    DrawRows(Frame(v, false), sprite, xPos, yPos, 0)
  }

  /** The effect of the inner loop from column `col` on. */
  lemma {:induction false} DrawColsEffect(f: Frame, b: uint8, xPos: nat, yPos: nat, row: nat, col: nat)
    requires |f.video| == VideoSize && col <= 8 && Cell(xPos, yPos, row, 7) < VideoSize
    ensures |DrawCols(f, b, xPos, yPos, row, col).video| == VideoSize
    ensures forall p :: 0 <= p < VideoSize ==>
      DrawCols(f, b, xPos, yPos, row, col).video[p]
        == if InRow(b, xPos, yPos, row, col, p) then f.video[p] ^ Lit else f.video[p]
    ensures DrawCols(f, b, xPos, yPos, row, col).collision
      <==> f.collision || exists p :: 0 <= p < VideoSize && InRow(b, xPos, yPos, row, col, p) && f.video[p] == Lit
    decreases 8 - col
  {
    if col < 8 {
      var g := DrawPixel(f, b, xPos, yPos, row, col);
      var here := Cell(xPos, yPos, row, col);
      DrawColsEffect(g, b, xPos, yPos, row, col + 1);
      forall p
        ensures InRow(b, xPos, yPos, row, col, p)
          <==> (p == here && SpriteBit(b, col)) || InRow(b, xPos, yPos, row, col + 1, p)
      {
        InRowSplit(b, xPos, yPos, row, col, p);
      }
      assert !InRow(b, xPos, yPos, row, col + 1, here);
      var r := DrawCols(f, b, xPos, yPos, row, col);
      if r.collision && !f.collision {
        if g.collision {
          assert InRow(b, xPos, yPos, row, col, here) && f.video[here] == Lit;
        } else {
          var p :| 0 <= p < VideoSize && InRow(b, xPos, yPos, row, col + 1, p) && g.video[p] == Lit;
          assert InRow(b, xPos, yPos, row, col, p) && f.video[p] == Lit;
        }
      }
      if !f.collision && exists p :: 0 <= p < VideoSize && InRow(b, xPos, yPos, row, col, p) && f.video[p] == Lit {
        var p :| 0 <= p < VideoSize && InRow(b, xPos, yPos, row, col, p) && f.video[p] == Lit;
        if p != here {
          assert InRow(b, xPos, yPos, row, col + 1, p) && g.video[p] == Lit;
        }
      }
    }
  }

  /** Column `col` takes its own cell out of those left to the later columns. */
  lemma InRowSplit(b: uint8, xPos: nat, yPos: nat, row: nat, col: nat, p: int)
    requires col < 8
    ensures InRow(b, xPos, yPos, row, col, p)
      <==> (p == Cell(xPos, yPos, row, col) && SpriteBit(b, col)) || InRow(b, xPos, yPos, row, col + 1, p)
  {
  }

  /** Row `row` takes the cells it reaches out of those left to the later rows. */
  lemma UnderSplit(sprite: seq<uint8>, xPos: nat, yPos: nat, row: nat, p: int)
    requires row < |sprite|
    ensures Under(sprite, xPos, yPos, row, p)
      <==> InRow(sprite[row], xPos, yPos, row, 0, p) || Under(sprite, xPos, yPos, row + 1, p)
    ensures !(InRow(sprite[row], xPos, yPos, row, 0, p) && Under(sprite, xPos, yPos, row + 1, p))
  {
    var q := p - Cell(xPos, yPos, 0, 0);
    var c := p - Cell(xPos, yPos, row, 0);
    assert c == q - row * VideoWidth;
    if 0 <= c < 8 {
      assert q / VideoWidth == row && q % VideoWidth == c;
    }
    if 0 <= q && q / VideoWidth == row {
      assert c == q % VideoWidth;
    }
  }

  /** The effect of the outer loop from row `row` on. */
  lemma {:induction false} DrawRowsEffect(f: Frame, sprite: seq<uint8>, xPos: nat, yPos: nat, row: nat)
    requires |f.video| == VideoSize && row <= |sprite| && Fits(xPos, yPos, |sprite|)
    ensures |DrawRows(f, sprite, xPos, yPos, row).video| == VideoSize
    ensures forall p :: 0 <= p < VideoSize ==>
      DrawRows(f, sprite, xPos, yPos, row).video[p]
        == if Under(sprite, xPos, yPos, row, p) then f.video[p] ^ Lit else f.video[p]
    ensures DrawRows(f, sprite, xPos, yPos, row).collision
      <==> f.collision || exists p :: 0 <= p < VideoSize && Under(sprite, xPos, yPos, row, p) && f.video[p] == Lit
    decreases |sprite| - row
  {
    if row < |sprite| {
      var b := sprite[row];
      var g := DrawCols(f, b, xPos, yPos, row, 0);
      DrawColsEffect(f, b, xPos, yPos, row, 0);
      DrawRowsEffect(g, sprite, xPos, yPos, row + 1);
      forall p | 0 <= p < VideoSize
        ensures Under(sprite, xPos, yPos, row, p)
          <==> InRow(b, xPos, yPos, row, 0, p) || Under(sprite, xPos, yPos, row + 1, p)
        ensures !(InRow(b, xPos, yPos, row, 0, p) && Under(sprite, xPos, yPos, row + 1, p))
      {
        UnderSplit(sprite, xPos, yPos, row, p);
      }
      var r := DrawRows(f, sprite, xPos, yPos, row);
      if r.collision && !f.collision {
        if g.collision {
          var p :| 0 <= p < VideoSize && InRow(b, xPos, yPos, row, 0, p) && f.video[p] == Lit;
          assert Under(sprite, xPos, yPos, row, p);
        } else {
          var p :| 0 <= p < VideoSize && Under(sprite, xPos, yPos, row + 1, p) && g.video[p] == Lit;
          assert Under(sprite, xPos, yPos, row, p) && f.video[p] == Lit;
        }
      }
      if !f.collision && exists p :: 0 <= p < VideoSize && Under(sprite, xPos, yPos, row, p) && f.video[p] == Lit {
        var p :| 0 <= p < VideoSize && Under(sprite, xPos, yPos, row, p) && f.video[p] == Lit;
        if !InRow(b, xPos, yPos, row, 0, p) {
          assert Under(sprite, xPos, yPos, row + 1, p) && g.video[p] == Lit;
        }
      }
    }
  }

  /** Drawing the same sprite twice at the same origin gives the framebuffer back. */
  lemma DrawTwiceRestores(v: seq<bv32>, sprite: seq<uint8>, xPos: nat, yPos: nat)
    requires |v| == VideoSize && Fits(xPos, yPos, |sprite|)
    ensures Draw(Draw(v, sprite, xPos, yPos).video, sprite, xPos, yPos).video == v
  {
    var once := Draw(v, sprite, xPos, yPos).video;
    var twice := Draw(once, sprite, xPos, yPos).video;
    forall p | 0 <= p < VideoSize ensures twice[p] == v[p] {
      if Under(sprite, xPos, yPos, 0, p) {
        assert twice[p] == (v[p] ^ Lit) ^ Lit;
      }
    }
  }

  /** The second of two identical draws reports a collision iff some cell under
      the sprite was unlit (0) before the first: XOR lights exactly those. */
  lemma SecondDrawCollision(v: seq<bv32>, sprite: seq<uint8>, xPos: nat, yPos: nat)
    requires |v| == VideoSize && Fits(xPos, yPos, |sprite|)
    ensures Draw(Draw(v, sprite, xPos, yPos).video, sprite, xPos, yPos).collision
      <==> exists p :: 0 <= p < VideoSize && Under(sprite, xPos, yPos, 0, p) && v[p] == 0
  {
    var once := Draw(v, sprite, xPos, yPos).video;
    forall p | 0 <= p < VideoSize && Under(sprite, xPos, yPos, 0, p)
      ensures once[p] == Lit <==> v[p] == 0
    {
      assert once[p] == v[p] ^ Lit;
    }
  }

  /** The framebuffer after `00E0`. */
  const Blank: seq<bv32> := seq(VideoSize, _ => 0)

  /** On a cleared framebuffer a sprite with a set bit draws without collision,
      and drawing it again collides and clears the framebuffer again. */
  lemma {:induction false} DrawTwiceOnClearedScreen(sprite: seq<uint8>, xPos: nat, yPos: nat, row: nat, col: nat)
    requires Fits(xPos, yPos, |sprite|)
    requires row < |sprite| && col < 8 && SpriteBit(sprite[row], col)
    ensures !Draw(Blank, sprite, xPos, yPos).collision
    ensures Draw(Draw(Blank, sprite, xPos, yPos).video, sprite, xPos, yPos).collision
    ensures Draw(Draw(Blank, sprite, xPos, yPos).video, sprite, xPos, yPos).video == Blank
  {
    var p := Cell(xPos, yPos, row, col);
    var q := p - Cell(xPos, yPos, 0, 0);
    assert q == row * VideoWidth + col;
    assert q / VideoWidth == row && q % VideoWidth == col;
    assert Under(sprite, xPos, yPos, 0, p) && Blank[p] == 0;
    assert forall i :: 0 <= i < VideoSize ==> Blank[i] != Lit;
    SecondDrawCollision(Blank, sprite, xPos, yPos);
    DrawTwiceRestores(Blank, sprite, xPos, yPos);
  }
}
