/** The occupancy canvas `numbers`: a transparent RGBA layer the size of the drawable
    region, of which only the alpha channel matters to placement. */
module Occupancy {

  /** A rotated element image as placement sees it: its bounding box and its alpha
      mask, row by row (`alpha[row][column]`). */
  datatype Sprite = Sprite(w: nat, h: nat, alpha: seq<seq<int>>) {
    predicate Valid() {
      |alpha| == h &&
      forall j :: 0 <= j < h ==> |alpha[j]| == w && forall i :: 0 <= i < w ==> 0 <= alpha[j][i] <= 255
    }
  }

  /** The alpha a pixel gets when a sprite pixel of alpha `a` is pasted with its own alpha
      as mask over a canvas pixel of alpha `d`. The library's rounding is not modelled;
      a lawful blend stays in 0..255 and leaves the canvas alone where the mask is 0. */
  predicate Lawful(blend: (int, int) -> int) {
    (forall d, a :: 0 <= d <= 255 && 0 <= a <= 255 ==> 0 <= blend(d, a) <= 255) &&
    (forall d :: 0 <= d <= 255 ==> blend(d, 0) == d)
  }

  /** The pixels of the `w` by `h` box with top-left corner (x, y). */
  predicate InBox(p: (int, int), x: int, y: int, w: nat, h: nat) {
    x <= p.0 < x + w && y <= p.1 < y + h
  }

  /** Pixel (i, j) is not among the occupied pixels. */
  ghost predicate Free(occupied: set<(int, int)>, i: int, j: int) {
    (i, j) !in occupied
  }

  /** A box holds none of the given occupied pixels. */
  ghost predicate ClearOf(occupied: set<(int, int)>, x: int, y: int, w: nat, h: nat) {
    forall i, j :: x <= i < x + w && y <= j < y + h ==> Free(occupied, i, j)
  }

  /** The pixels of an alpha grid whose alpha is not zero. */
  ghost function OccupiedIn(grid: map<(int, int), int>): set<(int, int)> {
    set p | p in grid && grid[p] != 0
  }

  /** Reference definition of the paste: the alpha grid after sprite s is pasted at (x, y),
      with its own alpha as mask. Each pixel of the box is blended with the sprite's alpha
      there; every other pixel keeps its alpha. */
  ghost function Pasted(grid: map<(int, int), int>, s: Sprite, x: int, y: int, blend: (int, int) -> int): map<(int, int), int>
    requires s.Valid()
  {
    map p | p in grid :: if InBox(p, x, y, s.w, s.h) then blend(grid[p], s.alpha[p.1 - y][p.0 - x]) else grid[p]
  }

  /** The alpha grid of a transparent `width` by `height` image. */
  ghost function BlankGrid(width: nat, height: nat): map<(int, int), int> {
    map i, j | 0 <= i < width && 0 <= j < height :: (i, j) := 0
  }

  /** Does a `w` by `h` box fit in a `width` by `height` region? */
  predicate Fits(w: nat, h: nat, width: int, height: int) {
    w <= width && h <= height
  }

  class Canvas {
    const width: nat
    const height: nat
    /** `alpha[x, y]` is the alpha channel of the pixel at column x, row y. */
    const alpha: array2<int>

    ghost predicate Valid()
      reads alpha
    {
      alpha.Length0 == width && alpha.Length1 == height &&
      forall i, j :: 0 <= i < width && 0 <= j < height ==> 0 <= alpha[i, j] <= 255
    }

    /** Every pixel transparent. */
    ghost predicate Blank()
      reads alpha
      requires Valid()
    {
      forall i, j :: 0 <= i < width && 0 <= j < height ==> alpha[i, j] == 0
    }

    /** The alpha grid as a value. */
    ghost function Snapshot(): map<(int, int), int>
      reads alpha
      requires Valid()
    {
      map i, j | 0 <= i < width && 0 <= j < height :: (i, j) := alpha[i, j]
    }

    /** The occupied pixels: those with non-zero alpha. */
    ghost function Occupied(): set<(int, int)>
      reads alpha
      requires Valid()
    {
      OccupiedIn(Snapshot())
    }

    predicate InBounds(x: int, y: int, w: nat, h: nat) {
      0 <= x && x + w <= width && 0 <= y && y + h <= height
    }

    /** The crop test: the alpha channel of the box at (x, y) has no non-zero pixel,
        so `getbbox()` of the crop is `None`. */
    predicate Clear(x: int, y: int, w: nat, h: nat)
      reads alpha
      requires Valid() && InBounds(x, y, w, h)
      ensures Clear(x, y, w, h) <==> ClearOf(Occupied(), x, y, w, h)
    {
      assert forall i, j :: 0 <= i < width && 0 <= j < height ==> (Free(Occupied(), i, j) <==> alpha[i, j] == 0);
      forall i, j :: x <= i < x + w && y <= j < y + h ==> alpha[i, j] == 0
    }

    /** `Image.new("RGBA", (width, height), (0, 0, 0, 0))` */
    constructor (width: nat, height: nat)
      ensures this.width == width && this.height == height
      ensures Valid() && Blank() && fresh(alpha)
      ensures Snapshot() == BlankGrid(width, height) && Occupied() == {}
    {
      this.width := width;
      this.height := height;
      alpha := new int[width, height]((i, j) => 0);
    }

    /** `paste(sprite, (x, y), sprite)`: inside the box each pixel is blended with the
        sprite's alpha at that point; every pixel outside the box is left as it was. */
    method Paste(s: Sprite, x: nat, y: nat, blend: (int, int) -> int)
      requires Valid() && s.Valid() && InBounds(x, y, s.w, s.h) && Lawful(blend)
      modifies alpha
      ensures Valid()
      ensures Snapshot() == Pasted(old(Snapshot()), s, x, y, blend)
      ensures forall i, j :: x <= i < x + s.w && y <= j < y + s.h ==>
        alpha[i, j] == blend(old(alpha[i, j]), s.alpha[j - y][i - x])
      ensures forall i, j :: 0 <= i < width && 0 <= j < height && !(x <= i < x + s.w && y <= j < y + s.h) ==>
        alpha[i, j] == old(alpha[i, j])
      // transparent sprite pixels leave the canvas as it was
      ensures forall i, j :: x <= i < x + s.w && y <= j < y + s.h && s.alpha[j - y][i - x] == 0 ==>
        alpha[i, j] == old(alpha[i, j])
    {
      ghost var before := Snapshot();
      assert forall i, j :: 0 <= i < width && 0 <= j < height ==> before[(i, j)] == alpha[i, j];
      BlendBox(s, x, y, blend);
      ghost var after := Snapshot();
      assert forall i, j :: 0 <= i < width && 0 <= j < height ==> after[(i, j)] == alpha[i, j];
      PastedFromCells(before, after, s, x, y, blend);
    }

    /** The cell update of the paste. */
    method BlendBox(s: Sprite, x: nat, y: nat, blend: (int, int) -> int)
      requires Valid() && s.Valid() && InBounds(x, y, s.w, s.h) && Lawful(blend)
      modifies alpha
      ensures Valid()
      ensures forall i, j :: 0 <= i < width && 0 <= j < height ==>
        alpha[i, j] == if x <= i < x + s.w && y <= j < y + s.h
          then blend(old(alpha[i, j]), s.alpha[j - y][i - x]) else old(alpha[i, j])
    {
      forall i, j | 0 <= i < width && 0 <= j < height {
        alpha[i, j] := if x <= i < x + s.w && y <= j < y + s.h
          then blend(alpha[i, j], s.alpha[j - y][i - x]) else alpha[i, j];
      }
    }
  }

  /** Two grids over the same pixels, the second blended from the first inside the box
      and equal to it elsewhere: the second is the reference paste of the first. */
  lemma PastedFromCells(before: map<(int, int), int>, after: map<(int, int), int>, s: Sprite,
                        x: int, y: int, blend: (int, int) -> int)
    requires s.Valid() && after.Keys == before.Keys
    requires forall i, j :: (i, j) in before ==>
      after[(i, j)] == if x <= i < x + s.w && y <= j < y + s.h
        then blend(before[(i, j)], s.alpha[j - y][i - x]) else before[(i, j)]
    ensures after == Pasted(before, s, x, y, blend)
  {
    var pasted := Pasted(before, s, x, y, blend);
    forall p | p in pasted
      ensures after[p] == pasted[p]
    {
      assert p == (p.0, p.1);
    }
  }
}
