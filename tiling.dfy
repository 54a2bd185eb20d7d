/**
 * Background tiling of a container: the background image is repeated over the
 * container's area, column by column, starting at the top left corner.
 */
module Tiling {
  import opened Wrappers

  /** The pixel size of a background image. */
  datatype ImageSize = ImageSize(width: int, height: int)

  /** A tile: the position of one copy of the image inside the container. */
  datatype Tile = Tile(x: int, y: int)

  /** How many steps of `step` pixels start below `extent`: the ceiling of extent / step. */
  function Count(extent: int, step: int): (n: nat)
    requires step > 0
    ensures (n - 1) * step < extent <= n * step || (n == 0 && extent <= 0)
  {
    if extent <= 0 then 0 else (extent + step - 1) / step
  }

  /** Column `i` of the grid: the first `rows` tiles from the top, at x = i * w. */
  function Column(i: int, rows: nat, w: int, h: int): (c: seq<Tile>)
    ensures |c| == rows
    ensures forall j :: 0 <= j < rows ==> c[j] == Tile(i * w, j * h)
  {
    seq(rows, j => Tile(i * w, j * h))
  }

  /** The first `cols` columns of tiles, left to right. */
  function Grid(cols: nat, rows: nat, w: int, h: int): (g: seq<Tile>)
    ensures |g| == cols * rows
  {
    if cols == 0 then [] else Grid(cols - 1, rows, w, h) + Column(cols - 1, rows, w, h)
  }

  /** Every tile of the grid is (i * w, j * h) for a column i < cols and a row j < rows. */
  lemma {:induction false} GridTiles(cols: nat, rows: nat, w: int, h: int, t: Tile)
    requires t in Grid(cols, rows, w, h)
    ensures exists i, j :: 0 <= i < cols && 0 <= j < rows && t == Tile(i * w, j * h)
  {
    if cols > 0 {
      var g := Grid(cols - 1, rows, w, h);
      var c := Column(cols - 1, rows, w, h);
      if t in g {
        GridTiles(cols - 1, rows, w, h, t);
      } else {
        assert t in c;
        var j :| 0 <= j < rows && c[j] == t;
        assert t == Tile((cols - 1) * w, j * h);
      }
    }
  }

  /** Every column i < cols and row j < rows has its tile in the grid. */
  lemma {:induction false} GridHasTile(cols: nat, rows: nat, w: int, h: int, i: int, j: int)
    requires 0 <= i < cols && 0 <= j < rows
    ensures Tile(i * w, j * h) in Grid(cols, rows, w, h)
  {
    var c := Column(cols - 1, rows, w, h);
    if i == cols - 1 {
      assert c[j] == Tile(i * w, j * h);
    } else {
      GridHasTile(cols - 1, rows, w, h, i, j);
    }
  }

  /** Multiplying by a positive step keeps the order. */
  lemma MulOrder(a: int, b: int, step: int)
    requires step > 0
    ensures a <= b <==> a * step <= b * step
  {
    if a <= b {
      assert b * step - a * step == (b - a) * step;
    } else {
      assert a * step - b * step == (a - b) * step;
    }
  }

  /** Step i starts below the extent exactly when i is less than the step count. */
  lemma CountBelow(extent: int, step: int, i: int)
    requires step > 0 && i >= 0
    ensures i * step < extent <==> i < Count(extent, step)
  {
    var n := Count(extent, step);
    if extent <= 0 {
      MulOrder(0, i, step);
    } else if i < n {
      MulOrder(i, n - 1, step);
    } else {
      MulOrder(n, i, step);
    }
  }

  /** A pixel lies in the step that starts at its quotient. */
  lemma DivSplit(p: int, step: int)
    requires step > 0 && p >= 0
    ensures p / step >= 0 && p / step * step <= p < p / step * step + step
  {
  }

  /**
   * The tiles cover the background: every pixel (px, py) inside a back_w by back_h
   * area lies in the tile at (px / w * w, py / h * h), and that tile is in the grid.
   */
  lemma TilesCoverBackground(backW: int, backH: int, w: int, h: int, px: int, py: int)
    requires w > 0 && h > 0
    requires 0 <= px < backW && 0 <= py < backH
    ensures var t := Tile(px / w * w, py / h * h);
      t in Grid(Count(backW, w), Count(backH, h), w, h) &&
      t.x <= px < t.x + w && t.y <= py < t.y + h
  {
    var i, j := px / w, py / h;
    DivSplit(px, w);
    DivSplit(py, h);
    CountBelow(backW, w, i);
    CountBelow(backH, h, j);
    GridHasTile(Count(backW, w), Count(backH, h), w, h, i, j);
  }

  /** Every tile of the grid starts inside the back_w by back_h area. */
  lemma TilesInsideBackground(backW: int, backH: int, w: int, h: int, t: Tile)
    requires w > 0 && h > 0
    requires t in Grid(Count(backW, w), Count(backH, h), w, h)
    ensures 0 <= t.x < backW && 0 <= t.y < backH
  {
    GridTiles(Count(backW, w), Count(backH, h), w, h, t);
    var i, j :| 0 <= i < Count(backW, w) && 0 <= j < Count(backH, h) && t == Tile(i * w, j * h);
    CountBelow(backW, w, i);
    CountBelow(backH, h, j);
    MulOrder(0, i, w);
    MulOrder(0, j, h);
  }

  /** A container with a background image and the tiles generated from it. */
  class TiledContainer {
    var width: int
    var height: int
    var backgroundImage: Option<ImageSize>
    var background: seq<Tile>

    constructor (w: int, h: int, image: Option<ImageSize>)
      ensures width == w && height == h && backgroundImage == image && background == []
    {
      width, height := w, h;
      backgroundImage := image;
      background := [];
    }

    /**
     * _resetTiling: without an image nothing happens; otherwise the tiles are
     * regenerated column by column, each column from the top down, until the
     * container's width and height are covered. The loops finish exactly when a
     * loop that starts also advances: a container of positive width needs an image
     * of positive width, and then one of positive height needs an image of positive
     * height. An image of zero width or height, where the loops do not start,
     * leaves no tiles.
     */
    method ResetTiling()
      requires backgroundImage.Some? && width > 0 ==>
        backgroundImage.value.width > 0 && (height > 0 ==> backgroundImage.value.height > 0)
      modifies this`background
      ensures backgroundImage.None? ==> background == old(background)
      ensures backgroundImage.Some? ==>
        var image := backgroundImage.value;
        background == if image.width > 0 && image.height > 0
                      then Grid(Count(width, image.width), Count(height, image.height), image.width, image.height)
                      else []
    {
      if backgroundImage.None? {
        return;
      }
      var backW := width;
      var w, h := backgroundImage.value.width, backgroundImage.value.height;
      ghost var cols := if w > 0 then Count(backW, w) else 0;
      ghost var rows := if h > 0 then Count(height, h) else 0;
      background := [];
      var x := 0;
      ghost var i := 0;
      while x < backW
        invariant 0 <= i <= cols && x == i * w
        invariant background == Grid(i, rows, w, h)
        decreases backW - x
      {
        CountBelow(backW, w, i);
        TileColumn(x, i, w, h);
        x := x + w;
        i := i + 1;
      }
      if w > 0 {
        CountBelow(backW, w, i);
      }
    }

    /** The inner loop of _resetTiling: one column of tiles at x, from the top down. */
    method TileColumn(x: int, ghost i: int, w: int, h: int)
      requires height > 0 ==> h > 0
      requires x == i * w
      modifies this`background
      ensures background == old(background) + Column(i, if h > 0 then Count(height, h) else 0, w, h)
    {
      ghost var rows := if h > 0 then Count(height, h) else 0;
      var y := 0;
      ghost var j := 0;
      while y < height
        invariant 0 <= j <= rows && y == j * h
        invariant background == old(background) + Column(i, rows, w, h)[..j]
        decreases height - y
      {
        CountBelow(height, h, j);
        background := background + [Tile(x, y)];
        y := y + h;
        j := j + 1;
      }
      if h > 0 {
        CountBelow(height, h, j);
      }
      assert Column(i, rows, w, h)[..j] == Column(i, rows, w, h);
    }
  }
}
