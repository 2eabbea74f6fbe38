/** Sheet layout of Process.swift: `build` sizes the sheet as 16 cells wide and
    as many rows as the tokens need, and `render` walks the tokens in a raster
    scan, asking for a draw of each single-character token. The drawing itself is
    external: Render returns the draw requests instead. */
module Layout {
  import Metrics

  /** `columnCount`. */
  const ColumnCount: int := 16
  /** `margin`, the x at which every row starts. The sheet is laid out in whole
      pixels (the cell size is an `Int`), and `margin` is a whole number, so the
      scan uses it as an integer. */
  const Margin: int := Metrics.Margin.Floor

  datatype SheetSize = SheetSize(width: int, height: int)
  datatype Point = Point(x: int, y: int)
  /** A request to draw token `index` with its origin at `at`. */
  datatype DrawCall = DrawCall(index: nat, at: Point)

  /** `ceil(count / columnCount)`. */
  function RowCount(tokenCount: nat): (rows: nat)
    ensures rows * ColumnCount >= tokenCount
    ensures (rows - 1) * ColumnCount < tokenCount
  {
    (tokenCount + ColumnCount - 1) / ColumnCount
  }

  /** The sheet dimensions `build` computes from the cell size. */
  function Dimensions(tokenCount: nat, width: int, height: int): SheetSize {
    SheetSize(width * ColumnCount, height * RowCount(tokenCount))
  }

  /** One step of the scan: move one cell right, and wrap to the start of the
      next row once x has passed the sheet width. */
  function Advance(p: Point, width: int, height: int, sheetWidth: int): Point {
    var x := p.x + width;
    if x > sheetWidth then Point(Margin, p.y + height) else Point(x, p.y)
  }

  /** The scan position when token `k` is reached. */
  function Origin(k: nat, width: int, height: int, sheetWidth: int): Point {
    if k == 0 then Point(Margin, 0)
    else Advance(Origin(k - 1, width, height, sheetWidth), width, height, sheetWidth)
  }

  /** A glyph is drawn one pixel above its scan position. */
  function Raised(p: Point): Point {
    Point(p.x, p.y - 1)
  }

  /** The `render` loop: the draw requests, one per single-character token, in
      token order, each at the raised scan position of its token. Tokens of other
      lengths are not drawn but still move the scan on by one cell. */
  method Render(glyphs: seq<string>, dimensions: SheetSize, width: int, height: int)
    returns (draws: seq<DrawCall>)
    ensures forall j :: 0 <= j < |draws| ==>
      draws[j].index < |glyphs| && |glyphs[draws[j].index]| == 1 &&
      draws[j].at == Raised(Origin(draws[j].index, width, height, dimensions.width))
    ensures forall j, j' :: 0 <= j < j' < |draws| ==> draws[j].index < draws[j'].index
    ensures forall k :: 0 <= k < |glyphs| && |glyphs[k]| == 1 ==>
      exists j :: 0 <= j < |draws| && draws[j].index == k
  {
    var x := Margin;
    var y := 0;
    draws := [];
    for i := 0 to |glyphs|
      invariant Point(x, y) == Origin(i, width, height, dimensions.width)
      invariant forall j :: 0 <= j < |draws| ==>
        draws[j].index < i && |glyphs[draws[j].index]| == 1 &&
        draws[j].at == Raised(Origin(draws[j].index, width, height, dimensions.width))
      invariant forall j, j' :: 0 <= j < j' < |draws| ==> draws[j].index < draws[j'].index
      invariant forall k :: 0 <= k < i && |glyphs[k]| == 1 ==>
        exists j :: 0 <= j < |draws| && draws[j].index == k
    {
      if |glyphs[i]| == 1 {
        ghost var before := draws;
        draws := draws + [DrawCall(i, Point(x, y - 1))];
        assert forall j :: 0 <= j < |before| ==> draws[j] == before[j];
        assert draws[|before|].index == i;
      }
      x := x + width;
      if x > dimensions.width {
        y := y + height;
        x := Margin;
      }
    }
  }

  /** On a sheet 16 cells wide, token k sits in column k mod 16 and row k div 16:
      its origin is (1 + (k mod 16) * width, (k div 16) * height). */
  lemma {:induction false} OriginInGrid(k: nat, width: int, height: int)
    requires width >= 1
    ensures Origin(k, width, height, width * ColumnCount) ==
      Point(Margin + (k % ColumnCount) * width, (k / ColumnCount) * height)
  {
    if k > 0 {
      OriginInGrid(k - 1, width, height);
      var c := (k - 1) % ColumnCount;
      var r := (k - 1) / ColumnCount;
      ColumnStep(k);
      WrapsAtLastColumn(c, width);
      if c == ColumnCount - 1 {
        RowStep(r, height);
      }
    }
  }

  /** Moving from token k - 1 to token k advances the column by one, or wraps it
      to 0 and advances the row. */
  lemma ColumnStep(k: nat)
    requires k > 0
    ensures var c := (k - 1) % ColumnCount;
      var r := (k - 1) / ColumnCount;
      (c < ColumnCount - 1 ==> k % ColumnCount == c + 1 && k / ColumnCount == r) &&
      (c == ColumnCount - 1 ==> k % ColumnCount == 0 && k / ColumnCount == r + 1)
  {
    var c := (k - 1) % ColumnCount;
    var r := (k - 1) / ColumnCount;
    assert k == r * ColumnCount + (c + 1);
    if c == ColumnCount - 1 {
      assert k == (r + 1) * ColumnCount;
    }
  }

  /** Moving one cell right from column c passes the sheet width exactly when c
      is the last column. */
  lemma WrapsAtLastColumn(c: int, width: int)
    requires width >= 1 && 0 <= c < ColumnCount
    ensures Margin + c * width + width == Margin + (c + 1) * width
    ensures Margin + c * width + width > width * ColumnCount <==> c == ColumnCount - 1
  {
    assert (c + 1) * width == c * width + width;
    if c < ColumnCount - 1 {
      assert (c + 1) * width <= (ColumnCount - 1) * width;
    }
  }

  lemma RowStep(r: int, height: int)
    ensures (r + 1) * height == r * height + height
  {
  }

  /** Every one of n tokens gets a cell inside the sheet `build` sizes: the rows
      suffice and the cell starts at or right of the margin. The cell of the last
      column ends one pixel past the sheet's right edge, because the scan starts
      at x = 1 rather than 0. */
  lemma CellInSheet(n: nat, k: nat, width: int, height: int)
    requires width >= 1 && height >= 0 && k < n
    ensures var d := Dimensions(n, width, height);
      var o := Origin(k, width, height, d.width);
      0 <= o.y && o.y + height <= d.height &&
      Margin <= o.x && o.x + width <= d.width + Margin &&
      (k % ColumnCount == ColumnCount - 1 ==> o.x + width == d.width + Margin)
  {
    OriginInGrid(k, width, height);
    var r := k / ColumnCount;
    var c := k % ColumnCount;
    var rows := RowCount(n);
    assert r < rows by {
      assert k == r * ColumnCount + c;
      assert rows * ColumnCount >= n;
    }
    ScaleMonotone(r + 1, rows, height);
    ScaleMonotone(c + 1, ColumnCount, width);
    RowStep(r, height);
    RowStep(c, width);
  }

  lemma ScaleMonotone(a: int, b: int, m: int)
    requires a <= b && m >= 0
    ensures a * m <= b * m
  {
    assert b * m - a * m == (b - a) * m;
  }

  /** Distinct tokens are given distinct cells, whether or not they are drawn. */
  lemma OriginsDistinct(k1: nat, k2: nat, width: int, height: int)
    requires width >= 1 && height >= 1 && k1 != k2
    ensures Origin(k1, width, height, width * ColumnCount) !=
      Origin(k2, width, height, width * ColumnCount)
  {
    OriginInGrid(k1, width, height);
    OriginInGrid(k2, width, height);
    var c1, c2 := k1 % ColumnCount, k2 % ColumnCount;
    var r1, r2 := k1 / ColumnCount, k2 / ColumnCount;
    assert k1 == r1 * ColumnCount + c1 && k2 == r2 * ColumnCount + c2;
    if c1 != c2 {
      ScaleInjective(c1, c2, width);
    } else {
      ScaleInjective(r1, r2, height);
    }
  }

  lemma ScaleInjective(a: int, b: int, m: int)
    requires m >= 1 && a != b
    ensures a * m != b * m
  {
    if a < b {
      assert (b - a) * m >= 1;
    } else {
      assert (a - b) * m >= 1;
    }
  }
}
