// The terrain's height field: a square grid of heights stored row by row,
// read with wrap-around, smoothed with a box filter and loaded from a
// bitmap's red channel.

module HeightMaps {
  import opened Wrappers

  /** The fields of `HeightMap`; `heights[z * size + x]` is the height of grid point (x, z). */
  datatype HeightMap = HeightMap(size: nat, gridSpacing: int, minHeight: real, maxHeight: real, heights: seq<real>) {
    predicate Valid() {
      |heights| == size * size
    }
  }

  /** The constructor: a flat field of `size * size` zero heights. */
  function NewHeightMap(size: nat, gridSpacing: int, minHeight: real, maxHeight: real): (h: HeightMap)
    ensures h.Valid() && h.size == size && h.gridSpacing == gridSpacing
    ensures h.minHeight == minHeight && h.maxHeight == maxHeight
    ensures forall i :: 0 <= i < |h.heights| ==> h.heights[i] == 0.0
  {
    HeightMap(size, gridSpacing, minHeight, maxHeight, seq(size * size, _ => 0.0))
  }

  /**
   * `RealSize`: the side of the field in world units, non-negative unless
   * the spacing is negative, and at least one spacing for a non-empty field.
   */
  function RealSize(h: HeightMap): (r: int)
    ensures r >= 0 <==> h.size == 0 || h.gridSpacing >= 0
    ensures h.size >= 1 && h.gridSpacing >= 0 ==> r >= h.gridSpacing
  {
    assert h.size >= 1 && h.gridSpacing < 0 ==> h.size * h.gridSpacing <= h.gridSpacing;
    h.size * h.gridSpacing
  }

  // ---------------------------------------------------------------------
  // Grid arithmetic
  // ---------------------------------------------------------------------

  /** The remainder of C#'s `%`: truncated division, so it takes the sign of the dividend. */
  function Rem(a: int, n: nat): (r: int)
    requires n > 0
    ensures a >= 0 ==> 0 <= r < n
    ensures a < 0 ==> -(n as int) < r <= 0
  {
    if a >= 0 then a % n else -((-a) % n)
  }

  lemma DivModUnique(a: int, n: nat, q: int, r: int)
    requires n > 0 && a == q * n + r && 0 <= r < n
    ensures a % n == r && a / n == q
  {
    var q' := a / n;
    var r' := a % n;
    assert q' * n + r' == q * n + r;
    if q' > q {
      assert (q' - q) * n >= n by { MulAtLeast(q' - q, n); }
      assert false;
    } else if q' < q {
      assert (q - q') * n >= n by { MulAtLeast(q - q', n); }
      assert false;
    }
  }

  lemma MulAtLeast(k: int, n: nat)
    requires k >= 1
    ensures k * n >= n
  {
  }

  /** Adding the modulus to a non-negative dividend leaves the remainder unchanged. */
  lemma RemShift(a: int, n: nat)
    requires n > 0 && a >= 0
    ensures Rem(a + n, n) == Rem(a, n)
  {
    DivModUnique(a + n, n, a / n + 1, a % n);
  }

  /** A non-negative dividend below the modulus is its own remainder. */
  lemma RemSmall(a: int, n: nat)
    requires n > 0 && 0 <= a < n
    ensures Rem(a, n) == a && Rem(a + n, n) == a
  {
    DivModUnique(a, n, 0, a);
    RemShift(a, n);
  }

  /** Grid point (x, z) of a row-major grid lies inside it. */
  lemma PointInGrid(x: int, z: int, size: nat)
    requires 0 <= x < size && 0 <= z < size
    ensures 0 <= z * size + x < size * size
  {
    assert z * size <= (size - 1) * size by { MulMono(z, size - 1, size); }
  }

  lemma MulMono(a: nat, b: nat, c: nat)
    requires a <= b
    ensures a * c <= b * c
  {
  }

  /**
   * `HeightIndexAt(x, z)`: the index of (x, z) wrapped around the field's
   * edges; an empty field divides by zero.
   */
  function HeightIndexAt(h: HeightMap, x: int, z: int): (r: Option<int>)
    ensures r.None? <==> h.size == 0
  {
    if h.size == 0 then None else Some(Rem(x + h.size, h.size) + Rem(z + h.size, h.size) * h.size)
  }

  /** Points no further than one field below the origin index inside the field. */
  lemma HeightIndexInRange(h: HeightMap, x: int, z: int)
    requires h.size > 0 && x >= -(h.size as int) && z >= -(h.size as int)
    ensures 0 <= HeightIndexAt(h, x, z).value < h.size * h.size
  {
    PointInGrid(Rem(x + h.size, h.size), Rem(z + h.size, h.size), h.size);
  }

  /** Inside the field the index is the row-major one, and one field over it wraps to the same. */
  lemma HeightIndexRowMajor(h: HeightMap, x: int, z: int)
    requires 0 <= x < h.size && 0 <= z < h.size
    ensures HeightIndexAt(h, x, z) == Some(x + z * h.size)
    ensures HeightIndexAt(h, x + h.size, z) == HeightIndexAt(h, x, z)
    ensures HeightIndexAt(h, x, z + h.size) == HeightIndexAt(h, x, z)
  {
    RemSmall(x, h.size);
    RemSmall(z, h.size);
    RemShift(x + h.size, h.size);
    RemShift(z + h.size, h.size);
  }

  /** The index repeats with the field's period along both axes. */
  lemma HeightIndexPeriodic(h: HeightMap, x: int, z: int)
    requires h.size > 0 && x >= -(h.size as int) && z >= -(h.size as int)
    ensures HeightIndexAt(h, x + h.size, z) == HeightIndexAt(h, x, z)
    ensures HeightIndexAt(h, x, z + h.size) == HeightIndexAt(h, x, z)
  {
    RemShift(x + h.size, h.size);
    RemShift(z + h.size, h.size);
  }

  /** `HeightAtPixel(x, z)`: the height stored at `z * size + x`; an index off the array throws. */
  function HeightAtPixel(h: HeightMap, x: int, z: int): (r: Option<real>)
    ensures r.Some? <==> 0 <= z * h.size + x < |h.heights|
    ensures r.Some? ==> r.value == h.heights[z * h.size + x]
  {
    var i := z * h.size + x;
    if 0 <= i < |h.heights| then Some(h.heights[i]) else None
  }

  /** Inside the field the pixel read and the wrapped index agree. */
  lemma PixelAgreesWithIndex(h: HeightMap, x: int, z: int)
    requires h.Valid() && 0 <= x < h.size && 0 <= z < h.size
    ensures HeightIndexAt(h, x, z) == Some(z * h.size + x)
    ensures HeightAtPixel(h, x, z).Some? && HeightAtPixel(h, x, z).value == h.heights[z * h.size + x]
  {
    HeightIndexRowMajor(h, x, z);
    PointInGrid(x, z, h.size);
  }

  // ---------------------------------------------------------------------
  // The box filter
  // ---------------------------------------------------------------------

  /**
   * The linear index of the `k`-th of the nine cells around (x, y), in the
   * filter's order: the row above, the row itself, the row below, each
   * from left to right.
   */
  function NeighbourIndex(size: nat, x: int, y: int, k: nat): int
    requires k < 9
  {
    (y - 1 + k / 3) * size + (x - 1 + k % 3)
  }

  /** The filter takes a neighbour when its linear index lies in the field: no per-axis check. */
  predicate Taken(size: nat, i: int) {
    0 <= i < size * size
  }

  /** The values of the taken neighbours among neighbours `k` to 8, in the filter's order. */
  function Window(src: seq<real>, size: nat, x: int, y: int, k: nat): (r: seq<real>)
    requires |src| == size * size && k <= 9
    ensures |r| <= 9 - k
    decreases 9 - k
  {
    if k == 9 then []
    else
      var i := NeighbourIndex(size, x, y, k);
      if Taken(size, i) then [src[i]] + Window(src, size, x, y, k + 1) else Window(src, size, x, y, k + 1)
  }

  /** The centre of a cell of the field is always taken, so the filter never divides by zero. */
  lemma {:induction false} CentreTaken(src: seq<real>, size: nat, x: int, y: int, k: nat)
    requires |src| == size * size && 0 <= x < size && 0 <= y < size && k <= 4
    ensures |Window(src, size, x, y, k)| >= 1
    decreases 4 - k
  {
    if k < 4 {
      CentreTaken(src, size, x, y, k + 1);
    } else {
      PointInGrid(x, y, size);
      assert NeighbourIndex(size, x, y, 4) == y * size + x;
    }
  }

  function Sum(s: seq<real>): real
    decreases |s|
  {
    if |s| == 0 then 0.0 else s[0] + Sum(s[1..])
  }

  /** The mean of the taken neighbours of cell (x, y). */
  function Cell(src: seq<real>, size: nat, x: int, y: int): real
    requires |src| == size * size && 0 <= x < size && 0 <= y < size
  {
    CentreTaken(src, size, x, y, 0);
    var w := Window(src, size, x, y, 0);
    Sum(w) / |w| as real
  }

  /** Every value of `s` lies between `lo` and `hi`. */
  predicate Between(s: seq<real>, lo: real, hi: real) {
    forall i :: 0 <= i < |s| ==> lo <= s[i] <= hi
  }

  /** The taken neighbours of a field between two bounds lie between them. */
  lemma {:induction false} WindowBetween(src: seq<real>, size: nat, x: int, y: int, k: nat, lo: real, hi: real)
    requires |src| == size * size && k <= 9 && Between(src, lo, hi)
    ensures Between(Window(src, size, x, y, k), lo, hi)
    decreases 9 - k
  {
    if k < 9 {
      WindowBetween(src, size, x, y, k + 1, lo, hi);
    }
  }

  /** A sum of values between `lo` and `hi` lies between their count times each. */
  lemma {:induction false} SumBounds(s: seq<real>, lo: real, hi: real)
    requires Between(s, lo, hi)
    ensures lo * |s| as real <= Sum(s) <= hi * |s| as real
    decreases |s|
  {
    if |s| > 0 {
      SumBounds(s[1..], lo, hi);
      assert Between(s[1..], lo, hi);
      assert lo <= s[0] <= hi;
    }
  }

  /** A mean of values between `lo` and `hi` lies between them. */
  lemma MeanBounds(s: seq<real>, lo: real, hi: real)
    requires |s| > 0 && Between(s, lo, hi)
    ensures lo <= Sum(s) / |s| as real <= hi
  {
    SumBounds(s, lo, hi);
    DivBounds(Sum(s), |s| as real, lo);
    DivBoundsAbove(Sum(s), |s| as real, hi);
  }

  lemma DivBounds(sum: real, count: real, lo: real)
    requires count > 0.0 && lo * count <= sum
    ensures lo <= sum / count
  {
  }

  lemma DivBoundsAbove(sum: real, count: real, hi: real)
    requires count > 0.0 && sum <= hi * count
    ensures sum / count <= hi
  {
  }

  /** The mean of a cell lies between the field's bounds. */
  lemma CellBounds(src: seq<real>, size: nat, x: int, y: int, lo: real, hi: real)
    requires |src| == size * size && 0 <= x < size && 0 <= y < size && Between(src, lo, hi)
    ensures lo <= Cell(src, size, x, y) <= hi
  {
    CentreTaken(src, size, x, y, 0);
    WindowBetween(src, size, x, y, 0, lo, hi);
    MeanBounds(Window(src, size, x, y, 0), lo, hi);
  }

  /**
   * The first cell of a row takes the last cell of the row above as its
   * left neighbour: the bounds are checked on the linear index only.
   */
  lemma EdgeBorrowsFromRowAbove(size: nat, y: int)
    requires size >= 1 && 1 <= y < size
    ensures NeighbourIndex(size, 0, y, 3) == (y - 1) * size + (size - 1)
    ensures Taken(size, NeighbourIndex(size, 0, y, 3))
  {
    PointInGrid(size - 1, y - 1, size);
  }

  /** A linear index of the field names a row of it. */
  lemma RowOfIndex(i: int, size: nat)
    requires 0 <= i < size * size
    ensures 0 <= i % size < size && 0 <= i / size < size
  {
    if i / size >= size {
      MulMono(size, i / size, size);
    }
  }

  /**
   * `Smooth()`: every cell becomes the mean of its taken neighbours in the
   * unsmoothed field; cell (x, y) is the one at `y * size + x`.
   */
  function Smooth(src: seq<real>, size: nat): (r: seq<real>)
    requires |src| == size * size
    ensures |r| == size * size
  {
    seq(size * size, i requires 0 <= i < size * size =>
          RowOfIndex(i, size);
          Cell(src, size, i % size, i / size))
  }

  /** Smoothing puts the mean of cell (x, y) at `y * size + x`. */
  lemma SmoothAt(src: seq<real>, size: nat, x: int, y: int)
    requires |src| == size * size && 0 <= x < size && 0 <= y < size
    ensures 0 <= y * size + x < size * size
    ensures Smooth(src, size)[y * size + x] == Cell(src, size, x, y)
  {
    PointInGrid(x, y, size);
    DivModUnique(y * size + x, size, y, x);
  }

  /** Smoothing keeps a field within its bounds, and hence keeps a constant field. */
  lemma SmoothBounds(src: seq<real>, size: nat, lo: real, hi: real)
    requires |src| == size * size && Between(src, lo, hi)
    ensures Between(Smooth(src, size), lo, hi)
  {
    var r := Smooth(src, size);
    forall i | 0 <= i < |r|
      ensures lo <= r[i] <= hi
    {
      RowOfIndex(i, size);
      CellBounds(src, size, i % size, i / size, lo, hi);
    }
  }

  // ---------------------------------------------------------------------
  // Loading a bitmap
  // ---------------------------------------------------------------------

  /** A texture's red channel, pixel after pixel, row after row. */
  datatype Bitmap = Bitmap(width: nat, height: nat, red: seq<int>)

  /** The height a pixel gives: its red value scaled by the bumpiness, never above the maximum. */
  function PixelHeight(red: int, bumpiness: real, maxHeight: real): (v: real)
    ensures v <= maxHeight
    ensures v == maxHeight || v == red as real * bumpiness
  {
    var v := red as real * bumpiness;
    if v > maxHeight then maxHeight else v
  }

  /** The capped height of every pixel, in the texture's order. */
  function CappedHeights(red: seq<int>, bumpiness: real, maxHeight: real): (r: seq<real>)
    ensures |r| == |red|
    ensures forall i :: 0 <= i < |r| ==> r[i] == PixelHeight(red[i], bumpiness, maxHeight)
  {
    seq(|red|, i requires 0 <= i < |red| => PixelHeight(red[i], bumpiness, maxHeight))
  }

  /**
   * `GenerateFromBitmap(texture, bumpiness)`: the field takes the
   * texture's width as its size and the capped height of each pixel, and
   * is then smoothed. Reading a texture whose pixel count differs from
   * `width * width` throws.
   */
  function GenerateFromBitmap(h: HeightMap, bmp: Bitmap, bumpiness: real): (r: Option<HeightMap>)
    ensures r.Some? <==> |bmp.red| == bmp.width * bmp.width
    ensures r.Some? ==> r.value.Valid() && r.value.size == bmp.width
    ensures r.Some? ==> r.value == h.(size := bmp.width, heights := r.value.heights)
    ensures r.Some? ==> Between(r.value.heights, MinPixelHeight(bmp.red, bumpiness, h.maxHeight), h.maxHeight)
    ensures r.Some? ==> r.value.heights == Smooth(CappedHeights(bmp.red, bumpiness, h.maxHeight), bmp.width)
  {
    if |bmp.red| != bmp.width * bmp.width then None
    else
      var size := bmp.width;
      var capped := CappedHeights(bmp.red, bumpiness, h.maxHeight);
      MinPixelHeightBelow(bmp.red, bumpiness, h.maxHeight);
      SmoothBounds(capped, size, MinPixelHeight(bmp.red, bumpiness, h.maxHeight), h.maxHeight);
      Some(h.(size := size, heights := Smooth(capped, size)))
  }

  /** A texture of a single red value gives a flat field at that pixel's capped height. */
  lemma UniformBitmapIsFlat(h: HeightMap, bmp: Bitmap, bumpiness: real, red: int)
    requires |bmp.red| == bmp.width * bmp.width
    requires forall i :: 0 <= i < |bmp.red| ==> bmp.red[i] == red
    ensures var r := GenerateFromBitmap(h, bmp, bumpiness); var v := PixelHeight(red, bumpiness, h.maxHeight);
            r.Some? && forall i :: 0 <= i < |r.value.heights| ==> r.value.heights[i] == v
  {
    var v := PixelHeight(red, bumpiness, h.maxHeight);
    var capped := CappedHeights(bmp.red, bumpiness, h.maxHeight);
    assert Between(capped, v, v);
    SmoothBounds(capped, bmp.width, v, v);
  }

  /** The least capped height over the pixels, or the maximum for no pixels. */
  function MinPixelHeight(red: seq<int>, bumpiness: real, maxHeight: real): (m: real)
    ensures m <= maxHeight
    decreases |red|
  {
    if |red| == 0 then maxHeight
    else
      var v := PixelHeight(red[0], bumpiness, maxHeight);
      var m := MinPixelHeight(red[1..], bumpiness, maxHeight);
      if v < m then v else m
  }

  lemma {:induction false} MinPixelHeightBelow(red: seq<int>, bumpiness: real, maxHeight: real)
    ensures forall i :: 0 <= i < |red| ==> MinPixelHeight(red, bumpiness, maxHeight) <= PixelHeight(red[i], bumpiness, maxHeight)
    decreases |red|
  {
    if |red| > 0 {
      MinPixelHeightBelow(red[1..], bumpiness, maxHeight);
      forall i | 1 <= i < |red|
        ensures MinPixelHeight(red, bumpiness, maxHeight) <= PixelHeight(red[i], bumpiness, maxHeight)
      {
        assert red[i] == red[1..][i - 1];
      }
    }
  }
}
