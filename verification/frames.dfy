/**
 Pixel grids as the comparator sees them once a pixmap has been converted to an
 image: a width, a height and one 32-bit ARGB value per coordinate. The module
 defines two views of "where do two equal-size images agree": a count that walks
 the grid row by row, in the order the comparator's loops visit it, and the set
 of coordinates itself; the lemmas show they measure the same thing.
 */
module Frames {

  /** A 32-bit colour value `0xAARRGGBB` (an unsigned int). */
  newtype Rgb = x: int | 0 <= x < 0x1_0000_0000

  /** A pixel grid stored row-major: `rows[y][x]` is the pixel in column `x` of row `y`. */
  datatype Raster = Raster(width: nat, height: nat, rows: seq<seq<Rgb>>)

  /** Every row is present and exactly `width` pixels long, and an image with no
      pixels is the null image: its width and height are both 0. */
  predicate Rectangular(r: Raster) {
    && |r.rows| == r.height
    && (forall y :: 0 <= y < |r.rows| ==> |r.rows[y]| == r.width)
    && (r.width == 0 <==> r.height == 0)
  }

  /** A well-formed image. */
  type Image = r: Raster | Rectangular(r) witness Raster(0, 0, [])

  /** The null image: what a default-constructed pixmap converts to. */
  const Empty: Image := Raster(0, 0, [])

  /** A position `(x, y)`: column, then row. */
  type Coord = (nat, nat)

  /** The pixel at column `x`, row `y`. */
  function At(img: Image, x: nat, y: nat): Rgb
    requires x < img.width && y < img.height
  {
    img.rows[y][x]
  }

  /** An image without pixels is the null image. */
  lemma NoPixelsIsNull(img: Image)
    ensures Area(img) == 0 <==> img == Empty
  {
  }

  /** Two images have the same size when both width and height agree. */
  predicate SameSize(a: Image, b: Image) {
    a.width == b.width && a.height == b.height
  }

  /** The number of pixels of an image. */
  function Area(img: Image): nat {
    img.width * img.height
  }

  /** True when the two images agree at `(x, y)` exactly when `agree` says they should:
      `agree = true` selects matching pixels, `agree = false` differing ones. */
  predicate Classified(a: Image, b: Image, agree: bool, x: nat, y: nat)
    requires SameSize(a, b) && x < a.width && y < a.height
  {
    (At(a, x, y) == At(b, x, y)) == agree
  }

  /* ---------------------------------------------------------------------------
     Counting in visiting order
     ------------------------------------------------------------------------- */

  /** How many of the first `n` columns of row `y` are classified as `agree`. */
  function CountInRow(a: Image, b: Image, agree: bool, y: nat, n: nat): (c: nat)
    requires SameSize(a, b) && y < a.height && n <= a.width
    ensures c <= n
    decreases n
  {
    if n == 0 then 0
    else CountInRow(a, b, agree, y, n - 1) + (if Classified(a, b, agree, n - 1, y) then 1 else 0)
  }

  /** How many pixels of the first `k` rows are classified as `agree`. */
  function CountInRows(a: Image, b: Image, agree: bool, k: nat): (c: nat)
    requires SameSize(a, b) && k <= a.height
    ensures c <= k * a.width
    decreases k
  {
    if k == 0 then 0
    else
      var c := CountInRows(a, b, agree, k - 1) + CountInRow(a, b, agree, k - 1, a.width);
      assert (k - 1) * a.width + a.width == k * a.width;
      c
  }

  /** The number of positions at which two equal-size images hold the same pixel. */
  function Matches(a: Image, b: Image): nat
    requires SameSize(a, b)
  {
    CountInRows(a, b, true, a.height)
  }

  /** The number of positions at which two equal-size images hold different pixels. */
  function Differences(a: Image, b: Image): nat
    requires SameSize(a, b)
  {
    CountInRows(a, b, false, a.height)
  }

  /* ---------------------------------------------------------------------------
     The same quantities as sets of coordinates
     ------------------------------------------------------------------------- */

  /** The coordinates at which `a` and `b` are classified as `agree`. */
  ghost function Where(a: Image, b: Image, agree: bool): set<Coord>
    requires SameSize(a, b)
  {
    set x: nat, y: nat | x < a.width && y < a.height && Classified(a, b, agree, x, y) :: (x, y)
  }

  /** The part of `Where` in the first `n` columns of row `y`. */
  ghost function WhereInRow(a: Image, b: Image, agree: bool, y: nat, n: nat): set<Coord>
    requires SameSize(a, b) && y < a.height && n <= a.width
  {
    set x: nat | x < n && Classified(a, b, agree, x, y) :: (x, y)
  }

  /** The part of `Where` in the first `k` rows. */
  ghost function WhereInRows(a: Image, b: Image, agree: bool, k: nat): set<Coord>
    requires SameSize(a, b) && k <= a.height
  {
    set x: nat, y: nat | x < a.width && y < k && Classified(a, b, agree, x, y) :: (x, y)
  }

  lemma {:induction false} RowCountIsCardinality(a: Image, b: Image, agree: bool, y: nat, n: nat)
    requires SameSize(a, b) && y < a.height && n <= a.width
    ensures |WhereInRow(a, b, agree, y, n)| == CountInRow(a, b, agree, y, n)
    decreases n
  {
    if n == 0 {
      assert WhereInRow(a, b, agree, y, n) == {};
    } else {
      RowCountIsCardinality(a, b, agree, y, n - 1);
      var before := WhereInRow(a, b, agree, y, n - 1);
      if Classified(a, b, agree, n - 1, y) {
        assert WhereInRow(a, b, agree, y, n) == before + {(n - 1, y)};
        assert (n - 1, y) !in before;
      } else {
        assert WhereInRow(a, b, agree, y, n) == before;
      }
    }
  }

  lemma {:induction false} RowsCountIsCardinality(a: Image, b: Image, agree: bool, k: nat)
    requires SameSize(a, b) && k <= a.height
    ensures |WhereInRows(a, b, agree, k)| == CountInRows(a, b, agree, k)
    decreases k
  {
    if k == 0 {
      assert WhereInRows(a, b, agree, k) == {};
    } else {
      RowsCountIsCardinality(a, b, agree, k - 1);
      RowCountIsCardinality(a, b, agree, k - 1, a.width);
      var above := WhereInRows(a, b, agree, k - 1);
      var row := WhereInRow(a, b, agree, k - 1, a.width);
      assert WhereInRows(a, b, agree, k) == above + row;
      assert above * row == {} by {
        forall c | c in row ensures c !in above {
          assert c.1 == k - 1;
        }
      }
    }
  }

  /** Walking the grid in row-major order counts each coordinate of `Where` exactly once. */
  lemma CountIsCardinality(a: Image, b: Image, agree: bool)
    requires SameSize(a, b)
    ensures |Where(a, b, agree)| == CountInRows(a, b, agree, a.height)
  {
    RowsCountIsCardinality(a, b, agree, a.height);
    assert Where(a, b, agree) == WhereInRows(a, b, agree, a.height);
  }

  /** Every position either matches or differs, so the two counts fill the grid. */
  lemma {:induction false} MatchesPlusDifferences(a: Image, b: Image)
    requires SameSize(a, b)
    ensures Matches(a, b) + Differences(a, b) == Area(a)
  {
    RowsSplit(a, b, a.height);
  }

  lemma {:induction false} RowsSplit(a: Image, b: Image, k: nat)
    requires SameSize(a, b) && k <= a.height
    ensures CountInRows(a, b, true, k) + CountInRows(a, b, false, k) == k * a.width
    decreases k
  {
    if k > 0 {
      RowsSplit(a, b, k - 1);
      RowSplit(a, b, k - 1, a.width);
      assert (k - 1) * a.width + a.width == k * a.width;
    }
  }

  lemma {:induction false} RowSplit(a: Image, b: Image, y: nat, n: nat)
    requires SameSize(a, b) && y < a.height && n <= a.width
    ensures CountInRow(a, b, true, y, n) + CountInRow(a, b, false, y, n) == n
    decreases n
  {
    if n > 0 {
      RowSplit(a, b, y, n - 1);
    }
  }

  /** Swapping the two images changes neither count. */
  lemma CountsSymmetric(a: Image, b: Image, agree: bool)
    requires SameSize(a, b)
    ensures CountInRows(a, b, agree, a.height) == CountInRows(b, a, agree, b.height)
  {
    CountIsCardinality(a, b, agree);
    CountIsCardinality(b, a, agree);
    assert Where(a, b, agree) == Where(b, a, agree);
  }

  /** Two equal-size images are equal exactly when they differ nowhere. */
  lemma NoDifferencesIffEqual(a: Image, b: Image)
    requires SameSize(a, b)
    ensures Differences(a, b) == 0 <==> a == b
  {
    CountIsCardinality(a, b, false);
    if Differences(a, b) == 0 {
      assert Where(a, b, false) == {};
      forall y | 0 <= y < a.height ensures a.rows[y] == b.rows[y] {
        forall x | 0 <= x < a.width ensures a.rows[y][x] == b.rows[y][x] {
          assert (x, y) !in Where(a, b, false);
        }
      }
      assert a.rows == b.rows;
    } else {
      var c :| c in Where(a, b, false);
      assert At(a, c.0, c.1) != At(b, c.0, c.1);
    }
  }
}
