/**
 The frame comparator: given the new screenshot and the stored previous one, it
 reports a size mismatch when their sizes differ and otherwise the percentage of
 positions holding the same pixel. `Compare` is the pure definition,
 `CompareImages` the nested loop that computes it, and the lemmas state what the
 percentage means.
 */
module Comparison {
  import opened Frames

  /** The outcome of one comparison. `SizeMismatch` is the warning path that returns
      0.0; `Undefined` is the 0/0 division two empty images of the same size reach
      (a NaN); `Percent` carries the similarity. */
  datatype Similarity = SizeMismatch | Undefined | Percent(value: real) {

    /** The number that stands for the double the comparator returns; the 0/0 path
        returns a NaN, which has no value here. */
    function Reported(): real
      requires !Undefined?
    {
      if SizeMismatch? then 0.0 else value
    }
  }

  /** `m` out of `n` as a percentage, in the order the comparator evaluates it. */
  function Ratio(m: nat, n: nat): real
    requires n > 0
  {
    (m as real / n as real) * 100.0
  }

  lemma RatioBounds(m: nat, n: nat)
    requires 0 < n && m <= n
    ensures 0.0 <= Ratio(m, n) <= 100.0
    ensures Ratio(m, n) == 100.0 <==> m == n
  {
    var q := m as real / n as real;
    assert q * n as real == m as real;
    assert 0.0 <= q;
    assert q <= 1.0 by {
      if q > 1.0 {
        ScaleStrict(q, 1.0, n as real);
        assert false;
      }
    }
    if m != n {
      assert q != 1.0;
    }
  }

  /** Multiplying by a positive number keeps a strict order. */
  lemma ScaleStrict(a: real, b: real, c: real)
    requires a > b && c > 0.0
    ensures a * c > b * c
  {
    assert a * c - b * c == (a - b) * c;
  }

  /** The similarity of `screenshot` against `previous`. */
  function Compare(screenshot: Image, previous: Image): (r: Similarity)
    ensures r.SizeMismatch? <==> !SameSize(screenshot, previous)
    ensures r.Undefined? <==> SameSize(screenshot, previous) && Area(screenshot) == 0
    ensures r.Percent? ==> 0.0 <= r.value <= 100.0
  {
    if !SameSize(screenshot, previous) then SizeMismatch
    else if Area(screenshot) == 0 then Undefined
    else
      RatioBounds(Matches(screenshot, previous), Area(screenshot));
      Percent(Ratio(Matches(screenshot, previous), Area(screenshot)))
  }

  /** The comparator's loops: walk rows top to bottom and each row left to right,
      counting equal pixels, then divide by the area. */
  method CompareImages(screenshot: Image, previous: Image) returns (r: Similarity)
    ensures r == Compare(screenshot, previous)
    ensures SameSize(screenshot, previous) && Area(screenshot) > 0 ==>
              r == Percent(Ratio(|Where(screenshot, previous, true)|, Area(screenshot)))
  {
    if screenshot.width != previous.width || screenshot.height != previous.height {
      return SizeMismatch;
    }
    var width := screenshot.width;
    var height := screenshot.height;
    var similarPixels: nat := 0;
    var y := 0;
    while y < height
      invariant y <= height
      invariant similarPixels == CountInRows(screenshot, previous, true, y)
    {
      var x := 0;
      while x < width
        invariant x <= width
        invariant similarPixels == CountInRows(screenshot, previous, true, y)
                                   + CountInRow(screenshot, previous, true, y, x)
      {
        if screenshot.rows[y][x] == previous.rows[y][x] {
          similarPixels := similarPixels + 1;
        }
        x := x + 1;
      }
      y := y + 1;
    }
    CountIsCardinality(screenshot, previous, true);
    if width * height == 0 {
      return Undefined;
    }
    r := Percent(Ratio(similarPixels, width * height));
  }

  /** Frames of different sizes compare as 0, whatever their pixels. */
  lemma MismatchReportsZero(screenshot: Image, previous: Image)
    requires !SameSize(screenshot, previous)
    ensures Compare(screenshot, previous).Reported() == 0.0
  {
  }

  /** On equal, non-empty frames the percentage is the share of coordinates that match. */
  lemma {:induction false} CompareIsShareOfMatches(screenshot: Image, previous: Image)
    requires SameSize(screenshot, previous) && Area(screenshot) > 0
    ensures Compare(screenshot, previous)
            == Percent(Ratio(|Where(screenshot, previous, true)|, Area(screenshot)))
  {
    CountIsCardinality(screenshot, previous, true);
  }

  /** Frames of `n > 0` pixels that differ at exactly `k` positions are `100 (n - k) / n` similar. */
  lemma {:induction false} KDifferences(screenshot: Image, previous: Image, k: nat)
    requires SameSize(screenshot, previous) && Area(screenshot) > 0
    requires |Where(screenshot, previous, false)| == k
    ensures k <= Area(screenshot)
    ensures Compare(screenshot, previous)
            == Percent(Ratio(Area(screenshot) - k, Area(screenshot)))
  {
    CountIsCardinality(screenshot, previous, false);
    MatchesPlusDifferences(screenshot, previous);
  }

  /** Comparing the other way round gives the same result. */
  lemma {:induction false} CompareSymmetric(a: Image, b: Image)
    ensures Compare(a, b) == Compare(b, a)
  {
    if SameSize(a, b) {
      CountsSymmetric(a, b, true);
    }
  }

  /** A non-empty frame of the same size scores exactly 100 precisely when it is
      pixel for pixel the same frame. */
  lemma {:induction false} HundredIffIdentical(a: Image, b: Image)
    requires SameSize(a, b) && Area(a) > 0
    ensures Compare(a, b) == Percent(100.0) <==> a == b
  {
    MatchesPlusDifferences(a, b);
    NoDifferencesIffEqual(a, b);
    RatioBounds(Matches(a, b), Area(a));
  }

  /** A non-empty frame compared with itself is 100 similar. */
  lemma {:induction false} SelfIsHundred(a: Image)
    requires Area(a) > 0
    ensures Compare(a, a).Reported() == 100.0
  {
    HundredIffIdentical(a, a);
  }

  const White: Rgb := 0xFFFF_FFFF
  const Black: Rgb := 0xFF00_0000

  /** The 2x2 example: white/white over black/black against white/black over
      black/black agree at 3 of 4 positions. */
  lemma TwoByTwoExample()
    ensures Compare(Raster(2, 2, [[White, White], [Black, Black]]),
                    Raster(2, 2, [[White, Black], [Black, Black]])).Reported() == 75.0
  {
  }
}
