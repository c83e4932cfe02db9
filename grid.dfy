/**
 * Grid planning: `calculateGrid(pieceCount, aspectRatio)` searches the divisors
 * `cols` of the piece count, from 2 up to the piece count itself, and keeps the
 * layout whose `cols / rows` is closest to the aspect ratio. The comparison is a
 * strict `<`, so among equally close layouts the one with the fewest columns wins.
 * When no divisor is examined (a piece count below 2) the initial 2 x 2 is returned.
 *
 * Floating-point ratios are modelled as exact reals.
 */
module Grid {
  import opened Wrappers
  import opened Arith

  datatype Layout = Layout(rows: int, cols: int)

  function Abs(x: real): (r: real)
    ensures r >= 0.0 && (r == x || r == -x)
  {
    if x < 0.0 then -x else x
  }

  /** `cols` is one of the column counts the search examines and accepts as a divisor. */
  predicate IsDivisor(pieceCount: int, cols: int) {
    2 <= cols <= pieceCount && pieceCount % cols == 0
  }

  lemma RowsPositive(pieceCount: int, cols: int)
    requires IsDivisor(pieceCount, cols)
    ensures pieceCount / cols >= 1 && (pieceCount / cols) * cols == pieceCount
  {
    var q := pieceCount / cols;
    assert pieceCount == cols * q;
  }

  /** `|cols / rows - aspectRatio|` for a divisor `cols`, with `rows = pieceCount / cols`. */
  function RatioDiff(pieceCount: int, cols: int, aspectRatio: real): (d: real)
    requires IsDivisor(pieceCount, cols)
    ensures d >= 0.0
  {
    RowsPositive(pieceCount, cols);
    Abs(cols as real / (pieceCount / cols) as real - aspectRatio)
  }

  /**
   * The search from column count `cols` on, with the best layout so far and its
   * distance `minDiff` (None stands for the initial `Infinity`).
   */
  function Search(pieceCount: int, aspectRatio: real, cols: int, best: Layout, minDiff: Option<real>): Layout
    requires cols >= 2
    decreases pieceCount - cols + 1
  {
    if cols > pieceCount then best
    else if IsDivisor(pieceCount, cols) && (minDiff.None? || RatioDiff(pieceCount, cols, aspectRatio) < minDiff.value) then
      Search(pieceCount, aspectRatio, cols + 1, Layout(pieceCount / cols, cols), Some(RatioDiff(pieceCount, cols, aspectRatio)))
    else
      Search(pieceCount, aspectRatio, cols + 1, best, minDiff)
  }

  /** The layout `calculateGrid` returns. */
  function BestLayout(pieceCount: int, aspectRatio: real): Layout {
    Search(pieceCount, aspectRatio, 2, Layout(2, 2), None)
  }

  /**
   * `layout` divides the piece count exactly and its ratio is closest to the aspect
   * ratio among all examined divisors; every divisor with fewer columns is strictly
   * farther away.
   */
  ghost predicate IsBestLayout(pieceCount: int, aspectRatio: real, layout: Layout) {
    && IsDivisor(pieceCount, layout.cols)
    && layout.rows == pieceCount / layout.cols
    && layout.rows * layout.cols == pieceCount
    && (forall c :: IsDivisor(pieceCount, c) ==>
          RatioDiff(pieceCount, layout.cols, aspectRatio) <= RatioDiff(pieceCount, c, aspectRatio))
    && (forall c :: IsDivisor(pieceCount, c) && c < layout.cols ==>
          RatioDiff(pieceCount, layout.cols, aspectRatio) < RatioDiff(pieceCount, c, aspectRatio))
  }

  /** What the search state knows about the divisors below `cols`. */
  ghost predicate SearchInv(pieceCount: int, aspectRatio: real, cols: int, best: Layout, minDiff: Option<real>) {
    && cols >= 2
    && (minDiff.None? ==> forall c :: IsDivisor(pieceCount, c) ==> c >= cols)
    && (minDiff.Some? ==>
          && IsDivisor(pieceCount, best.cols) && best.cols < cols
          && best.rows == pieceCount / best.cols
          && minDiff.value == RatioDiff(pieceCount, best.cols, aspectRatio)
          && (forall c :: IsDivisor(pieceCount, c) && c < cols ==> minDiff.value <= RatioDiff(pieceCount, c, aspectRatio))
          && (forall c :: IsDivisor(pieceCount, c) && c < best.cols ==> minDiff.value < RatioDiff(pieceCount, c, aspectRatio)))
  }

  /** At the end of the loop the summary makes the current layout a best one. */
  lemma SearchEnds(pieceCount: int, aspectRatio: real, cols: int, best: Layout, minDiff: Option<real>)
    requires pieceCount >= 2 && cols == pieceCount + 1
    requires SearchInv(pieceCount, aspectRatio, cols, best, minDiff)
    ensures IsBestLayout(pieceCount, aspectRatio, best)
  {
    assert IsDivisor(pieceCount, pieceCount);
    RowsPositive(pieceCount, best.cols);
  }

  /** Examining divisor candidate `cols` on a closer ratio records it, and keeps the summary. */
  lemma SearchImproves(pieceCount: int, aspectRatio: real, cols: int, best: Layout, minDiff: Option<real>)
    requires SearchInv(pieceCount, aspectRatio, cols, best, minDiff)
    requires IsDivisor(pieceCount, cols)
    requires minDiff.None? || RatioDiff(pieceCount, cols, aspectRatio) < minDiff.value
    ensures SearchInv(pieceCount, aspectRatio, cols + 1, Layout(pieceCount / cols, cols), Some(RatioDiff(pieceCount, cols, aspectRatio)))
  {
    var d := RatioDiff(pieceCount, cols, aspectRatio);
    forall c | IsDivisor(pieceCount, c) && c < cols + 1
      ensures d <= RatioDiff(pieceCount, c, aspectRatio)
    {
      if c < cols {
        assert minDiff.Some?;
      }
    }
    forall c | IsDivisor(pieceCount, c) && c < cols
      ensures d < RatioDiff(pieceCount, c, aspectRatio)
    {
      assert minDiff.Some?;
    }
  }

  /** Passing over candidate `cols` (not a divisor, or not closer) keeps the summary. */
  lemma SearchSkips(pieceCount: int, aspectRatio: real, cols: int, best: Layout, minDiff: Option<real>)
    requires SearchInv(pieceCount, aspectRatio, cols, best, minDiff)
    requires !(IsDivisor(pieceCount, cols) && (minDiff.None? || RatioDiff(pieceCount, cols, aspectRatio) < minDiff.value))
    ensures SearchInv(pieceCount, aspectRatio, cols + 1, best, minDiff)
  {
    if minDiff.Some? {
      forall c | IsDivisor(pieceCount, c) && c < cols + 1
        ensures minDiff.value <= RatioDiff(pieceCount, c, aspectRatio)
      {
      }
    }
  }

  lemma {:induction false} SearchFindsBest(pieceCount: int, aspectRatio: real, cols: int, best: Layout, minDiff: Option<real>)
    requires pieceCount >= 2 && cols <= pieceCount + 1
    requires SearchInv(pieceCount, aspectRatio, cols, best, minDiff)
    ensures IsBestLayout(pieceCount, aspectRatio, Search(pieceCount, aspectRatio, cols, best, minDiff))
    decreases pieceCount - cols + 1
  {
    if cols > pieceCount {
      SearchEnds(pieceCount, aspectRatio, cols, best, minDiff);
    } else if IsDivisor(pieceCount, cols) && (minDiff.None? || RatioDiff(pieceCount, cols, aspectRatio) < minDiff.value) {
      SearchImproves(pieceCount, aspectRatio, cols, best, minDiff);
      SearchFindsBest(pieceCount, aspectRatio, cols + 1, Layout(pieceCount / cols, cols), Some(RatioDiff(pieceCount, cols, aspectRatio)));
    } else {
      SearchSkips(pieceCount, aspectRatio, cols, best, minDiff);
      SearchFindsBest(pieceCount, aspectRatio, cols + 1, best, minDiff);
    }
  }

  /** Once no remaining divisor comes strictly closer than `minDiff`, the search keeps its layout. */
  lemma {:induction false} SearchKeepsBest(pieceCount: int, aspectRatio: real, cols: int, best: Layout, minDiff: real)
    requires cols >= 2
    requires forall c :: cols <= c && IsDivisor(pieceCount, c) ==> RatioDiff(pieceCount, c, aspectRatio) >= minDiff
    ensures Search(pieceCount, aspectRatio, cols, best, Some(minDiff)) == best
    decreases pieceCount - cols + 1
  {
    if cols <= pieceCount {
      SearchKeepsBest(pieceCount, aspectRatio, cols + 1, best, minDiff);
    }
  }

  /**
   * For every piece count of at least 2 the chosen layout multiplies out to the piece
   * count, has at least two columns, and is the closest-ratio divisor, ties going to
   * the fewest columns.
   */
  lemma BestLayoutIsBest(pieceCount: int, aspectRatio: real)
    requires pieceCount >= 2
    ensures IsBestLayout(pieceCount, aspectRatio, BestLayout(pieceCount, aspectRatio))
    ensures BestLayout(pieceCount, aspectRatio).cols >= 2
  {
    SearchFindsBest(pieceCount, aspectRatio, 2, Layout(2, 2), None);
  }

  /** Below 2 pieces the loop never runs and the initial 2 x 2 comes back. */
  lemma SmallPieceCountDefault(pieceCount: int, aspectRatio: real)
    requires pieceCount < 2
    ensures BestLayout(pieceCount, aspectRatio) == Layout(2, 2)
  {
  }

  predicate IsPrime(p: int) {
    p >= 2 && forall d :: 2 <= d < p ==> p % d != 0
  }

  /** A prime piece count has a single examined divisor, itself: one row of `p` columns. */
  lemma PrimeIsOneRow(p: int, aspectRatio: real)
    requires IsPrime(p)
    ensures BestLayout(p, aspectRatio) == Layout(1, p)
  {
    BestLayoutIsBest(p, aspectRatio);
  }

  lemma SquareRootUnique(a: int, b: int)
    requires a > 0 && b > 0 && a * a == b * b
    ensures a == b
  {
  }

  lemma SquareDivisor(k: int)
    requires k >= 2
    ensures IsDivisor(k * k, k) && (k * k) / k == k
    ensures RatioDiff(k * k, k, 1.0) == 0.0
  {
    MulAtLeast(k, k);
    DivModUnique(k * k, k, k, 0);
    assert k as real / k as real == 1.0;
  }

  /** A divisor whose ratio is exactly 1 has as many rows as columns. */
  lemma ZeroDiffIsSquare(pieceCount: int, cols: int)
    requires IsDivisor(pieceCount, cols) && RatioDiff(pieceCount, cols, 1.0) == 0.0
    ensures cols * cols == pieceCount
  {
    RowsPositive(pieceCount, cols);
    var rows := pieceCount / cols;
    assert cols as real / rows as real == 1.0;
    assert cols as real == rows as real;
  }

  /** With a square image, a square piece count `k * k` is laid out as `k x k`. */
  lemma SquareCountIsSquareGrid(k: int)
    requires k >= 2
    ensures BestLayout(k * k, 1.0) == Layout(k, k)
  {
    var n := k * k;
    SquareDivisor(k);
    BestLayoutIsBest(n, 1.0);
    var g := BestLayout(n, 1.0);
    assert RatioDiff(n, g.cols, 1.0) <= RatioDiff(n, k, 1.0);
    ZeroDiffIsSquare(n, g.cols);
    SquareRootUnique(g.cols, k);
  }

  /** The loop of `calculateGrid`, keeping the best layout found so far. */
  method CalculateGrid(pieceCount: int, aspectRatio: real) returns (layout: Layout)
    ensures layout == BestLayout(pieceCount, aspectRatio)
    ensures pieceCount < 2 ==> layout == Layout(2, 2)
    ensures pieceCount >= 2 ==> IsBestLayout(pieceCount, aspectRatio, layout) && layout.cols >= 2
  {
    var bestCols, bestRows := 2, 2;
    var minDiff: Option<real> := None;
    var cols := 2;
    while cols <= pieceCount
      invariant cols >= 2
      invariant Search(pieceCount, aspectRatio, cols, Layout(bestRows, bestCols), minDiff)
             == BestLayout(pieceCount, aspectRatio)
    {
      if pieceCount % cols == 0 {
        RowsPositive(pieceCount, cols);
        var rows := pieceCount / cols;
        var gridRatio := cols as real / rows as real;
        var diff := Abs(gridRatio - aspectRatio);
        if minDiff.None? || diff < minDiff.value {
          minDiff := Some(diff);
          bestCols := cols;
          bestRows := rows;
        }
      }
      cols := cols + 1;
    }
    layout := Layout(bestRows, bestCols);
    if pieceCount >= 2 {
      BestLayoutIsBest(pieceCount, aspectRatio);
    }
  }
}
