/**
 * The motion normaliser of the evaluation pipeline: subtract each column's
 * mean over all frames (removing the resting-face bias), then divide the
 * whole matrix by its global peak absolute value when that peak exceeds
 * 1e-5.
 */
module Normalization {
  import opened Matrices

  /** Below or at this peak the centred matrix is left unscaled. */
  const Epsilon: real := 0.00001

  /**
   * Mean of column j over all rows (numpy's mean along axis 0): it lies
   * between the column's smallest and largest entries.
   */
  function ColumnMean(m: Matrix, j: nat): (mean: real)
    requires IsMatrix(m) && |m| > 0 && j < Width(m)
    ensures exists i | 0 <= i < |m| :: m[i][j] <= mean
    ensures exists i | 0 <= i < |m| :: m[i][j] >= mean
  {
    MeanWithin(Column(m, j));
    Sum(Column(m, j)) / |m| as real
  }

  /**
   * Every entry minus its column's mean: the shape is kept, every column of
   * the result has mean zero (the resting-face bias removed), and the
   * difference between any two frames in a column is kept (the movement).
   * Together these determine the result.
   */
  function Centre(m: Matrix): (c: Matrix)
    requires IsMatrix(m)
    ensures |c| == |m| && IsMatrix(c) && Width(c) == Width(m)
    ensures |m| > 0 ==> forall j | 0 <= j < Width(m) :: ColumnMean(c, j) == 0.0
    ensures forall i, k, j | 0 <= i < |m| && 0 <= k < |m| && 0 <= j < Width(m) ::
      c[i][j] - c[k][j] == m[i][j] - m[k][j]
  {
    var c := seq(|m|, i requires 0 <= i < |m| =>
      seq(Width(m), j requires 0 <= j < Width(m) => m[i][j] - ColumnMean(m, j)));
    CentredColumnsSumToZero(m, c);
    c
  }

  /**
   * Every entry divided by the positive scalar p: the peak absolute value and
   * every column sum are divided by p.
   */
  function Scale(m: Matrix, p: real): (s: Matrix)
    requires IsMatrix(m) && p > 0.0
    ensures |s| == |m| && IsMatrix(s) && Width(s) == Width(m)
    ensures Peak(s) == Peak(m) / p
    ensures forall j | 0 <= j < Width(m) :: Sum(Column(s, j)) == Sum(Column(m, j)) / p
  {
    var s := seq(|m|, i requires 0 <= i < |m| =>
      seq(Width(m), j requires 0 <= j < Width(m) => m[i][j] / p));
    ScaledPeak(m, p, s);
    ScaledColumnSums(m, p, s);
    s
  }

  /** Any rectangular c holding m minus its column means has columns summing to zero. */
  lemma CentredColumnsSumToZero(m: Matrix, c: Matrix)
    requires IsMatrix(m) && |c| == |m| && IsMatrix(c) && Width(c) == Width(m)
    requires forall i, j | 0 <= i < |m| && 0 <= j < Width(m) :: c[i][j] == m[i][j] - ColumnMean(m, j)
    ensures |m| > 0 ==> forall j | 0 <= j < Width(m) :: Sum(Column(c, j)) == 0.0
  {
    if |m| > 0 {
      var n := |m| as real;
      forall j | 0 <= j < Width(m) ensures Sum(Column(c, j)) == 0.0 {
        SumShift(Column(m, j), Column(c, j), ColumnMean(m, j));
        assert Sum(Column(c, j)) == Sum(Column(m, j)) - n * (Sum(Column(m, j)) / n);
      }
    }
  }

  lemma ScaledColumnSums(m: Matrix, p: real, s: Matrix)
    requires IsMatrix(m) && p > 0.0 && |s| == |m| && IsMatrix(s) && Width(s) == Width(m)
    requires forall i, j | 0 <= i < |m| && 0 <= j < Width(m) :: s[i][j] == m[i][j] / p
    ensures forall j | 0 <= j < Width(m) :: Sum(Column(s, j)) == Sum(Column(m, j)) / p
  {
    forall j | 0 <= j < Width(m) ensures Sum(Column(s, j)) == Sum(Column(m, j)) / p {
      SumDivide(Column(m, j), Column(s, j), p);
    }
  }

  /** Dividing every entry by a positive p divides the peak by p. */
  lemma ScaledPeak(m: Matrix, p: real, s: Matrix)
    requires IsMatrix(m) && p > 0.0 && |s| == |m| && IsMatrix(s) && Width(s) == Width(m)
    requires forall i, j | 0 <= i < |m| && 0 <= j < Width(m) :: s[i][j] == m[i][j] / p
    ensures Peak(s) == Peak(m) / p
  {
    if Peak(m) != 0.0 {
      ScaledNonzeroPeak(m, p, s);
    } else {
      ScaledZeroPeak(m, p, s);
    }
  }

  lemma ScaledNonzeroPeak(m: Matrix, p: real, s: Matrix)
    requires IsMatrix(m) && p > 0.0 && |s| == |m| && IsMatrix(s) && Width(s) == Width(m)
    requires forall i, j | 0 <= i < |m| && 0 <= j < Width(m) :: s[i][j] == m[i][j] / p
    requires Peak(m) != 0.0
    ensures Peak(s) == Peak(m) / p
  {
    var top := Peak(m);
    ScaleBounded(m, p, s, top);
    var a, b := PeakAttained(m);
    assert s[a][b] == m[a][b] / p;
    DivideAbs(m[a][b], top, p);
    PeakAt(s, top / p, a, b);
  }

  lemma ScaledZeroPeak(m: Matrix, p: real, s: Matrix)
    requires IsMatrix(m) && p > 0.0 && |s| == |m| && IsMatrix(s) && Width(s) == Width(m)
    requires forall i, j | 0 <= i < |m| && 0 <= j < Width(m) :: s[i][j] == m[i][j] / p
    requires Peak(m) == 0.0
    ensures Peak(s) == Peak(m) / p
  {
    forall i, j | 0 <= i < |s| && 0 <= j < |s[i]| ensures Abs(s[i][j]) <= 0.0 {
      assert Abs(m[i][j]) <= Peak(m);
      ZeroOver(m[i][j], p);
    }
    PeakZero(s);
    ZeroOver(Peak(m), p);
  }

  /** Every entry of s is within the bound of m's entries, divided by p. */
  lemma ScaleBounded(m: Matrix, p: real, s: Matrix, top: real)
    requires IsMatrix(m) && p > 0.0 && |s| == |m| && IsMatrix(s) && Width(s) == Width(m)
    requires forall i, j | 0 <= i < |m| && 0 <= j < Width(m) :: s[i][j] == m[i][j] / p
    requires forall i, j | 0 <= i < |m| && 0 <= j < |m[i]| :: Abs(m[i][j]) <= top
    ensures forall i, j | 0 <= i < |s| && 0 <= j < |s[i]| :: Abs(s[i][j]) <= top / p
  {
    forall i, j | 0 <= i < |s| && 0 <= j < |s[i]|
      ensures Abs(s[i][j]) <= top / p
    {
      assert s[i][j] == m[i][j] / p;
      DivideAbs(m[i][j], top, p);
    }
  }

  lemma ZeroOver(x: real, p: real)
    requires x == 0.0 && p > 0.0
    ensures x / p == 0.0
  {
  }

  lemma DivideSelf(p: real)
    requires p > 0.0
    ensures p / p == 1.0
  {
  }

  /** |x / p| == |x| / p, and it stays within bound / p when |x| is within bound. */
  lemma DivideAbs(x: real, bound: real, p: real)
    requires p > 0.0
    ensures Abs(x / p) == Abs(x) / p
    ensures Abs(x) <= bound ==> Abs(x / p) <= bound / p
  {
  }

  /**
   * The normalised motion sequence. An empty sequence stays empty (the
   * early return of the extractor); otherwise centre, and scale by the
   * centred matrix's peak only when it is above Epsilon.
   */
  function Normalize(m: Matrix): (r: Matrix)
    requires IsMatrix(m)
    ensures |r| == |m| && IsMatrix(r) && Width(r) == Width(m)
  {
    if m == [] then []
    else
      var c := Centre(m);
      var peak := Peak(c);
      if peak > Epsilon then Scale(c, peak) else c
  }

  /** After normalisation every column of a nonempty sequence has mean exactly zero. */
  lemma NormalizeColumnMeanIsZero(m: Matrix, j: nat)
    requires IsMatrix(m) && |m| > 0 && j < Width(m)
    ensures ColumnMean(Normalize(m), j) == 0.0
  {
    var c := Centre(m);
    var peak := Peak(c);
    if peak > Epsilon {
      ZeroMeanColumnSum(c, j);
      var s := Scale(c, peak);
      assert Sum(Column(s, j)) == 0.0 / peak == 0.0;
      assert ColumnMean(s, j) == 0.0 / |m| as real;
      assert Normalize(m) == s;
    } else {
      assert Normalize(m) == c;
    }
  }

  /**
   * The output is the centred matrix divided by one positive scalar (the
   * centred peak, or 1 when unscaled), so the relative size of quiet and
   * loud frames is kept.
   */
  lemma NormalizeIsUniformScaling(m: Matrix) returns (q: real)
    requires IsMatrix(m) && |m| > 0
    ensures q > 0.0
    ensures forall i, j | 0 <= i < |m| && 0 <= j < Width(m) :: Normalize(m)[i][j] == Centre(m)[i][j] / q
  {
    var c := Centre(m);
    var peak := Peak(c);
    if peak > Epsilon {
      q := peak;
      assert Normalize(m) == Scale(c, peak);
    } else {
      q := 1.0;
      assert Normalize(m) == c;
    }
  }

  /** A column with mean zero sums to zero. */
  lemma ZeroMeanColumnSum(m: Matrix, j: nat)
    requires IsMatrix(m) && |m| > 0 && j < Width(m) && ColumnMean(m, j) == 0.0
    ensures Sum(Column(m, j)) == 0.0
  {
    var n := |m| as real;
    assert Sum(Column(m, j)) == n * (Sum(Column(m, j)) / n);
  }

  /**
   * The scaling branch. When the centred peak is above Epsilon the output's
   * peak is exactly 1 and every entry lies in [-1, 1]; otherwise the output
   * is the centred matrix itself, with its peak at most Epsilon.
   */
  lemma NormalizePeak(m: Matrix)
    requires IsMatrix(m) && |m| > 0
    ensures Peak(Centre(m)) > Epsilon ==>
      Peak(Normalize(m)) == 1.0 &&
      forall i, j | 0 <= i < |m| && 0 <= j < Width(m) :: -1.0 <= Normalize(m)[i][j] <= 1.0
    ensures Peak(Centre(m)) <= Epsilon ==>
      Normalize(m) == Centre(m) && Peak(Normalize(m)) <= Epsilon
  {
    var c := Centre(m);
    var peak := Peak(c);
    var r := Normalize(m);
    if peak > Epsilon {
      assert r == Scale(c, peak);
      DivideSelf(peak);
      EntriesWithinPeak(r);
    } else {
      assert r == c;
    }
  }

  lemma EntriesWithinPeak(m: Matrix)
    ensures forall i, j | 0 <= i < |m| && 0 <= j < |m[i]| :: -Peak(m) <= m[i][j] <= Peak(m)
  {
  }

  /** Normalising an already normalised sequence changes nothing. */
  lemma NormalizeIdempotent(m: Matrix)
    requires IsMatrix(m)
    ensures Normalize(Normalize(m)) == Normalize(m)
  {
    if m != [] {
      var r := Normalize(m);
      forall j | 0 <= j < Width(r) ensures ColumnMean(r, j) == 0.0 {
        NormalizeColumnMeanIsZero(m, j);
      }
      CentreOfCentred(r);
      NormalizePeak(m);
      if Peak(r) > Epsilon {
        assert Peak(r) == 1.0;
        ScaleByOne(r);
      }
    }
  }

  /** A matrix whose columns already average to zero is its own centring. */
  lemma CentreOfCentred(m: Matrix)
    requires IsMatrix(m) && |m| > 0
    requires forall j | 0 <= j < Width(m) :: ColumnMean(m, j) == 0.0
    ensures Centre(m) == m
  {
    var c := Centre(m);
    forall i | 0 <= i < |m| ensures c[i] == m[i] {
      assert forall j | 0 <= j < Width(m) :: c[i][j] == m[i][j];
    }
  }

  lemma ScaleByOne(m: Matrix)
    requires IsMatrix(m)
    ensures Scale(m, 1.0) == m
  {
    var s := Scale(m, 1.0);
    forall i | 0 <= i < |m| ensures s[i] == m[i] {
      assert forall j | 0 <= j < Width(m) :: s[i][j] == m[i][j];
    }
  }
}
