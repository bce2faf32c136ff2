/**
 * Real-valued vectors and matrices: the numpy operations the motion
 * normaliser uses (column sums, absolute values, the global peak), over
 * exact reals instead of floating point.
 */
module Matrices {

  type Vector = seq<real>

  /** A matrix is a sequence of rows; one row per video frame. */
  type Matrix = seq<Vector>

  function Abs(x: real): (r: real)
    ensures r >= 0.0 && (r == x || r == -x)
  {
    if x < 0.0 then -x else x
  }

  function Max(a: real, b: real): (r: real)
    ensures r >= a && r >= b && (r == a || r == b)
  {
    if a >= b then a else b
  }

  /** Number of columns: the length of the first row, as numpy's shape[1]. */
  function Width(m: Matrix): nat
  {
    if m == [] then 0 else |m[0]|
  }

  /** Every row has the same length, as in a two-dimensional numpy array. */
  predicate IsMatrix(m: Matrix)
  {
    forall i | 0 <= i < |m| :: |m[i]| == Width(m)
  }

  function Sum(s: Vector): real
  {
    if s == [] then 0.0 else s[0] + Sum(s[1..])
  }

  /** Column j of m, top to bottom. */
  function Column(m: Matrix, j: nat): (c: Vector)
    requires IsMatrix(m) && j < Width(m)
    ensures |c| == |m|
    ensures forall i | 0 <= i < |m| :: c[i] == m[i][j]
  {
    seq(|m|, i requires 0 <= i < |m| => m[i][j])
  }

  /** Subtracting the same constant from every element lowers the sum by n times it. */
  lemma {:induction false} SumShift(s: Vector, t: Vector, c: real)
    requires |t| == |s|
    requires forall i | 0 <= i < |s| :: t[i] == s[i] - c
    ensures Sum(t) == Sum(s) - |s| as real * c
  {
    if s != [] {
      SumShift(s[1..], t[1..], c);
    }
  }

  /** Dividing every element by the same nonzero divisor divides the sum by it. */
  lemma {:induction false} SumDivide(s: Vector, t: Vector, p: real)
    requires p != 0.0 && |t| == |s|
    requires forall i | 0 <= i < |s| :: t[i] == s[i] / p
    ensures Sum(t) == Sum(s) / p
  {
    if s != [] {
      SumDivide(s[1..], t[1..], p);
      calc {
        Sum(t);
        t[0] + Sum(t[1..]);
        s[0] / p + Sum(s[1..]) / p;
        (s[0] + Sum(s[1..])) / p;
      }
    }
  }

  /** Every element above x makes the sum exceed n times x. */
  lemma {:induction false} SumAbove(s: Vector, x: real)
    requires |s| > 0
    requires forall i | 0 <= i < |s| :: s[i] > x
    ensures Sum(s) > |s| as real * x
  {
    if |s| > 1 {
      SumAbove(s[1..], x);
    }
  }

  /** Every element below x keeps the sum under n times x. */
  lemma {:induction false} SumBelow(s: Vector, x: real)
    requires |s| > 0
    requires forall i | 0 <= i < |s| :: s[i] < x
    ensures Sum(s) < |s| as real * x
  {
    if |s| > 1 {
      SumBelow(s[1..], x);
    }
  }

  /** The mean of a nonempty vector lies between its smallest and largest elements. */
  lemma MeanWithin(s: Vector)
    requires |s| > 0
    ensures exists i | 0 <= i < |s| :: s[i] <= Sum(s) / |s| as real
    ensures exists i | 0 <= i < |s| :: s[i] >= Sum(s) / |s| as real
  {
    var n := |s| as real;
    var mean := Sum(s) / n;
    assert Sum(s) == n * mean;
    if forall i | 0 <= i < |s| :: s[i] > mean {
      SumAbove(s, mean);
    }
    if forall i | 0 <= i < |s| :: s[i] < mean {
      SumBelow(s, mean);
    }
  }

  /** Largest absolute value in a row (numpy's max(abs(v))); 0 for an empty row. */
  function RowPeak(v: Vector): (r: real)
    ensures r >= 0.0
    ensures forall j | 0 <= j < |v| :: Abs(v[j]) <= r
    ensures r == 0.0 || exists j | 0 <= j < |v| :: Abs(v[j]) == r
  {
    if v == [] then 0.0
    else
      var rest := RowPeak(v[1..]);
      assert rest == 0.0 || exists j | 0 <= j < |v[1..]| :: Abs(v[1..][j]) == rest;
      assert rest == 0.0 || exists j | 1 <= j < |v| :: Abs(v[j]) == rest by {
        if rest != 0.0 {
          var k :| 0 <= k < |v[1..]| && Abs(v[1..][k]) == rest;
          assert Abs(v[k + 1]) == rest;
        }
      }
      Max(Abs(v[0]), rest)
  }

  /**
   * Largest absolute value over the whole matrix, numpy's max(abs(m)):
   * an upper bound of every entry that is attained by some entry (or 0).
   */
  function Peak(m: Matrix): (r: real)
    ensures r >= 0.0
    ensures forall i, j | 0 <= i < |m| && 0 <= j < |m[i]| :: Abs(m[i][j]) <= r
    ensures r == 0.0 || exists i, j | 0 <= i < |m| && 0 <= j < |m[i]| :: Abs(m[i][j]) == r
  {
    if m == [] then 0.0
    else
      var head := RowPeak(m[0]);
      var rest := Peak(m[1..]);
      assert forall i, j | 1 <= i < |m| && 0 <= j < |m[i]| :: Abs(m[i][j]) <= rest by {
        forall i, j | 1 <= i < |m| && 0 <= j < |m[i]| ensures Abs(m[i][j]) <= rest {
          assert m[i] == m[1..][i - 1];
        }
      }
      assert rest == 0.0 || exists i, j | 1 <= i < |m| && 0 <= j < |m[i]| :: Abs(m[i][j]) == rest by {
        if rest != 0.0 {
          var a, b :| 0 <= a < |m[1..]| && 0 <= b < |m[1..][a]| && Abs(m[1..][a][b]) == rest;
          assert m[a + 1] == m[1..][a];
        }
      }
      Max(head, rest)
  }

  /** A nonzero peak is attained at some entry (a, b). */
  lemma PeakAttained(m: Matrix) returns (a: nat, b: nat)
    requires Peak(m) != 0.0
    ensures a < |m| && b < |m[a]| && Abs(m[a][b]) == Peak(m)
  {
    a, b :| 0 <= a < |m| && 0 <= b < |m[a]| && Abs(m[a][b]) == Peak(m);
  }

  /** A bound of every entry that entry (a, b) attains is the peak. */
  lemma PeakAt(m: Matrix, v: real, a: nat, b: nat)
    requires forall i, j | 0 <= i < |m| && 0 <= j < |m[i]| :: Abs(m[i][j]) <= v
    requires a < |m| && b < |m[a]| && Abs(m[a][b]) == v
    ensures Peak(m) == v
  {
  }

  /** A matrix whose entries are all zero has peak 0. */
  lemma PeakZero(m: Matrix)
    requires forall i, j | 0 <= i < |m| && 0 <= j < |m[i]| :: Abs(m[i][j]) <= 0.0
    ensures Peak(m) == 0.0
  {
  }
}
