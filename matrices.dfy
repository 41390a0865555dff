/** Real matrices as sequences of rows, with the sums and maxima the cost code relies on. */
module Matrices {

  type Matrix = seq<seq<real>>

  /** `m` has `rows` rows, each of length `cols`. */
  predicate HasShape(m: Matrix, rows: nat, cols: nat) {
    |m| == rows && forall i :: 0 <= i < rows ==> |m[i]| == cols
  }

  /** At least one row, and no row is empty. */
  predicate NonEmpty(m: Matrix) {
    |m| > 0 && forall i :: 0 <= i < |m| ==> |m[i]| > 0
  }

  function RealMax(x: real, y: real): real {
    if x >= y then x else y
  }

  function Relu(x: real): real {
    if x > 0.0 then x else 0.0
  }

  function NatMax(x: nat, y: nat): nat {
    if x >= y then x else y
  }

  /** The contents of a two-dimensional array, row by row. */
  function Rows(a: array2<real>): (m: Matrix)
    reads a
    ensures HasShape(m, a.Length0, a.Length1)
  {
    seq(a.Length0, i requires 0 <= i < a.Length0 reads a =>
      seq(a.Length1, j requires 0 <= j < a.Length1 reads a => a[i, j]))
  }

  /** Two matrices of the same shape that agree on every cell are equal. */
  lemma EqualByCells(m1: Matrix, m2: Matrix, rows: nat, cols: nat)
    requires HasShape(m1, rows, cols) && HasShape(m2, rows, cols)
    requires forall i, j :: 0 <= i < rows && 0 <= j < cols ==> m1[i][j] == m2[i][j]
    ensures m1 == m2
  {
    forall i | 0 <= i < rows
      ensures m1[i] == m2[i]
    {
      assert |m1[i]| == cols == |m2[i]|;
    }
  }

  // ---------------------------------------------------------------- sums

  function Sum(s: seq<real>): real {
    if |s| == 0 then 0.0 else s[0] + Sum(s[1..])
  }

  lemma {:induction false} SumAppend(s: seq<real>, x: real)
    ensures Sum(s + [x]) == Sum(s) + x
  {
    if |s| == 0 {
      assert s + [x] == [x];
      assert Sum([x]) == x + Sum([x][1..]);
    } else {
      assert (s + [x])[1..] == s[1..] + [x];
      SumAppend(s[1..], x);
    }
  }

  /** Every entry of `s` divided by `d` and multiplied by `k`, as `s / d * k` does in numpy. */
  function Rescaled(s: seq<real>, d: real, k: real): (r: seq<real>)
    requires d != 0.0
    ensures |r| == |s|
  {
    seq(|s|, i requires 0 <= i < |s| => s[i] / d * k)
  }

  /** Every entry of `s` divided by `d`, as `s / d` does in numpy. */
  function Divided(s: seq<real>, d: real): (r: seq<real>)
    requires d != 0.0
    ensures |r| == |s|
  {
    seq(|s|, i requires 0 <= i < |s| => s[i] / d)
  }

  lemma {:induction false} SumRescaled(s: seq<real>, d: real, k: real)
    requires d != 0.0
    ensures Sum(Rescaled(s, d, k)) == Sum(s) / d * k
  {
    if |s| > 0 {
      assert forall i :: 0 <= i < |s| - 1 ==> Rescaled(s, d, k)[1..][i] == Rescaled(s[1..], d, k)[i];
      assert Rescaled(s, d, k)[1..] == Rescaled(s[1..], d, k);
      SumRescaled(s[1..], d, k);
      assert Sum(Rescaled(s, d, k)) == s[0] / d * k + Sum(s[1..]) / d * k;
      RescaleDistributes(s[0], Sum(s[1..]), d, k);
    }
  }

  lemma RescaleDistributes(x: real, y: real, d: real, k: real)
    requires d != 0.0
    ensures x / d * k + y / d * k == (x + y) / d * k
  {
    var q := 1.0 / d;
    assert x / d == x * q && y / d == y * q && (x + y) / d == (x + y) * q;
  }

  lemma SumDivided(s: seq<real>, d: real)
    requires d != 0.0
    ensures Sum(Divided(s, d)) == Sum(s) / d
  {
    assert Divided(s, d) == Rescaled(s, d, 1.0);
    SumRescaled(s, d, 1.0);
  }

  /** `n` equal entries `c` add up to `n * c`. */
  lemma {:induction false} SumConstant(s: seq<real>, c: real)
    requires forall i :: 0 <= i < |s| ==> s[i] == c
    ensures Sum(s) == |s| as real * c
  {
    if |s| > 0 {
      SumConstant(s[1..], c);
    }
  }

  // ---------------------------------------------------------------- maxima

  /** The largest entry of a non-empty sequence (numpy `max`). */
  function SeqMax(s: seq<real>): (r: real)
    requires |s| > 0
    ensures forall i :: 0 <= i < |s| ==> s[i] <= r
    ensures exists i :: 0 <= i < |s| && s[i] == r
  {
    if |s| == 1 then s[0]
    else
      var rest := SeqMax(s[1..]);
      assert forall i :: 1 <= i < |s| ==> s[i] == s[1..][i - 1];
      RealMax(s[0], rest)
  }

  /** The largest entry of a matrix with at least one cell (numpy `max` of a 2-D array). */
  function MatMax(m: Matrix): (r: real)
    requires NonEmpty(m)
    ensures forall i, j :: 0 <= i < |m| && 0 <= j < |m[i]| ==> m[i][j] <= r
    ensures exists i, j :: 0 <= i < |m| && 0 <= j < |m[i]| && m[i][j] == r
  {
    var rowMax := seq(|m|, i requires 0 <= i < |m| => SeqMax(m[i]));
    var r := SeqMax(rowMax);
    assert forall i, j :: 0 <= i < |m| && 0 <= j < |m[i]| ==> m[i][j] <= rowMax[i] <= r;
    var k :| 0 <= k < |m| && rowMax[k] == r;
    var l :| 0 <= l < |m[k]| && m[k][l] == rowMax[k];
    r
  }

  /** A value that bounds every cell and is one of the cells is the maximum. */
  lemma MatMaxIsMaximum(m: Matrix, v: real)
    requires NonEmpty(m)
    requires forall i, j :: 0 <= i < |m| && 0 <= j < |m[i]| ==> m[i][j] <= v
    requires exists i, j :: 0 <= i < |m| && 0 <= j < |m[i]| && m[i][j] == v
    ensures MatMax(m) == v
  {
    var i, j :| 0 <= i < |m| && 0 <= j < |m[i]| && m[i][j] == v;
    assert v <= MatMax(m);
  }
}
