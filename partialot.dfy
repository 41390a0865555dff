/**
 * Partial optimal transport: the cost matrix extended by a sink row and column,
 * the balancing of two mass vectors through the sink, the inputs handed to the
 * exact solver, and the relocation distance between two point lists.
 * The transport solvers themselves are parameters.
 */
module PartialOt {
  import opened Errors
  import opened Matrices
  import opened Slices
  import Cost

  // ---------------------------------------------------------------- extended cost matrix

  /** `penalty_unb`: either the string "max" or a number. */
  datatype Penalty = MatrixMaximum | Fixed(value: real)

  /** `penalty_unb`, with "max" replaced by the largest entry of the cost matrix. */
  function ResolvePenalty(c: Matrix, cols: nat, penalty: Penalty): (r: Result<real>)
    requires HasShape(c, |c|, cols)
    ensures r.Err? <==> penalty.MatrixMaximum? && (|c| == 0 || cols == 0)
    ensures r.Err? ==> r.error == EmptyMatrix
    ensures r.Ok? && penalty.Fixed? ==> r.value == penalty.value
    ensures r.Ok? && penalty.MatrixMaximum? ==>
      && (forall i, j :: 0 <= i < |c| && 0 <= j < cols ==> c[i][j] <= r.value)
      && (exists i, j :: 0 <= i < |c| && 0 <= j < cols && c[i][j] == r.value)
  {
    match penalty
    case Fixed(v) => Ok(v)
    case MatrixMaximum => if |c| == 0 || cols == 0 then Err(EmptyMatrix) else Ok(MatMax(c))
  }

  /** The cost matrix with one more row and one more column, all of whose cells hold `p`. */
  function Extend(c: Matrix, cols: nat, p: real): (e: Matrix)
    requires HasShape(c, |c|, cols)
    ensures HasShape(e, |c| + 1, cols + 1)
  {
    seq(|c| + 1, i requires 0 <= i < |c| + 1 =>
      seq(cols + 1, j requires 0 <= j < cols + 1 => if i < |c| && j < cols then c[i][j] else p))
  }

  /** Every entry divided by the matrix's maximum. */
  function Normalize(e: Matrix): (r: Matrix)
    requires NonEmpty(e) && MatMax(e) != 0.0
    ensures |r| == |e| && forall i :: 0 <= i < |e| ==> |r[i]| == |e[i]|
  {
    var mx := MatMax(e);
    seq(|e|, i requires 0 <= i < |e| => seq(|e[i]|, j requires 0 <= j < |e[i]| => e[i][j] / mx))
  }

  /**
   * The matrix `PartialOT` stores: the extended matrix, divided by its maximum when
   * `normalizeC` is set. A zero maximum would make numpy divide by zero.
   */
  function ExtendedCostMatrix(c: Matrix, cols: nat, penalty: Penalty, normalizeC: bool): (r: Result<Matrix>)
    requires HasShape(c, |c|, cols)
    ensures r.Ok? ==> HasShape(r.value, |c| + 1, cols + 1)
    ensures r.Err? && r.error == EmptyMatrix <==> penalty.MatrixMaximum? && (|c| == 0 || cols == 0)
    ensures r.Err? ==> r.error == EmptyMatrix || (r.error == NotANumber && normalizeC)
  {
    var p := ResolvePenalty(c, cols, penalty);
    if p.Err? then Err(p.error)
    else
      var e := Extend(c, cols, p.value);
      if !normalizeC then Ok(e)
      else if MatMax(e) == 0.0 then Err(NotANumber)
      else Ok(Normalize(e))
  }

  /**
   * The layout of the extended matrix: the input in the top-left block, and the
   * penalty in every cell of the last row and of the last column, the corner included.
   */
  lemma ExtendLayout(c: Matrix, cols: nat, p: real)
    requires HasShape(c, |c|, cols)
    ensures var e := Extend(c, cols, p);
            && HasShape(e, |c| + 1, cols + 1)
            && (forall i, j :: 0 <= i < |c| && 0 <= j < cols ==> e[i][j] == c[i][j])
            && (forall j :: 0 <= j <= cols ==> e[|c|][j] == p)
            && (forall i :: 0 <= i <= |c| ==> e[i][cols] == p)
  {
  }

  /** The maximum of the extended matrix is the larger of the input's maximum and the penalty. */
  lemma ExtendMax(c: Matrix, cols: nat, p: real)
    requires HasShape(c, |c|, cols) && |c| > 0 && cols > 0
    ensures NonEmpty(c)
    ensures MatMax(Extend(c, cols, p)) == RealMax(MatMax(c), p)
  {
    var e := Extend(c, cols, p);
    var v := RealMax(MatMax(c), p);
    forall i, j | 0 <= i < |e| && 0 <= j < |e[i]|
      ensures e[i][j] <= v
    {
      if i < |c| && j < cols {
        assert e[i][j] == c[i][j] <= MatMax(c);
      }
    }
    if MatMax(c) >= p {
      var i, j :| 0 <= i < |c| && 0 <= j < |c[i]| && c[i][j] == MatMax(c);
      assert e[i][j] == v;
    } else {
      assert e[|c|][cols] == v;
    }
    MatMaxIsMaximum(e, v);
  }

  /** With penalty "max" the extension does not change the maximum of the matrix. */
  lemma MaxPenaltyKeepsMaximum(c: Matrix, cols: nat)
    requires HasShape(c, |c|, cols) && |c| > 0 && cols > 0
    ensures ResolvePenalty(c, cols, MatrixMaximum).Ok?
    ensures MatMax(Extend(c, cols, ResolvePenalty(c, cols, MatrixMaximum).value)) == MatMax(c)
  {
    ExtendMax(c, cols, MatMax(c));
  }

  /** Dividing by a positive maximum leaves every entry at most 1 and the maximum exactly 1. */
  lemma NormalizeMax(e: Matrix)
    requires NonEmpty(e) && MatMax(e) > 0.0
    ensures NonEmpty(Normalize(e))
    ensures forall i, j :: 0 <= i < |e| && 0 <= j < |e[i]| ==> Normalize(e)[i][j] == e[i][j] / MatMax(e)
    ensures forall i, j :: 0 <= i < |e| && 0 <= j < |e[i]| ==> Normalize(e)[i][j] <= 1.0
    ensures MatMax(Normalize(e)) == 1.0
  {
    var mx := MatMax(e);
    var r := Normalize(e);
    forall i, j | 0 <= i < |e| && 0 <= j < |e[i]|
      ensures r[i][j] <= 1.0
    {
      QuotientAtMostOne(e[i][j], mx);
    }
    var i, j :| 0 <= i < |e| && 0 <= j < |e[i]| && e[i][j] == mx;
    assert r[i][j] == 1.0;
    MatMaxIsMaximum(r, 1.0);
  }

  lemma QuotientAtMostOne(x: real, m: real)
    requires m > 0.0 && x <= m
    ensures x / m <= 1.0
  {
    assert x / m * m == x;
  }

  /** What the stored matrix is, in the cases the constructor distinguishes. */
  lemma ExtendedCostMatrixCases(c: Matrix, cols: nat, penalty: Penalty, normalizeC: bool)
    requires HasShape(c, |c|, cols)
    ensures var r := ExtendedCostMatrix(c, cols, penalty, normalizeC);
            && (r.Err? <==>
                  (penalty.MatrixMaximum? && (|c| == 0 || cols == 0)) ||
                  (normalizeC && ResolvePenalty(c, cols, penalty).Ok? &&
                   MatMax(Extend(c, cols, ResolvePenalty(c, cols, penalty).value)) == 0.0))
            && (r.Ok? ==> HasShape(r.value, |c| + 1, cols + 1))
            && (r.Ok? && !normalizeC ==> r.value == Extend(c, cols, ResolvePenalty(c, cols, penalty).value))
            && (r.Ok? && normalizeC ==>
                  var e := Extend(c, cols, ResolvePenalty(c, cols, penalty).value);
                  MatMax(e) > 0.0 ==>
                    && (forall i, j :: 0 <= i <= |c| && 0 <= j <= cols ==> r.value[i][j] == e[i][j] / MatMax(e))
                    && MatMax(r.value) == 1.0)
  {
    var r := ExtendedCostMatrix(c, cols, penalty, normalizeC);
    var p := ResolvePenalty(c, cols, penalty);
    if r.Ok? && normalizeC {
      var e := Extend(c, cols, p.value);
      if MatMax(e) > 0.0 {
        NormalizeMax(e);
      }
    }
  }

  /**
   * The matrix stored with the default arguments (normalize_c=True, penalty_unb="max"),
   * as in `PartialOT(cost)`: every entry divided by the input's maximum, and 1 in every
   * cell of the sink row and column.
   */
  lemma DefaultCostMatrix(c: Matrix, cols: nat)
    requires HasShape(c, |c|, cols) && |c| > 0 && cols > 0 && MatMax(c) > 0.0
    ensures var r := ExtendedCostMatrix(c, cols, MatrixMaximum, true);
            && r.Ok? && HasShape(r.value, |c| + 1, cols + 1)
            && (forall i, j :: 0 <= i < |c| && 0 <= j < cols ==> r.value[i][j] == c[i][j] / MatMax(c))
            && (forall j :: 0 <= j <= cols ==> r.value[|c|][j] == 1.0)
            && (forall i :: 0 <= i <= |c| ==> r.value[i][cols] == 1.0)
            && MatMax(r.value) == 1.0
  {
    var mx := MatMax(c);
    MaxPenaltyKeepsMaximum(c, cols);
    assert ResolvePenalty(c, cols, MatrixMaximum) == Ok(mx);
    var e := Extend(c, cols, mx);
    assert ExtendedCostMatrix(c, cols, MatrixMaximum, true) == Ok(Normalize(e));
    NormalizeMax(e);
    NormalizedExtension(c, cols, mx);
  }

  /** The extension by the penalty `mx`, divided by `mx`: entries over `mx`, and 1 in the sink row and column. */
  lemma NormalizedExtension(c: Matrix, cols: nat, mx: real)
    requires HasShape(c, |c|, cols) && mx > 0.0
    requires NonEmpty(Extend(c, cols, mx)) && MatMax(Extend(c, cols, mx)) == mx
    ensures var n := Normalize(Extend(c, cols, mx));
            && (forall i, j :: 0 <= i < |c| && 0 <= j < cols ==> n[i][j] == c[i][j] / mx)
            && (forall j :: 0 <= j <= cols ==> n[|c|][j] == 1.0)
            && (forall i :: 0 <= i <= |c| ==> n[i][cols] == 1.0)
  {
    assert mx / mx == 1.0;
  }

  // ---------------------------------------------------------------- the PartialOT object

  /** The transport backend chosen at construction. */
  datatype Backend =
    | Emd                                   // exact solver, `wasserstein.EMD()`
    | Sinkhorn(blur: real, reach: real, scaling: real, mode: string, spatiotemporal: bool)

  /** The backend `PartialOT.__init__` selects, with the fixed regularisation parameters. */
  function SelectBackend(computeExact: bool, spatiotemporal: bool): (b: Backend)
    ensures b.Emd? <==> computeExact
    ensures b.Sinkhorn? ==> b == Sinkhorn(0.1, 0.01, 0.1, "unbalanced", spatiotemporal)
  {
    if computeExact then Emd else Sinkhorn(0.1, 0.01, 0.1, "unbalanced", spatiotemporal)
  }

  /** `PartialOT.__init__` can run to completion on these arguments. */
  predicate Constructible(c: array2<real>, penalty: Penalty, normalizeC: bool)
    reads c
  {
    ExtendedCostMatrix(Rows(c), c.Length1, penalty, normalizeC).Ok?
  }

  /** partialot.py:27-31: a zero array of one more row and column, filled by slice assignment. */
  method ExtendedArray(c: array2<real>, p: real) returns (e: array2<real>)
    ensures fresh(e) && Rows(e) == Extend(Rows(c), c.Length1, p)
  {
    var clen, cwid := c.Length0, c.Length1;
    e := new real[clen + 1, cwid + 1]((i, j) => 0.0);
    AssignBlock(e, 0, 0, Rows(c), clen, cwid);
    FillRect(e, clen, clen + 1, 0, cwid + 1, p);
    FillRect(e, 0, clen + 1, cwid, cwid + 1, p);
    EqualByCells(Rows(e), Extend(Rows(c), cwid, p), clen + 1, cwid + 1);
  }

  /** partialot.py:33-36: the matrix divided by its maximum. */
  method NormalizeArray(e: array2<real>)
    requires e.Length0 > 0 && e.Length1 > 0 && MatMax(Rows(e)) != 0.0
    modifies e
    ensures Rows(e) == Normalize(old(Rows(e)))
  {
    var mx := MatMax(Rows(e));
    ghost var before := Rows(e);
    DivideAll(e, mx);
    EqualByCells(Rows(e), Normalize(before), e.Length0, e.Length1);
  }

  /** partialot.py:25-36: the stored matrix, built in a new array. */
  method BuildCostMatrix(c: array2<real>, penalty: Penalty, normalizeC: bool) returns (e: array2<real>)
    requires Constructible(c, penalty, normalizeC)
    ensures fresh(e) && ExtendedCostMatrix(Rows(c), c.Length1, penalty, normalizeC) == Ok(Rows(e))
  {
    var s := Rows(c);
    var p := ResolvePenalty(s, c.Length1, penalty).value;
    e := ExtendedArray(c, p);
    if normalizeC {
      NormalizeArray(e);
    }
  }

  class PartialOT {
    const computeExact: bool
    const normSum1: bool
    /** The extended (and possibly normalised) cost matrix the backend works on. */
    const costMatrix: array2<real>
    const backend: Backend
    ghost const source: Matrix
    ghost const sourceCols: nat
    ghost const penalty: Penalty
    ghost const normalizeC: bool

    ghost predicate Valid()
      reads costMatrix
    {
      && HasShape(source, |source|, sourceCols)
      && ExtendedCostMatrix(source, sourceCols, penalty, normalizeC) == Ok(Rows(costMatrix))
      && backend.Emd? == computeExact
    }

    /**
     * `PartialOT.__init__`: resolves the penalty, builds the extended matrix in a
     * zero array by slice assignment, normalises it and chooses the backend.
     */
    constructor (c: array2<real>, normalizeC: bool := true, penalty: Penalty := MatrixMaximum,
                 computeExact: bool := false, normSum1: bool := false, spatiotemporal: bool := false)
      requires Constructible(c, penalty, normalizeC)
      ensures Valid() && fresh(costMatrix)
      ensures source == Rows(c) && sourceCols == c.Length1
      ensures this.penalty == penalty && this.normalizeC == normalizeC
      ensures this.computeExact == computeExact && this.normSum1 == normSum1
      ensures backend == SelectBackend(computeExact, spatiotemporal)
    {
      this.computeExact := computeExact;
      this.normSum1 := normSum1;
      var s := Rows(c);
      var e := BuildCostMatrix(c, penalty, normalizeC);
      this.costMatrix := e;
      this.backend := SelectBackend(computeExact, spatiotemporal);
      this.source := s;
      this.sourceCols := c.Length1;
      this.penalty := penalty;
      this.normalizeC := normalizeC;
    }

    /**
     * `PartialOT.__call__` on a batch of prediction rows `a` and ground-truth rows `b`:
     * balances the masses through the sink, then either checks for a single row and
     * hands the renormalised marginals to the exact solver `emd`, or hands the whole
     * balanced batch to the regularised solver `sinkhorn`.
     */
    function Call(a: seq<seq<real>>, b: seq<seq<real>>,
                  emd: (seq<real>, seq<real>, Matrix) -> real,
                  sinkhorn: (Backend, Matrix, seq<seq<real>>, seq<seq<real>>) -> real): (r: Result<real>)
      requires Valid()
      reads costMatrix
      ensures |a| != |b| ==> r == Err(ShapeError)
      ensures computeExact && |a| == |b| && |a| != 1 ==> r == Err(AssertionError)
      ensures computeExact ==>
        (r.Ok? <==> ExactInputs(a, b, normSum1).Ok?) &&
        (r.Ok? ==> r.value == emd(ExactInputs(a, b, normSum1).value.0, ExactInputs(a, b, normSum1).value.1,
                                  Rows(costMatrix)))
      ensures !computeExact ==>
        (r.Ok? <==> |a| == |b|) &&
        (r.Ok? ==> r.value == sinkhorn(backend, Rows(costMatrix), Balance(a, b).value.0, Balance(a, b).value.1))
    {
      if computeExact then
        var inputs := ExactInputs(a, b, normSum1);
        if inputs.Err? then Err(inputs.error) else Ok(emd(inputs.value.0, inputs.value.1, Rows(costMatrix)))
      else
        var balanced := Balance(a, b);
        if balanced.Err? then Err(balanced.error)
        else Ok(sinkhorn(backend, Rows(costMatrix), balanced.value.0, balanced.value.1))
    }
  }

  /**
   * The constructor as the caller sees it: `PartialOT(...)` raises when the penalty
   * "max" meets a zero-size matrix, and produces NaN entries when it normalises by a
   * zero maximum.
   */
  method Construct(c: array2<real>, normalizeC: bool := true, penalty: Penalty := MatrixMaximum,
                   computeExact: bool := false, normSum1: bool := false, spatiotemporal: bool := false)
    returns (r: Result<PartialOT>)
    ensures r.Err? <==> ExtendedCostMatrix(Rows(c), c.Length1, penalty, normalizeC).Err?
    ensures r.Err? ==> r.error == ExtendedCostMatrix(Rows(c), c.Length1, penalty, normalizeC).error
    ensures r.Ok? ==> fresh(r.value) && fresh(r.value.costMatrix) && r.value.Valid()
    ensures r.Ok? ==> r.value.source == Rows(c) && r.value.sourceCols == c.Length1
    ensures r.Ok? ==> r.value.penalty == penalty && r.value.normalizeC == normalizeC
    ensures r.Ok? ==> r.value.computeExact == computeExact && r.value.normSum1 == normSum1
    ensures r.Ok? ==> r.value.backend == SelectBackend(computeExact, spatiotemporal)
  {
    var m := ExtendedCostMatrix(Rows(c), c.Length1, penalty, normalizeC);
    if m.Err? {
      return Err(m.error);
    }
    var ot := new PartialOT(c, normalizeC, penalty, computeExact, normSum1, spatiotemporal);
    return Ok(ot);
  }

  // ---------------------------------------------------------------- mass balancing

  /**
   * One row of the balancing in `__call__`: the prediction gets the missing mass
   * `relu(Σb − Σa)` as its sink entry and the ground truth gets `relu(Σa − Σb)`.
   */
  function BalanceRow(a: seq<real>, b: seq<real>): (r: (seq<real>, seq<real>))
    ensures |r.0| == |a| + 1 && r.0[..|a|] == a
    ensures |r.1| == |b| + 1 && r.1[..|b|] == b
    ensures r.0[|a|] >= 0.0 && r.1[|b|] >= 0.0
    ensures !(r.0[|a|] > 0.0 && r.1[|b|] > 0.0)
    ensures Sum(r.0) == RealMax(Sum(a), Sum(b)) && Sum(r.1) == RealMax(Sum(a), Sum(b))
    ensures Sum(a) == Sum(b) ==> r.0[|a|] == 0.0 && r.1[|b|] == 0.0
    ensures a == b ==> r.0 == r.1
  {
    var diff := Sum(a) - Sum(b);
    var diffPos, diffNeg := Relu(diff), Relu(-diff);
    SumAppend(a, diffNeg);
    SumAppend(b, diffPos);
    assert (a + [diffNeg])[..|a|] == a;
    assert (b + [diffPos])[..|b|] == b;
    (a + [diffNeg], b + [diffPos])
  }

  /** The balancing of a whole batch, row by row; batches of different sizes do not combine. */
  function Balance(a: seq<seq<real>>, b: seq<seq<real>>): (r: Result<(seq<seq<real>>, seq<seq<real>>)>)
    ensures r.Ok? <==> |a| == |b|
    ensures r.Err? ==> r.error == ShapeError
    ensures r.Ok? ==> |r.value.0| == |a| && |r.value.1| == |b|
    ensures r.Ok? ==> forall k :: 0 <= k < |a| ==>
      (r.value.0[k], r.value.1[k]) == BalanceRow(a[k], b[k])
  {
    if |a| != |b| then Err(ShapeError)
    else
      Ok((seq(|a|, k requires 0 <= k < |a| => BalanceRow(a[k], b[k]).0),
          seq(|a|, k requires 0 <= k < |a| => BalanceRow(a[k], b[k]).1)))
  }

  /** Every balanced row pair has equal sums, the larger of the two original sums. */
  lemma BalanceConservesMass(a: seq<seq<real>>, b: seq<seq<real>>, k: nat)
    requires |a| == |b| && k < |a|
    ensures Balance(a, b).Ok?
    ensures var r := Balance(a, b).value;
            Sum(r.0[k]) == Sum(r.1[k]) == RealMax(Sum(a[k]), Sum(b[k]))
  {
    var _ := BalanceRow(a[k], b[k]);
  }

  // ---------------------------------------------------------------- exact path

  /**
   * The marginals handed to the exact solver after the sink entries are appended:
   * with `normSum1` both are divided by their sums; otherwise the prediction is
   * rescaled to the ground truth's sum.
   */
  function ExactMarginals(x: seq<real>, y: seq<real>, normSum1: bool): (r: Result<(seq<real>, seq<real>)>)
    ensures r.Err? <==> Sum(x) == 0.0 || (normSum1 && Sum(y) == 0.0)
    ensures r.Err? ==> r.error == NotANumber
    ensures r.Ok? ==> |r.value.0| == |x| && |r.value.1| == |y|
    ensures r.Ok? ==> Sum(r.value.0) == Sum(r.value.1)
    ensures r.Ok? && normSum1 ==> Sum(r.value.0) == 1.0 && Sum(r.value.1) == 1.0
    ensures r.Ok? && !normSum1 ==> r.value.1 == y
    ensures r.Ok? && !normSum1 && Sum(x) == Sum(y) ==> r.value.0 == x
  {
    if normSum1 then
      if Sum(x) == 0.0 || Sum(y) == 0.0 then Err(NotANumber)
      else
        SumDividedBySum(x);
        SumDividedBySum(y);
        Ok((Divided(x, Sum(x)), Divided(y, Sum(y))))
    else
      if Sum(x) == 0.0 then Err(NotANumber)
      else
        SumRescaledBySum(x, Sum(y));
        assert Sum(x) == Sum(y) ==> Rescaled(x, Sum(x), Sum(y)) == x;
        Ok((Rescaled(x, Sum(x), Sum(y)), y))
  }

  lemma SumDividedBySum(x: seq<real>)
    requires Sum(x) != 0.0
    ensures Sum(Divided(x, Sum(x))) == 1.0
  {
    SumDivided(x, Sum(x));
    var d := Sum(x);
    assert d / d == 1.0;
  }

  lemma SumRescaledBySum(x: seq<real>, k: real)
    requires Sum(x) != 0.0
    ensures Sum(Rescaled(x, Sum(x), k)) == k
  {
    SumRescaled(x, Sum(x), k);
    var d := Sum(x);
    assert d / d == 1.0;
    assert d / d * k == 1.0 * k;
  }

  /**
   * The arguments of the exact solver in `__call__`: after balancing, the batch must
   * hold exactly one row on each side; that row is squeezed and renormalised.
   */
  function ExactInputs(a: seq<seq<real>>, b: seq<seq<real>>, normSum1: bool): (r: Result<(seq<real>, seq<real>)>)
    ensures |a| != |b| ==> r == Err(ShapeError)
    ensures |a| == |b| && |a| != 1 ==> r == Err(AssertionError)
    ensures |a| == |b| == 1 ==> r == ExactMarginals(BalanceRow(a[0], b[0]).0, BalanceRow(a[0], b[0]).1, normSum1)
  {
    var balanced := Balance(a, b);
    if balanced.Err? then Err(balanced.error)
    else if !(|a| == 1 && |b| == 1) then Err(AssertionError)
    else ExactMarginals(balanced.value.0[0], balanced.value.1[0], normSum1)
  }

  /**
   * What the exact solver receives from one row pair: two vectors one longer than the
   * rows, with equal sums; without `normSum1` the balanced rows themselves.
   */
  lemma ExactInputsBalanced(a: seq<real>, b: seq<real>, normSum1: bool)
    requires RealMax(Sum(a), Sum(b)) != 0.0
    ensures var r := ExactInputs([a], [b], normSum1);
            && r.Ok?
            && |r.value.0| == |a| + 1 && |r.value.1| == |b| + 1
            && Sum(r.value.0) == Sum(r.value.1)
            && (!normSum1 ==> r.value == BalanceRow(a, b))
            && (normSum1 ==> Sum(r.value.0) == 1.0)
  {
    var ext := BalanceRow(a, b);
    var _ := ExactMarginals(ext.0, ext.1, normSum1);
  }

  /** Identical inputs reach either solver as identical extended distributions. */
  lemma IdenticalInputs(a: seq<seq<real>>, normSum1: bool)
    ensures Balance(a, a).Ok?
    ensures forall k :: 0 <= k < |a| ==> Balance(a, a).value.0[k] == Balance(a, a).value.1[k]
    ensures ExactInputs(a, a, normSum1).Ok? ==> ExactInputs(a, a, normSum1).value.0 == ExactInputs(a, a, normSum1).value.1
  {
    var r := Balance(a, a).value;
    forall k | 0 <= k < |a|
      ensures r.0[k] == r.1[k]
    {
      var _ := BalanceRow(a[k], a[k]);
    }
    if |a| == 1 {
      var ext := BalanceRow(a[0], a[0]);
      var _ := ExactMarginals(ext.0, ext.1, normSum1);
    }
  }

  // ---------------------------------------------------------------- relocation

  /** What `partial_ot_relocation` returns. */
  datatype Relocation = Distance(cost: real) | TransportPlan(plan: Matrix)

  function Abs(x: int): nat {
    if x < 0 then -x else x
  }

  /** `k` copies of the import location. */
  function Copies(p: Cost.Point, k: nat): (r: seq<Cost.Point>)
    ensures |r| == k && forall i :: 0 <= i < k ==> r[i] == p
  {
    seq(k, _ => p)
  }

  /** The shorter of the two location lists padded with copies of the import location. */
  function PadLocations(pred: seq<Cost.Point>, gt: seq<Cost.Point>, importLocation: Cost.Point)
    : (r: (seq<Cost.Point>, seq<Cost.Point>))
    ensures |r.0| == |r.1| == NatMax(|pred|, |gt|)
    ensures r.0[..|pred|] == pred && r.1[..|gt|] == gt
    ensures forall i :: |pred| <= i < |r.0| ==> r.0[i] == importLocation
    ensures forall i :: |gt| <= i < |r.1| ==> r.1[i] == importLocation
  {
    var lenDiff := |pred| - |gt|;
    var fill := Copies(importLocation, Abs(lenDiff));
    assert (pred + fill)[..|pred|] == pred && (gt + fill)[..|gt|] == gt;
    if lenDiff < 0 then (pred + fill, gt) else (pred, gt + fill)
  }

  /** `np.ones(n) / n`: a uniform distribution over `n` points. */
  function UniformWeights(n: nat): (w: seq<real>)
    ensures |w| == n && forall i :: 0 <= i < n ==> w[i] == 1.0 / n as real
    ensures n > 0 ==> Sum(w) == 1.0
  {
    var w := seq(n, i requires 0 <= i < n => 1.0 / n as real);
    SumConstant(w, if n == 0 then 0.0 else 1.0 / n as real);
    w
  }

  /** The start index numpy gives the slice `[k:]` on an axis of length `len`. */
  function SliceStart(k: int, len: nat): (s: nat)
    ensures s <= len
  {
    if k >= 0 then (if k <= len then k else len)
    else if len + k >= 0 then len + k else 0
  }

  /**
   * The override of partialot.py:100-103 as written: `cost_matrix[-len_diff:, :]`
   * when the prediction list was padded, `cost_matrix[:, -len_diff:]` otherwise.
   */
  function OverrideAsWritten(c: Matrix, n: nat, lenDiff: int, phi: real): (r: Matrix)
    requires HasShape(c, n, n)
    ensures HasShape(r, n, n)
  {
    var from := SliceStart(-lenDiff, n);
    seq(n, i requires 0 <= i < n => seq(n, j requires 0 <= j < n =>
      if (lenDiff < 0 && i >= from) || (lenDiff >= 0 && j >= from) then phi else c[i][j]))
  }

  /** With a longer prediction list the override hits exactly the padded ground-truth columns. */
  lemma OverrideWhenPredictionLonger(c: Matrix, predLen: nat, gtLen: nat, phi: real)
    requires predLen > gtLen && HasShape(c, predLen, predLen)
    ensures OverrideAsWritten(c, predLen, predLen - gtLen, phi) == OverrideIntended(c, predLen, gtLen, phi)
  {
    assert SliceStart(-(predLen - gtLen), predLen) == gtLen;
    EqualByCells(OverrideAsWritten(c, predLen, predLen - gtLen, phi), OverrideIntended(c, predLen, gtLen, phi),
                 predLen, predLen);
  }

  /** With lists of equal length `cost_matrix[:, -0:]` is the whole matrix: every cell becomes φ. */
  lemma OverrideWhenLengthsEqual(c: Matrix, n: nat, phi: real)
    requires HasShape(c, n, n)
    ensures forall i, j :: 0 <= i < n && 0 <= j < n ==> OverrideAsWritten(c, n, 0, phi)[i][j] == phi
  {
  }

  /**
   * With a shorter prediction list `cost_matrix[-len_diff:, :]` overrides the rows from
   * |len_diff| on, not the last |len_diff| rows where the padded points are.
   */
  lemma OverrideWhenPredictionShorter(c: Matrix, predLen: nat, gtLen: nat, phi: real)
    requires predLen < gtLen && HasShape(c, gtLen, gtLen)
    ensures forall i, j :: 0 <= i < gtLen && 0 <= j < gtLen ==>
      OverrideAsWritten(c, gtLen, predLen - gtLen, phi)[i][j] == if i >= gtLen - predLen then phi else c[i][j]
  {
    var lenDiff: int := predLen - gtLen;
    assert SliceStart(-lenDiff, gtLen) == gtLen - predLen;
    var r := OverrideAsWritten(c, gtLen, lenDiff, phi);
    forall i, j | 0 <= i < gtLen && 0 <= j < gtLen
      ensures r[i][j] == if i >= gtLen - predLen then phi else c[i][j]
    {
      assert lenDiff < 0;
    }
  }

  /** Finding: two equally long lists 5 m apart get a zero cost matrix instead of [[5]]. */
  lemma EqualLengthsCounterexample()
    ensures OverrideAsWritten([[5.0]], 1, 0, 0.0) == [[0.0]]
    ensures OverrideIntended([[5.0]], 1, 1, 0.0) == [[5.0]]
  {
    assert OverrideAsWritten([[5.0]], 1, 0, 0.0)[0] == [0.0];
    assert OverrideIntended([[5.0]], 1, 1, 0.0)[0] == [5.0];
  }

  /**
   * Finding: with 3 predicted and 4 true points the real prediction in row 1 loses its
   * distances; with 1 predicted and 3 true points the padded row 1 keeps its distances.
   */
  lemma ShorterPredictionCounterexample(c: Matrix, d: Matrix)
    requires HasShape(c, 4, 4) && forall i, j :: 0 <= i < 4 && 0 <= j < 4 ==> c[i][j] == 1.0
    requires HasShape(d, 3, 3) && forall i, j :: 0 <= i < 3 && 0 <= j < 3 ==> d[i][j] == 1.0
    ensures OverrideAsWritten(c, 4, 3 - 4, 0.0)[1][0] == 0.0 && OverrideIntended(c, 3, 4, 0.0)[1][0] == 1.0
    ensures OverrideAsWritten(d, 3, 1 - 3, 0.0)[1][0] == 1.0 && OverrideIntended(d, 1, 3, 0.0)[1][0] == 0.0
  {
  }

  /** The override the code evidently intends: φ on exactly the cells that involve a padded point. */
  function OverrideIntended(c: Matrix, predLen: nat, gtLen: nat, phi: real): (r: Matrix)
    requires HasShape(c, NatMax(predLen, gtLen), NatMax(predLen, gtLen))
    ensures HasShape(r, NatMax(predLen, gtLen), NatMax(predLen, gtLen))
  {
    var n := NatMax(predLen, gtLen);
    seq(n, i requires 0 <= i < n => seq(n, j requires 0 <= j < n =>
      if i >= predLen || j >= gtLen then phi else c[i][j]))
  }

  /**
   * With the intended override, a pair of real points costs their distance and a pair
   * involving a padded point costs φ.
   */
  lemma IntendedRelocationCost(pred: seq<Cost.Point>, gt: seq<Cost.Point>, importLocation: Cost.Point,
                               phi: real, dist: (Cost.Point, Cost.Point) -> real, i: nat, j: nat)
    requires i < NatMax(|pred|, |gt|) && j < NatMax(|pred|, |gt|)
    ensures var padded := PadLocations(pred, gt, importLocation);
            var c := OverrideIntended(Cost.PairwiseDistances(padded.0, padded.1, dist), |pred|, |gt|, phi);
            c[i][j] == if i < |pred| && j < |gt| then dist(pred[i], gt[j]) else phi
  {
    var padded := PadLocations(pred, gt, importLocation);
    if i < |pred| && j < |gt| {
      assert padded.0[i] == padded.0[..|pred|][i] == pred[i];
      assert padded.1[j] == padded.1[..|gt|][j] == gt[j];
    }
  }

  /** The cost matrix `partial_ot_relocation` hands to the solver. */
  function RelocationCost(pred: seq<Cost.Point>, gt: seq<Cost.Point>, costMatrix: Option<Matrix>,
                          importLocation: Cost.Point, importCostPhi: real,
                          dist: (Cost.Point, Cost.Point) -> real): (c: Matrix)
    ensures costMatrix.Some? ==> c == costMatrix.value
    ensures costMatrix.None? ==> HasShape(c, NatMax(|pred|, |gt|), NatMax(|pred|, |gt|))
    ensures costMatrix.None? && |pred| > |gt| ==>
      var padded := PadLocations(pred, gt, importLocation);
      c == OverrideIntended(Cost.PairwiseDistances(padded.0, padded.1, dist), |pred|, |gt|, importCostPhi)
  {
    if costMatrix.Some? then costMatrix.value
    else
      var padded := PadLocations(pred, gt, importLocation);
      var distances := Cost.PairwiseDistances(padded.0, padded.1, dist);
      if |pred| > |gt| then
        OverrideWhenPredictionLonger(distances, |pred|, |gt|, importCostPhi);
        OverrideAsWritten(distances, |padded.0|, |pred| - |gt|, importCostPhi)
      else
        OverrideAsWritten(distances, |padded.0|, |pred| - |gt|, importCostPhi)
  }

  /** `np.sum(transport_matrix * cost_matrix)`: the cost of a transport plan. */
  function TotalCost(plan: Matrix, c: Matrix): (r: real)
    ensures ((forall i, j :: 0 <= i < |plan| && 0 <= j < |plan[i]| ==> plan[i][j] >= 0.0) &&
             (forall i, j :: 0 <= i < |c| && 0 <= j < |c[i]| ==> c[i][j] >= 0.0)) ==> r >= 0.0
  {
    if |plan| == 0 || |c| == 0 then 0.0 else RowCost(plan[0], c[0]) + TotalCost(plan[1..], c[1..])
  }

  /** The cost of one row of a plan against one row of the cost matrix. */
  function RowCost(p: seq<real>, c: seq<real>): (r: real)
    ensures (forall j :: 0 <= j < |p| ==> p[j] >= 0.0) && (forall j :: 0 <= j < |c| ==> c[j] >= 0.0) ==> r >= 0.0
  {
    if |p| == 0 || |c| == 0 then 0.0 else p[0] * c[0] + RowCost(p[1..], c[1..])
  }

  /**
   * `partial_ot_relocation`: pads the shorter location list, puts mass 1/N' on every
   * point, builds the distance matrix and overrides part of it with `importCostPhi`
   * (unless a cost matrix is given), and returns the plan of the exact solver `emdPlan`
   * or its cost.
   */
  method PartialOtRelocation(locationsPred: seq<Cost.Point>, locationsGt: seq<Cost.Point>,
                             costMatrix: Option<Matrix> := None, importLocation: Cost.Point := Cost.Point(0.0, 0.0),
                             importCostPhi: real := 0.0, returnMatrix: bool := false,
                             dist: (Cost.Point, Cost.Point) -> real,
                             emdPlan: (seq<real>, seq<real>, Matrix) -> Matrix)
    returns (r: Relocation)
    ensures r.TransportPlan? <==> returnMatrix
    ensures var w := UniformWeights(NatMax(|locationsPred|, |locationsGt|));
            var c := RelocationCost(locationsPred, locationsGt, costMatrix, importLocation, importCostPhi, dist);
            r == if returnMatrix then TransportPlan(emdPlan(w, w, c)) else Distance(TotalCost(emdPlan(w, w, c), c))
  {
    var lenDiff := |locationsPred| - |locationsGt|;
    var (predExt, gtExt) := PadLocations(locationsPred, locationsGt, importLocation);
    var newLen := |gtExt|;
    var weightsPred := UniformWeights(newLen);
    var weightsGt := UniformWeights(newLen);
    var c: Matrix;
    if costMatrix.None? {
      var m := new real[|predExt|, |gtExt|]((i, j) =>
        if 0 <= i < |predExt| && 0 <= j < |gtExt| then dist(predExt[i], gtExt[j]) else 0.0);
      if lenDiff < 0 {
        FillRect(m, SliceStart(-lenDiff, m.Length0), m.Length0, 0, m.Length1, importCostPhi);
      } else {
        FillRect(m, 0, m.Length0, SliceStart(-lenDiff, m.Length1), m.Length1, importCostPhi);
      }
      c := Rows(m);
      EqualByCells(c, OverrideAsWritten(Cost.PairwiseDistances(predExt, gtExt, dist), newLen, lenDiff, importCostPhi),
                   newLen, newLen);
    } else {
      c := costMatrix.value;
    }
    var transportMatrix := emdPlan(weightsPred, weightsGt, c);
    var otDistance := TotalCost(transportMatrix, c);
    if returnMatrix {
      r := TransportPlan(transportMatrix);
    } else {
      r := Distance(otDistance);
    }
  }
}
