/**
 * Cost-matrix construction: the spatial cost between two point lists and its
 * extension to a space-time block matrix with a waiting-time floor.
 */
module Cost {
  import opened Errors
  import opened Matrices
  import opened Slices

  /** A point of the projected plane, in metres. */
  datatype Point = Point(x: real, y: real)

  /**
   * What the model assumes of the distance `cdist` computes: it is non-negative,
   * symmetric and zero between a point and itself.
   */
  ghost predicate IsDistance(dist: (Point, Point) -> real) {
    && (forall p, q :: dist(p, q) >= 0.0)
    && (forall p, q :: dist(p, q) == dist(q, p))
    && (forall p :: dist(p, p) == 0.0)
  }

  /** The pairwise distance matrix between two point lists (`cdist`). */
  function PairwiseDistances(c1: seq<Point>, c2: seq<Point>, dist: (Point, Point) -> real): (m: Matrix)
    ensures HasShape(m, |c1|, |c2|)
  {
    seq(|c1|, i requires 0 <= i < |c1| => seq(|c2|, j requires 0 <= j < |c2| => dist(c1[i], c2[j])))
  }

  /** Applies `f` to every entry of `m`. */
  function MapEntries(m: Matrix, f: real -> real): (r: Matrix)
    ensures |r| == |m| && forall i :: 0 <= i < |m| ==> |r[i]| == |m[i]|
  {
    seq(|m|, i requires 0 <= i < |m| => seq(|m[i]|, j requires 0 <= j < |m[i]| => f(m[i][j])))
  }

  /** Converts distances in metres to travel times in hours at `speed` km/h. */
  function DistanceToHours(m: Matrix, speed: real): (r: Matrix)
    requires speed != 0.0
    ensures |r| == |m| && forall i :: 0 <= i < |m| ==> |r[i]| == |m[i]|
  {
    seq(|m|, i requires 0 <= i < |m| => seq(|m[i]|, j requires 0 <= j < |m[i]| => m[i][j] / 1000.0 / speed))
  }

  /**
   * `space_cost_matrix`: pairwise distances between `coords1` and `coords2`
   * (or `coords1` itself when `coords2` is absent), turned into hours when a speed
   * is given, and then passed through the elementwise scale function when one is given.
   */
  function SpaceCost(coords1: seq<Point>, coords2: Option<seq<Point>>, speedFactor: Option<real>,
                     scale: Option<real -> real>, dist: (Point, Point) -> real): (m: Matrix)
    requires speedFactor.Some? ==> speedFactor.value != 0.0
    ensures HasShape(m, |coords1|, if coords2.Some? then |coords2.value| else |coords1|)
  {
    var other := if coords2.Some? then coords2.value else coords1;
    var distances := PairwiseDistances(coords1, other, dist);
    var time := if speedFactor.Some? then DistanceToHours(distances, speedFactor.value) else distances;
    if scale.Some? then MapEntries(time, scale.value) else time
  }

  /** Each entry is the distance of its two points, converted to hours if a speed is given, then scaled. */
  lemma SpaceCostEntry(coords1: seq<Point>, coords2: Option<seq<Point>>, speedFactor: Option<real>,
                       scale: Option<real -> real>, dist: (Point, Point) -> real, i: nat, j: nat)
    requires speedFactor.Some? ==> speedFactor.value != 0.0
    requires i < |coords1| && j < (if coords2.Some? then |coords2.value| else |coords1|)
    ensures var other := if coords2.Some? then coords2.value else coords1;
            var d := dist(coords1[i], other[j]);
            var t := if speedFactor.Some? then d / 1000.0 / speedFactor.value else d;
            SpaceCost(coords1, coords2, speedFactor, scale, dist)[i][j] == if scale.Some? then scale.value(t) else t
  {
  }

  /**
   * Without `coords2` the matrix is square and symmetric for a symmetric distance,
   * and its diagonal is zero unless a scale function moves 0 elsewhere.
   */
  lemma SpaceCostSelf(coords: seq<Point>, speedFactor: Option<real>, scale: Option<real -> real>,
                      dist: (Point, Point) -> real)
    requires speedFactor.Some? ==> speedFactor.value != 0.0
    requires IsDistance(dist)
    ensures var m := SpaceCost(coords, None, speedFactor, scale, dist);
            && HasShape(m, |coords|, |coords|)
            && (forall i, j :: 0 <= i < |coords| && 0 <= j < |coords| ==> m[i][j] == m[j][i])
            && ((scale.None? || scale.value(0.0) == 0.0) ==> forall i :: 0 <= i < |coords| ==> m[i][i] == 0.0)
  {
    var m := SpaceCost(coords, None, speedFactor, scale, dist);
    forall i, j | 0 <= i < |coords| && 0 <= j < |coords|
      ensures m[i][j] == m[j][i]
    {
      SpaceCostEntry(coords, None, speedFactor, scale, dist, i, j);
      SpaceCostEntry(coords, None, speedFactor, scale, dist, j, i);
      assert dist(coords[i], coords[j]) == dist(coords[j], coords[i]);
    }
    if scale.None? || scale.value(0.0) == 0.0 {
      forall i | 0 <= i < |coords|
        ensures m[i][i] == 0.0
      {
        SpaceCostEntry(coords, None, speedFactor, scale, dist, i, i);
        assert dist(coords[i], coords[i]) == 0.0;
      }
    }
  }

  /** Without a scale function and with a positive speed (or none), every cost is non-negative. */
  lemma SpaceCostNonNegative(coords1: seq<Point>, coords2: Option<seq<Point>>, speedFactor: Option<real>,
                             dist: (Point, Point) -> real)
    requires speedFactor.Some? ==> speedFactor.value > 0.0
    requires IsDistance(dist)
    ensures var m := SpaceCost(coords1, coords2, speedFactor, None, dist);
            forall i, j :: 0 <= i < |m| && 0 <= j < |m[i]| ==> m[i][j] >= 0.0
  {
    var m := SpaceCost(coords1, coords2, speedFactor, None, dist);
    var other := if coords2.Some? then coords2.value else coords1;
    forall i, j | 0 <= i < |m| && 0 <= j < |m[i]|
      ensures m[i][j] >= 0.0
    {
      SpaceCostEntry(coords1, coords2, speedFactor, None, dist, i, j);
      var d := dist(coords1[i], other[j]);
      assert d >= 0.0;
      if speedFactor.Some? {
        assert d / 1000.0 >= 0.0;
        NonNegativeQuotient(d / 1000.0, speedFactor.value);
      }
    }
  }

  lemma NonNegativeQuotient(x: real, y: real)
    requires x >= 0.0 && y > 0.0
    ensures x / y >= 0.0
  {
  }

  // ---------------------------------------------------------------- space and time

  /**
   * The waiting time between time step `tPred` of the prediction and `tGt` of the
   * ground truth: `backwardCost` per step when the prediction is later, `forwardCost`
   * per step otherwise.
   */
  function Waiting(tPred: nat, tGt: nat, forwardCost: real, backwardCost: real): (w: real)
    ensures tPred == tGt ==> w == 0.0
    ensures forwardCost >= 0.0 && backwardCost >= 0.0 ==> w >= 0.0
  {
    if tPred > tGt then (tPred - tGt) as real * backwardCost else (tGt - tPred) as real * forwardCost
  }

  /** `np.maximum(m, w * np.ones(m.shape))`: every entry raised to at least `w`. */
  function WithFloor(m: Matrix, w: real): (r: Matrix)
    ensures |r| == |m| && forall i :: 0 <= i < |m| ==> |r[i]| == |m[i]|
  {
    seq(|m|, i requires 0 <= i < |m| => seq(|m[i]|, j requires 0 <= j < |m[i]| => RealMax(m[i][j], w)))
  }

  /**
   * Cell (x, y) of the space-time matrix of the `n` × `n` spatial matrix `s`: from
   * time slot x / n and station x % n to time slot y / n and station y % n.
   */
  function SpacetimeCell(s: Matrix, n: nat, x: nat, y: nat, forwardCost: real, backwardCost: real): real
    requires n > 0 && HasShape(s, n, n)
  {
    RealMax(s[x % n][y % n], Waiting(x / n, y / n, forwardCost, backwardCost))
  }

  /** The space-time cost matrix, stated cell by cell in the layout of cost.py:47-49. */
  function SpacetimeCost(s: Matrix, timeSteps: nat, forwardCost: real, backwardCost: real): (r: Matrix)
    requires HasShape(s, |s|, |s|)
    ensures HasShape(r, timeSteps * |s|, timeSteps * |s|)
  {
    var n := |s|;
    if n == 0 then []
    else
      seq(timeSteps * n, x requires 0 <= x < timeSteps * n =>
        seq(timeSteps * n, y requires 0 <= y < timeSteps * n =>
          SpacetimeCell(s, n, x, y, forwardCost, backwardCost)))
  }

  /** Index x lies in block t of width n exactly when x / n == t, and then x % n is its offset. */
  lemma BlockIndex(x: nat, t: nat, n: nat)
    requires n > 0
    ensures (t * n <= x < t * n + n) <==> x / n == t
    ensures x / n == t ==> x % n == x - t * n
  {
    var q, r := x / n, x % n;
    assert x == q * n + r && 0 <= r < n;
    if q < t {
      MulMonotone(q + 1, t, n);
      assert x < (q + 1) * n;
    } else if q > t {
      MulMonotone(t + 1, q, n);
      assert x >= (t + 1) * n;
    }
  }

  lemma MulMonotone(a: nat, b: nat, n: nat)
    requires a <= b
    ensures a * n <= b * n
  {
    assert b * n == a * n + (b - a) * n;
  }

  /**
   * Cell (x, y) is in block (tPred, tGt) exactly when its slots are tPred and tGt,
   * and then the floored spatial matrix of that block holds its space-time cost.
   */
  lemma BlockCell(s: Matrix, n: nat, x: nat, y: nat, tPred: nat, tGt: nat, forwardCost: real, backwardCost: real)
    requires n > 0 && HasShape(s, n, n)
    ensures (tPred * n <= x < tPred * n + n && tGt * n <= y < tGt * n + n) <==> (x / n == tPred && y / n == tGt)
    ensures x / n == tPred && y / n == tGt ==>
      WithFloor(s, Waiting(tPred, tGt, forwardCost, backwardCost))[x - tPred * n][y - tGt * n]
      == SpacetimeCell(s, n, x, y, forwardCost, backwardCost)
  {
    BlockIndex(x, tPred, n);
    BlockIndex(y, tGt, n);
  }

  /** An index below T·n lies in one of the T blocks of width n. */
  lemma SlotBelow(x: nat, timeSteps: nat, n: nat)
    requires n > 0 && x < timeSteps * n
    ensures x / n < timeSteps
  {
    var q := x / n;
    BlockIndex(x, q, n);
    if q >= timeSteps {
      MulMonotone(timeSteps, q, n);
    }
  }

  /** Cell (tPred·N + i, tGt·N + j) is the spatial cost M[i][j] raised to the waiting time of its block. */
  lemma SpacetimeBlockEntry(s: Matrix, timeSteps: nat, forwardCost: real, backwardCost: real,
                            tPred: nat, tGt: nat, i: nat, j: nat)
    requires HasShape(s, |s|, |s|)
    requires tPred < timeSteps && tGt < timeSteps && i < |s| && j < |s|
    ensures tPred * |s| + i < timeSteps * |s| && tGt * |s| + j < timeSteps * |s|
    ensures SpacetimeCost(s, timeSteps, forwardCost, backwardCost)[tPred * |s| + i][tGt * |s| + j]
            == RealMax(s[i][j], Waiting(tPred, tGt, forwardCost, backwardCost))
  {
    var n := |s|;
    MulMonotone(tPred + 1, timeSteps, n);
    MulMonotone(tGt + 1, timeSteps, n);
    var x, y := tPred * n + i, tGt * n + j;
    BlockIndex(x, tPred, n);
    BlockIndex(y, tGt, n);
    assert x / n == tPred && x % n == i && y / n == tGt && y % n == j;
    SpacetimeCostAt(s, timeSteps, forwardCost, backwardCost, x, y);
  }

  /** Cell (x, y) of the space-time matrix, by its cell-by-cell definition. */
  lemma SpacetimeCostAt(s: Matrix, timeSteps: nat, forwardCost: real, backwardCost: real, x: nat, y: nat)
    requires HasShape(s, |s|, |s|) && |s| > 0 && x < timeSteps * |s| && y < timeSteps * |s|
    ensures SpacetimeCost(s, timeSteps, forwardCost, backwardCost)[x][y]
            == SpacetimeCell(s, |s|, x, y, forwardCost, backwardCost)
  {
  }

  /** For a non-negative spatial matrix every diagonal block (t, t) is the spatial matrix itself. */
  lemma SpacetimeDiagonalBlock(s: Matrix, timeSteps: nat, forwardCost: real, backwardCost: real,
                               t: nat, i: nat, j: nat)
    requires HasShape(s, |s|, |s|)
    requires forall i, j :: 0 <= i < |s| && 0 <= j < |s| ==> s[i][j] >= 0.0
    requires t < timeSteps && i < |s| && j < |s|
    ensures t * |s| + i < timeSteps * |s| && t * |s| + j < timeSteps * |s|
    ensures SpacetimeCost(s, timeSteps, forwardCost, backwardCost)[t * |s| + i][t * |s| + j] == s[i][j]
  {
    SpacetimeBlockEntry(s, timeSteps, forwardCost, backwardCost, t, t, i, j);
    assert Waiting(t, t, forwardCost, backwardCost) == 0.0;
  }

  /** Every space-time cell is at least its spatial cost and at least the waiting time of its block. */
  lemma SpacetimeLowerBounds(s: Matrix, timeSteps: nat, forwardCost: real, backwardCost: real,
                             tPred: nat, tGt: nat, i: nat, j: nat)
    requires HasShape(s, |s|, |s|)
    requires tPred < timeSteps && tGt < timeSteps && i < |s| && j < |s|
    ensures tPred * |s| + i < timeSteps * |s| && tGt * |s| + j < timeSteps * |s|
    ensures var c := SpacetimeCost(s, timeSteps, forwardCost, backwardCost)[tPred * |s| + i][tGt * |s| + j];
            c >= s[i][j] && c >= Waiting(tPred, tGt, forwardCost, backwardCost)
  {
    SpacetimeBlockEntry(s, timeSteps, forwardCost, backwardCost, tPred, tGt, i, j);
  }

  /**
   * With equal forward and backward costs the waiting time only depends on the
   * distance between slots, so a symmetric spatial matrix gives a symmetric
   * space-time matrix.
   */
  lemma SpacetimeSymmetric(s: Matrix, timeSteps: nat, stepCost: real)
    requires HasShape(s, |s|, |s|)
    requires forall i, j :: 0 <= i < |s| && 0 <= j < |s| ==> s[i][j] == s[j][i]
    ensures var m := SpacetimeCost(s, timeSteps, stepCost, stepCost);
            forall x, y :: 0 <= x < |m| && 0 <= y < |m| ==> m[x][y] == m[y][x]
  {
  }

  /**
   * One step of the loop of `spacetime_cost_matrix`: the block of slots (tPred, tGt)
   * is set to the spatial matrix raised to their waiting time; all other cells stay.
   */
  method SpacetimeBlock(out: array2<real>, s: Matrix, n: nat, timeSteps: nat, tPred: nat, tGt: nat,
                        forwardCost: real, backwardCost: real)
    requires n > 0 && HasShape(s, n, n)
    requires out.Length0 == timeSteps * n && out.Length1 == timeSteps * n
    requires tPred < timeSteps && tGt < timeSteps
    modifies out
    ensures forall x, y :: 0 <= x < out.Length0 && 0 <= y < out.Length1 ==>
      out[x, y] ==
        if x / n == tPred && y / n == tGt then SpacetimeCell(s, n, x, y, forwardCost, backwardCost)
        else old(out[x, y])
  {
    var startX, startY := tPred * n, tGt * n;
    MulMonotone(tPred + 1, timeSteps, n);
    MulMonotone(tGt + 1, timeSteps, n);
    var waitingTime: real;
    if tPred > tGt {
      waitingTime := (tPred - tGt) as real * backwardCost;
    } else {
      waitingTime := (tGt - tPred) as real * forwardCost;
    }
    assert waitingTime == Waiting(tPred, tGt, forwardCost, backwardCost);
    AssignBlock(out, startX, startY, WithFloor(s, waitingTime), n, n);
    forall x, y | 0 <= x < out.Length0 && 0 <= y < out.Length1
      ensures out[x, y] ==
        if x / n == tPred && y / n == tGt then SpacetimeCell(s, n, x, y, forwardCost, backwardCost)
        else old(out[x, y])
    {
      BlockCell(s, n, x, y, tPred, tGt, forwardCost, backwardCost);
    }
  }

  /** The nested loop of `spacetime_cost_matrix` over all pairs of time slots, on a zero matrix. */
  method SpacetimeFill(out: array2<real>, s: Matrix, n: nat, timeSteps: nat, forwardCost: real, backwardCost: real)
    requires n > 0 && HasShape(s, n, n)
    requires out.Length0 == timeSteps * n && out.Length1 == timeSteps * n
    requires forall x, y :: 0 <= x < out.Length0 && 0 <= y < out.Length1 ==> out[x, y] == 0.0
    modifies out
    ensures forall x, y :: 0 <= x < out.Length0 && 0 <= y < out.Length1 ==>
      out[x, y] == SpacetimeCell(s, n, x, y, forwardCost, backwardCost)
  {
    for tPred := 0 to timeSteps
      invariant forall x, y :: 0 <= x < out.Length0 && 0 <= y < out.Length1 ==>
        out[x, y] == if x / n < tPred then SpacetimeCell(s, n, x, y, forwardCost, backwardCost) else 0.0
    {
      SpacetimeBlockRow(out, s, n, timeSteps, tPred, forwardCost, backwardCost);
    }
    forall x, y | 0 <= x < out.Length0 && 0 <= y < out.Length1
      ensures out[x, y] == SpacetimeCell(s, n, x, y, forwardCost, backwardCost)
    {
      SlotBelow(x, timeSteps, n);
    }
  }

  /** The inner loop of `spacetime_cost_matrix`: all blocks (tPred, tGt) of one prediction slot. */
  method SpacetimeBlockRow(out: array2<real>, s: Matrix, n: nat, timeSteps: nat, tPred: nat,
                           forwardCost: real, backwardCost: real)
    requires n > 0 && HasShape(s, n, n)
    requires out.Length0 == timeSteps * n && out.Length1 == timeSteps * n
    requires tPred < timeSteps
    modifies out
    ensures forall x, y :: 0 <= x < out.Length0 && 0 <= y < out.Length1 ==>
      out[x, y] == if x / n == tPred then SpacetimeCell(s, n, x, y, forwardCost, backwardCost) else old(out[x, y])
  {
    for tGt := 0 to timeSteps
      invariant forall x, y :: 0 <= x < out.Length0 && 0 <= y < out.Length1 ==>
        out[x, y] ==
          if x / n == tPred && y / n < tGt then SpacetimeCell(s, n, x, y, forwardCost, backwardCost)
          else old(out[x, y])
    {
      SpacetimeBlock(out, s, n, timeSteps, tPred, tGt, forwardCost, backwardCost);
    }
    forall x, y | 0 <= x < out.Length0 && 0 <= y < out.Length1
      ensures out[x, y] == if x / n == tPred then SpacetimeCell(s, n, x, y, forwardCost, backwardCost) else old(out[x, y])
    {
      SlotBelow(y, timeSteps, n);
    }
  }

  /**
   * `spacetime_cost_matrix`: rejects a non-square matrix, then fills a zero matrix of
   * T·N × T·N block by block, block (tPred, tGt) being the spatial matrix raised to
   * the waiting time between the two slots.
   */
  method SpacetimeCostMatrix(m: array2<real>, timeSteps: nat := 3, forwardCost: real := 0.0, backwardCost: real := 1.0)
    returns (r: Result<array2<real>>)
    ensures r.Err? <==> m.Length0 != m.Length1
    ensures r.Err? ==> r.error == AssertionError
    ensures r.Ok? ==> fresh(r.value) && Rows(r.value) == SpacetimeCost(Rows(m), timeSteps, forwardCost, backwardCost)
  {
    if m.Length0 != m.Length1 {
      return Err(AssertionError);
    }
    var n := m.Length0;
    if n == 0 {
      // every block is empty, so the zero-size result is already final
      var empty := new real[0, 0];
      return Ok(empty);
    }
    var s := Rows(m);
    var tn := timeSteps * n;
    var out := new real[tn, tn]((x, y) => 0.0);
    SpacetimeFill(out, s, n, timeSteps, forwardCost, backwardCost);
    EqualByCells(Rows(out), SpacetimeCost(s, timeSteps, forwardCost, backwardCost), tn, tn);
    return Ok(out);
  }
}
