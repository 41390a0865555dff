/** The numpy slice assignments the library performs on freshly allocated 2-D arrays. */
module Slices {
  import opened Matrices

  /** `a[r0:r0+rows, c0:c0+cols] = b`: copies the matrix `b` into a block of `a`. */
  method AssignBlock(a: array2<real>, r0: nat, c0: nat, b: Matrix, rows: nat, cols: nat)
    requires HasShape(b, rows, cols)
    requires r0 + rows <= a.Length0 && c0 + cols <= a.Length1
    modifies a
    ensures forall i, j :: 0 <= i < a.Length0 && 0 <= j < a.Length1 ==>
      a[i, j] == if r0 <= i < r0 + rows && c0 <= j < c0 + cols then b[i - r0][j - c0] else old(a[i, j])
  {
    for x := 0 to rows
      invariant forall i, j :: 0 <= i < a.Length0 && 0 <= j < a.Length1 ==>
        a[i, j] == if r0 <= i < r0 + x && c0 <= j < c0 + cols then b[i - r0][j - c0] else old(a[i, j])
    {
      for y := 0 to cols
        invariant forall i, j :: 0 <= i < a.Length0 && 0 <= j < a.Length1 ==>
          a[i, j] ==
            if (r0 <= i < r0 + x && c0 <= j < c0 + cols) || (i == r0 + x && c0 <= j < c0 + y)
            then b[i - r0][j - c0] else old(a[i, j])
      {
        a[r0 + x, c0 + y] := b[x][y];
      }
    }
  }

  /** `a[r0:r1, c0:c1] = v`: sets every cell of a rectangle of `a` to the scalar `v`. */
  method FillRect(a: array2<real>, r0: nat, r1: nat, c0: nat, c1: nat, v: real)
    requires r0 <= r1 <= a.Length0 && c0 <= c1 <= a.Length1
    modifies a
    ensures forall i, j :: 0 <= i < a.Length0 && 0 <= j < a.Length1 ==>
      a[i, j] == if r0 <= i < r1 && c0 <= j < c1 then v else old(a[i, j])
  {
    for x := r0 to r1
      invariant forall i, j :: 0 <= i < a.Length0 && 0 <= j < a.Length1 ==>
        a[i, j] == if r0 <= i < x && c0 <= j < c1 then v else old(a[i, j])
    {
      for y := c0 to c1
        invariant forall i, j :: 0 <= i < a.Length0 && 0 <= j < a.Length1 ==>
          a[i, j] == if (r0 <= i < x && c0 <= j < c1) || (i == x && c0 <= j < y) then v else old(a[i, j])
      {
        a[x, y] := v;
      }
    }
  }

  /** `a = a / d`: divides every cell of `a` by the scalar `d`. */
  method DivideAll(a: array2<real>, d: real)
    requires d != 0.0
    modifies a
    ensures forall i, j :: 0 <= i < a.Length0 && 0 <= j < a.Length1 ==> a[i, j] == old(a[i, j]) / d
  {
    for x := 0 to a.Length0
      invariant forall i, j :: 0 <= i < a.Length0 && 0 <= j < a.Length1 ==>
        a[i, j] == if i < x then old(a[i, j]) / d else old(a[i, j])
    {
      for y := 0 to a.Length1
        invariant forall i, j :: 0 <= i < a.Length0 && 0 <= j < a.Length1 ==>
          a[i, j] == if i < x || (i == x && j < y) then old(a[i, j]) / d else old(a[i, j])
      {
        a[x, y] := a[x, y] / d;
      }
    }
  }
}
