/** The 4x4 matrix inverse by Gauss-Jordan elimination with partial pivoting (src/utils.c), over the
    reals. */
module GaussJordan {
  import opened LinearAlgebra
  import opened Reals

  const D := 4
  const W := 8
  const PIVOT_MIN := 0.0000000001

  type Grid = Mat

  ghost predicate IsGrid(A: Grid) {
    IsMat(A, D, W)
  }

  // ---- the row operations ----

  function Swapped(A: Grid, i: nat, j: nat): (B: Grid)
    requires IsGrid(A) && i < D && j < D
    ensures IsGrid(B)
  {
    A[i := A[j]][j := A[i]]
  }

  function Divided(v: Vec, p: real): (w: Vec)
    requires p != 0.0
    ensures |w| == |v| && forall j :: 0 <= j < |v| ==> w[j] == v[j] / p
  {
    seq(|v|, j requires 0 <= j < |v| => v[j] / p)
  }

  function Reduced(v: Vec, f: real, u: Vec): (w: Vec)
    requires |u| == |v|
    ensures |w| == |v| && forall j :: 0 <= j < |v| ==> w[j] == v[j] - f * u[j]
  {
    seq(|v|, j requires 0 <= j < |v| => v[j] - f * u[j])
  }

  /** The row among col to n-1 with the largest entry in the column; the first of several. */
  function Pivot(A: Grid, col: nat, n: nat): (r: nat)
    requires IsGrid(A) && col < n <= D
    ensures col <= r < n
    ensures forall i :: col <= i < n ==> Abs(A[i][col]) <= Abs(A[r][col])
  {
    if n == col + 1 then col
    else
      var b := Pivot(A, col, n - 1);
      if Abs(A[n - 1][col]) > Abs(A[b][col]) then n - 1 else b
  }

  /** Rows below `n`, but for row `col`, reduced by that row. */
  function ClearedTo(A: Grid, col: nat, n: nat): (B: Grid)
    requires IsGrid(A) && col < D && n <= D
    ensures IsGrid(B)
  {
    if n == 0 then A
    else
      var B := ClearedTo(A, col, n - 1);
      if n - 1 == col then B else B[n - 1 := Reduced(B[n - 1], B[n - 1][col], B[col])]
  }

  function Normalised(A: Grid, col: nat): (B: Grid)
    requires IsGrid(A) && col < D && A[col][col] != 0.0
    ensures IsGrid(B)
  {
    A[col := Divided(A[col], A[col][col])]
  }

  datatype Outcome = Inverse(grid: Grid) | NoPivot(grid: Grid, col: nat)

  function Run(A: Grid, col: nat): (r: Outcome)
    requires IsGrid(A) && col <= D
    ensures IsGrid(r.grid)
    decreases D - col
  {
    if col == D then Inverse(A)
    else
      var p := Pivot(A, col, D);
      if Abs(A[p][col]) < PIVOT_MIN then NoPivot(A, col)
      else Run(ClearedTo(Normalised(Swapped(A, col, p), col), col, D), col + 1)
  }

  lemma RunEnd(A: Grid)
    requires IsGrid(A)
    ensures Run(A, D) == Inverse(A)
  {
  }

  lemma RunStep(A: Grid, col: nat)
    requires IsGrid(A) && col < D
    ensures var p := Pivot(A, col, D);
            Run(A, col) == if Abs(A[p][col]) < PIVOT_MIN then NoPivot(A, col)
                           else Run(ClearedTo(Normalised(Swapped(A, col, p), col), col, D), col + 1)
  {
    hide Pivot;
    hide ClearedTo;
  }

  function Augmented(S: Mat): (A: Grid)
    requires IsMat(S, D, D)
    ensures IsGrid(A)
  {
    seq(D, i requires 0 <= i < D => S[i] + Unit(D, i))
  }

  // ---- what the operations keep ----

  /** The right half of the row times S is its left half. */
  ghost predicate RowKept(v: Vec, S: Mat)
    requires IsMat(S, D, D) && |v| == W
  {
    forall j :: 0 <= j < D ==> Dot(v[D..], Col(S, j)) == v[j]
  }

  /** One entry of N A, where `M` holds the columns of N. */
  function Back(M: Mat, A: Grid, i: nat, j: nat): (r: real)
    requires IsMat(M, D, D) && IsGrid(A) && i < D && j < W
  {
    M[0][i] * A[0][j] + M[1][i] * A[1][j] + M[2][i] * A[2][j] + M[3][i] * A[3][j]
  }

  /** `M` undoes everything done so far: N A is the grid we began with. */
  ghost predicate Undone(M: Mat, A: Grid, A0: Grid)
    requires IsMat(M, D, D) && IsGrid(A) && IsGrid(A0)
  {
    forall i, j :: 0 <= i < D && 0 <= j < W ==> Back(M, A, i, j) == A0[i][j]
  }

  /** The first columns are those of the identity. */
  ghost predicate Cleared(A: Grid, col: nat)
    requires IsGrid(A) && col <= D
  {
    forall i, j :: 0 <= i < D && 0 <= j < col ==> A[i][j] == if i == j then 1.0 else 0.0
  }

  ghost predicate Rows(A: Grid, S: Mat)
    requires IsGrid(A) && IsMat(S, D, D)
  {
    forall i :: 0 <= i < D ==> RowKept(A[i], S)
  }

  lemma DividedKept(v: Vec, p: real, S: Mat)
    requires IsMat(S, D, D) && |v| == W && p != 0.0 && RowKept(v, S)
    ensures RowKept(Divided(v, p), S)
  {
    forall j | 0 <= j < D ensures Dot(Divided(v, p)[D..], Col(S, j)) == Divided(v, p)[j] {
      DividedIsScaled(v, p);
      DotScale(1.0 / p, v[D..], Col(S, j));
      hide Dot;
      hide Divided;
    }
  }

  lemma DividedIsScaled(v: Vec, p: real)
    requires p != 0.0 && |v| == W
    ensures Divided(v, p)[D..] == Scale(1.0 / p, v[D..])
    ensures forall j :: 0 <= j < |v| ==> Divided(v, p)[j] == 1.0 / p * v[j]
  {
    forall j | 0 <= j < |v| ensures Divided(v, p)[j] == 1.0 / p * v[j] { }
    var a, b := Divided(v, p)[D..], Scale(1.0 / p, v[D..]);
    forall j | 0 <= j < D ensures a[j] == b[j] { assert Divided(v, p)[D + j] == 1.0 / p * v[D + j]; }
  }

  lemma ReducedIsSum(v: Vec, f: real, u: Vec)
    requires |v| == |u| == W
    ensures Reduced(v, f, u)[D..] == Add(v[D..], Scale(-f, u[D..]))
  {
    var a, b := Reduced(v, f, u)[D..], Add(v[D..], Scale(-f, u[D..]));
    forall j | 0 <= j < D ensures a[j] == b[j] { assert Reduced(v, f, u)[D + j] == v[D + j] + -f * u[D + j]; }
  }

  lemma ReducedKept(v: Vec, f: real, u: Vec, S: Mat)
    requires IsMat(S, D, D) && |v| == |u| == W && RowKept(v, S) && RowKept(u, S)
    ensures RowKept(Reduced(v, f, u), S)
  {
    forall j | 0 <= j < D ensures Dot(Reduced(v, f, u)[D..], Col(S, j)) == Reduced(v, f, u)[j] {
      ReducedIsSum(v, f, u);
      hide Dot;
      DotAdd(v[D..], Scale(-f, u[D..]), Col(S, j));
      DotScale(-f, u[D..], Col(S, j));
    }
  }

  // ---- undoing ----

  lemma UndoSwap(M: Mat, A: Grid, A0: Grid, i: nat, j: nat)
    requires IsMat(M, D, D) && IsGrid(A) && IsGrid(A0) && Undone(M, A, A0) && i < D && j < D
    ensures var M' := M[i := M[j]][j := M[i]]; IsMat(M', D, D) && Undone(M', Swapped(A, i, j), A0)
  {
    var M', A' := M[i := M[j]][j := M[i]], Swapped(A, i, j);
    forall a, b | 0 <= a < D && 0 <= b < W ensures Back(M', A', a, b) == A0[a][b] {
      assert Back(M, A, a, b) == A0[a][b];
    }
  }

  lemma DivideBack(m: real, x: real, p: real)
    requires p != 0.0
    ensures p * m * (x / p) == m * x
  {
  }

  lemma UndoDivide(M: Mat, A: Grid, A0: Grid, c: nat, p: real)
    requires IsMat(M, D, D) && IsGrid(A) && IsGrid(A0) && Undone(M, A, A0) && c < D && p != 0.0
    ensures var M' := M[c := Scale(p, M[c])]; IsMat(M', D, D) && Undone(M', A[c := Divided(A[c], p)], A0)
  {
    var M', A' := M[c := Scale(p, M[c])], A[c := Divided(A[c], p)];
    forall a, b | 0 <= a < D && 0 <= b < W ensures Back(M', A', a, b) == A0[a][b] {
      assert Back(M, A, a, b) == A0[a][b];
      DivideBack(M[c][a], A[c][b], p);
    }
  }

  lemma ReduceBack(m: real, n: real, x: real, y: real, f: real)
    ensures m * (x - f * y) + (n + f * m) * y == m * x + n * y
  {
  }

  lemma UndoReduce(M: Mat, A: Grid, A0: Grid, c: nat, r: nat, f: real)
    requires IsMat(M, D, D) && IsGrid(A) && IsGrid(A0) && Undone(M, A, A0) && c < D && r < D && c != r
    ensures var M' := M[c := Add(M[c], Scale(f, M[r]))];
            IsMat(M', D, D) && Undone(M', A[r := Reduced(A[r], f, A[c])], A0)
  {
    var M', A' := M[c := Add(M[c], Scale(f, M[r]))], A[r := Reduced(A[r], f, A[c])];
    forall a, b | 0 <= a < D && 0 <= b < W ensures Back(M', A', a, b) == A0[a][b] {
      assert Back(M, A, a, b) == A0[a][b];
      ReduceBack(M[r][a], M[c][a], A[r][b], A[c][b], f);
    }
  }

  // ---- one column ----

  /** The whole invariant before column `col`: rows, undo matrix and cleared columns. */
  ghost predicate Kept(A: Grid, M: Mat, S: Mat, col: nat) {
    && IsGrid(A) && IsMat(M, D, D) && IsMat(S, D, D) && col <= D
    && Rows(A, S) && Undone(M, A, Augmented(S)) && Cleared(A, col)
  }

  lemma StartKept(S: Mat)
    requires IsMat(S, D, D)
    ensures Kept(Augmented(S), Diagonal([1.0, 1.0, 1.0, 1.0]), S, 0)
  {
    var A, M := Augmented(S), Diagonal([1.0, 1.0, 1.0, 1.0]);
    forall i | 0 <= i < D ensures RowKept(A[i], S) {
      forall j | 0 <= j < D ensures Dot(A[i][D..], Col(S, j)) == A[i][j] {
        assert A[i][D..] == Unit(D, i);
        hide Dot;
        DotUnit(i, Col(S, j));
      }
    }
    forall i, j | 0 <= i < D && 0 <= j < W ensures Back(M, A, i, j) == A[i][j] { }
  }

  lemma SwapKept(A: Grid, M: Mat, S: Mat, col: nat, p: nat)
    requires Kept(A, M, S, col) && col < D && col <= p < D
    ensures Kept(Swapped(A, col, p), M[col := M[p]][p := M[col]], S, col)
  {
    UndoSwap(M, A, Augmented(S), col, p);
    hide Undone;
    hide RowKept;
    hide Augmented;
  }

  lemma DivideKept(A: Grid, M: Mat, S: Mat, col: nat)
    requires Kept(A, M, S, col) && col < D && A[col][col] != 0.0
    ensures var B := Normalised(A, col);
            Kept(B, M[col := Scale(A[col][col], M[col])], S, col) && B[col][col] == 1.0
  {
    UndoDivide(M, A, Augmented(S), col, A[col][col]);
    DividedKept(A[col], A[col][col], S);
    hide Undone;
    hide RowKept;
    hide Augmented;
    var p := A[col][col];
    assert p / p == 1.0;
    forall j | 0 <= j < col ensures Normalised(A, col)[col][j] == 0.0 {
      assert A[col][j] == 0.0;
      assert 0.0 / p == 0.0;
    }
  }

  /** Column `col` is cleared down to row `n`. */
  ghost predicate ColumnCleared(A: Grid, col: nat, n: nat)
    requires IsGrid(A) && col < D && n <= D
  {
    A[col][col] == 1.0 && forall i :: 0 <= i < n && i != col ==> A[i][col] == 0.0
  }

  lemma ReduceKept(A: Grid, M: Mat, S: Mat, col: nat, r: nat) returns (M': Mat)
    requires Kept(A, M, S, col) && col < D && r < D && ColumnCleared(A, col, r)
    ensures var B := if r == col then A else A[r := Reduced(A[r], A[r][col], A[col])];
            Kept(B, M', S, col) && ColumnCleared(B, col, r + 1)
  {
    if r == col {
      M' := M;
    } else {
      var f := A[r][col];
      M' := M[col := Add(M[col], Scale(f, M[r]))];
      UndoReduce(M, A, Augmented(S), col, r, f);
      ReducedKept(A[r], f, A[col], S);
      hide Undone;
      hide RowKept;
      hide Augmented;
      var w := Reduced(A[r], f, A[col]);
      assert w[col] == f - f * 1.0;
      forall j | 0 <= j < col ensures w[j] == A[r][j] {
        assert A[col][j] == 0.0;
        assert w[j] == A[r][j] - f * 0.0;
      }
    }
  }

  lemma {:induction false} ClearKept(A: Grid, M: Mat, S: Mat, col: nat, n: nat) returns (M': Mat)
    requires Kept(A, M, S, col) && col < D && n <= D && A[col][col] == 1.0
    ensures var B := ClearedTo(A, col, n); Kept(B, M', S, col) && ColumnCleared(B, col, n)
  {
    if n == 0 {
      M' := M;
    } else {
      var M1 := ClearKept(A, M, S, col, n - 1);
      hide Kept;
      M' := ReduceKept(ClearedTo(A, col, n - 1), M1, S, col, n - 1);
    }
  }

  lemma NextColumn(A: Grid, M: Mat, S: Mat, col: nat)
    requires Kept(A, M, S, col) && col < D && ColumnCleared(A, col, D)
    ensures Kept(A, M, S, col + 1)
  {
    hide Undone;
    hide RowKept;
    hide Augmented;
  }

  lemma ColumnKept(A: Grid, M: Mat, S: Mat, col: nat) returns (M': Mat)
    requires Kept(A, M, S, col) && col < D
    requires Abs(A[Pivot(A, col, D)][col]) >= PIVOT_MIN
    ensures var B := Swapped(A, col, Pivot(A, col, D));
            B[col][col] != 0.0 && Kept(ClearedTo(Normalised(B, col), col, D), M', S, col + 1)
  {
    var p := Pivot(A, col, D);
    var B := Swapped(A, col, p);
    SwapKept(A, M, S, col, p);
    var M1 := M[col := M[p]][p := M[col]];
    assert B[col][col] == A[p][col];
    hide Kept;
    hide Pivot;
    hide Swapped;
    hide ClearedTo;
    DivideKept(B, M1, S, col);
    var M2 := ClearKept(Normalised(B, col), M1[col := Scale(B[col][col], M1[col])], S, col, D);
    NextColumn(ClearedTo(Normalised(B, col), col, D), M2, S, col);
    M' := M2;
  }

  /** No entry of size 1e-10 or more is left in the pivot column. */
  ghost predicate Stuck(A: Grid, col: nat) {
    IsGrid(A) && col < D && forall i :: col <= i < D ==> Abs(A[i][col]) < PIVOT_MIN
  }

  lemma {:induction false} RunKept(A: Grid, M: Mat, S: Mat, col: nat) returns (M': Mat)
    requires Kept(A, M, S, col)
    ensures var r := Run(A, col);
            && (r.Inverse? ==> Kept(r.grid, M', S, D))
            && (r.NoPivot? ==> Kept(r.grid, M', S, r.col) && Stuck(r.grid, r.col))
    decreases D - col
  {
    if col == D {
      M' := M;
    } else {
      var p := Pivot(A, col, D);
      hide Kept;
      if Abs(A[p][col]) < PIVOT_MIN {
        M' := M;
      } else {
        var M1 := ColumnKept(A, M, S, col);
        hide Pivot;
        hide ClearedTo;
        M' := RunKept(ClearedTo(Normalised(Swapped(A, col, p), col), col, D), M1, S, col + 1);
      }
    }
  }

  // ---- the inverse ----

  function RightHalf(A: Grid): (R: Mat)
    requires IsGrid(A)
    ensures IsMat(R, D, D)
  {
    seq(D, i requires 0 <= i < D => A[i][D..])
  }

  function Identity(): (I: Mat)
    ensures IsMat(I, D, D)
  {
    Diagonal([1.0, 1.0, 1.0, 1.0])
  }

  lemma Dot4(u: Vec, v: Vec)
    requires |u| == |v| == D
    ensures Dot(u, v) == u[0] * v[0] + u[1] * v[1] + u[2] * v[2] + u[3] * v[3]
  {
    assert DotTo(u, v, 1) == u[0] * v[0];
    assert DotTo(u, v, 2) == u[0] * v[0] + u[1] * v[1];
    assert DotTo(u, v, 3) == u[0] * v[0] + u[1] * v[1] + u[2] * v[2];
  }

  lemma SameMat(A: Mat, B: Mat)
    requires IsMat(A, D, D) && IsMat(B, D, D)
    requires forall i, j :: 0 <= i < D && 0 <= j < D ==> A[i][j] == B[i][j]
    ensures A == B
  {
    forall i | 0 <= i < D ensures A[i] == B[i] { }
  }

  /** On the identity, undoing reads off the columns of the undo matrix. */
  lemma BackOfIdentity(M: Mat, A: Grid, S: Mat, i: nat, j: nat)
    requires Kept(A, M, S, D) && i < D && j < D
    ensures M[j][i] == S[i][j]
  {
    assert Back(M, A, i, j) == Augmented(S)[i][j];
    assert A[0][j] == (if 0 == j then 1.0 else 0.0) && A[1][j] == (if 1 == j then 1.0 else 0.0);
    assert A[2][j] == (if 2 == j then 1.0 else 0.0) && A[3][j] == (if 3 == j then 1.0 else 0.0);
    hide Rows;
    hide Cleared;
    hide Undone;
  }

  lemma RowKeptAt(v: Vec, S: Mat, j: nat)
    requires IsMat(S, D, D) && |v| == W && RowKept(v, S) && j < D
    ensures Dot(v[D..], Col(S, j)) == v[j]
  {
    hide Dot;
  }

  lemma LeftInverse(A: Grid, M: Mat, S: Mat)
    requires Kept(A, M, S, D)
    ensures IsGrid(A) && IsMat(S, D, D) && MatMul(RightHalf(A), S, D) == Identity()
  {
    forall i, j | 0 <= i < D && 0 <= j < D ensures MatMul(RightHalf(A), S, D)[i][j] == Identity()[i][j] {
      RowKeptAt(A[i], S, j);
      hide Undone;
      hide RowKept;
      hide Dot;
    }
    hide Undone;
    hide Rows;
    SameMat(MatMul(RightHalf(A), S, D), Identity());
  }

  lemma RightInverseEntry(A: Grid, M: Mat, S: Mat, i: nat, j: nat)
    requires Kept(A, M, S, D) && i < D && j < D
    ensures Dot(S[i], Col(RightHalf(A), j)) == if i == j then 1.0 else 0.0
  {
    BackOfIdentity(M, A, S, i, 0);
    BackOfIdentity(M, A, S, i, 1);
    BackOfIdentity(M, A, S, i, 2);
    BackOfIdentity(M, A, S, i, 3);
    assert Back(M, A, i, D + j) == Augmented(S)[i][D + j];
    Dot4(S[i], Col(RightHalf(A), j));
    hide Kept;
    hide Dot;
  }

  lemma RightInverse(A: Grid, M: Mat, S: Mat)
    requires Kept(A, M, S, D)
    ensures IsGrid(A) && IsMat(S, D, D) && MatMul(S, RightHalf(A), D) == Identity()
  {
    forall i, j | 0 <= i < D && 0 <= j < D ensures MatMul(S, RightHalf(A), D)[i][j] == Identity()[i][j] {
      RightInverseEntry(A, M, S, i, j);
      hide Kept;
      hide Dot;
    }
    SameMat(MatMul(S, RightHalf(A), D), Identity());
  }

  /** Where the routine succeeds, its result is the inverse on both sides; where it does not, the
      matrix has been reduced reversibly up to a column in which no entry of size 1e-10 or more
      is left. */
  lemma InverseCorrect(S: Mat)
    requires IsMat(S, D, D)
    ensures var r := Run(Augmented(S), 0);
            && (r.Inverse? ==> MatMul(RightHalf(r.grid), S, D) == Identity() && MatMul(S, RightHalf(r.grid), D) == Identity())
            && (r.NoPivot? ==> Stuck(r.grid, r.col) && exists M :: Kept(r.grid, M, S, r.col))
  {
    StartKept(S);
    var M := RunKept(Augmented(S), Diagonal([1.0, 1.0, 1.0, 1.0]), S, 0);
    hide Kept;
    hide Run;
    var r := Run(Augmented(S), 0);
    if r.Inverse? {
      LeftInverse(r.grid, M, S);
      RightInverse(r.grid, M, S);
    }
  }

  // ---- in place ----

  function GridOf(a: array2<real>): (A: Grid)
    requires a.Length0 == D && a.Length1 == W
    reads a
    ensures IsGrid(A)
    ensures forall i, j :: 0 <= i < D && 0 <= j < W ==> A[i][j] == a[i, j]
  {
    seq(D, i requires 0 <= i < D reads a => seq(W, j requires 0 <= j < W reads a => a[i, j]))
  }

  lemma SameGrid(A: Grid, B: Grid)
    requires IsGrid(A) && IsGrid(B)
    requires forall i, j :: 0 <= i < D && 0 <= j < W ==> A[i][j] == B[i][j]
    ensures A == B
  {
    forall i | 0 <= i < D ensures A[i] == B[i] { }
  }

  method FindPivot(a: array2<real>, col: nat) returns (pivot: nat, maxVal: real)
    requires a.Length0 == D && a.Length1 == W && col < D
    ensures pivot == Pivot(GridOf(a), col, D) && maxVal == Abs(a[pivot, col])
  {
    pivot, maxVal := col, Abs(a[col, col]);
    for row := col + 1 to D
      invariant col <= pivot < row && pivot == Pivot(GridOf(a), col, row) && maxVal == Abs(a[pivot, col])
    {
      if Abs(a[row, col]) > maxVal {
        maxVal := Abs(a[row, col]);
        pivot := row;
      }
    }
  }

  method SwapRows(a: array2<real>, i: nat, k: nat)
    requires a.Length0 == D && a.Length1 == W && i < D && k < D && i != k
    modifies a
    ensures GridOf(a) == Swapped(old(GridOf(a)), i, k)
  {
    ghost var A := GridOf(a);
    for j := 0 to W
      invariant forall r, c :: 0 <= r < D && 0 <= c < W ==>
                  a[r, c] == if c < j && r == i then A[k][c] else if c < j && r == k then A[i][c] else A[r][c]
    {
      a[i, j], a[k, j] := a[k, j], a[i, j];
    }
    SameGrid(GridOf(a), Swapped(A, i, k));
  }

  method DivideRow(a: array2<real>, col: nat)
    requires a.Length0 == D && a.Length1 == W && col < D && a[col, col] != 0.0
    modifies a
    ensures GridOf(a) == Normalised(old(GridOf(a)), col)
  {
    ghost var A := GridOf(a);
    var p := a[col, col];
    for j := 0 to W
      invariant forall r, c :: 0 <= r < D && 0 <= c < W ==> a[r, c] == if c < j && r == col then A[r][c] / p else A[r][c]
    {
      a[col, j] := a[col, j] / p;
    }
    SameGrid(GridOf(a), Normalised(A, col));
  }

  method ReduceRow(a: array2<real>, col: nat, row: nat)
    requires a.Length0 == D && a.Length1 == W && col < D && row < D && row != col
    modifies a
    ensures var A := old(GridOf(a)); GridOf(a) == A[row := Reduced(A[row], A[row][col], A[col])]
  {
    ghost var A := GridOf(a);
    var factor := a[row, col];
    ghost var B := A[row := Reduced(A[row], factor, A[col])];
    for j := 0 to W
      invariant forall r, c :: 0 <= r < D && 0 <= c < W ==> a[r, c] == if r == row && c >= j then A[r][c] else B[r][c]
    {
      assert B[row][j] == a[row, j] - factor * a[col, j];
      a[row, j] := a[row, j] - factor * a[col, j];
    }
    SameGrid(GridOf(a), B);
  }

  method ClearColumn(a: array2<real>, col: nat)
    requires a.Length0 == D && a.Length1 == W && col < D
    modifies a
    ensures GridOf(a) == ClearedTo(old(GridOf(a)), col, D)
  {
    ghost var A := GridOf(a);
    for row := 0 to D
      invariant GridOf(a) == ClearedTo(A, col, row)
    {
      if row != col { ReduceRow(a, col, row); }
    }
  }

  lemma SwapSelf(A: Grid, i: nat)
    requires IsGrid(A) && i < D
    ensures Swapped(A, i, i) == A
  {
  }

  function LoadedEntry(src: Mat, r: nat, c: nat): (x: real)
    requires IsMat(src, D, D) && r < D && c < W
  {
    if c < D then src[r][c] else if r == c - D then 1.0 else 0.0
  }

  method Load(src: array2<real>) returns (a: array2<real>)
    requires src.Length0 == D && src.Length1 == D
    ensures fresh(a) && a.Length0 == D && a.Length1 == W && GridOf(a) == Augmented(MatOf(src))
  {
    ghost var S := MatOf(src);
    a := new real[D, W]((i, j) => 0.0);
    for i := 0 to D
      invariant forall r, c :: 0 <= r < i && 0 <= c < W ==> a[r, c] == LoadedEntry(S, r, c)
    {
      for j := 0 to D
        invariant forall r, c :: 0 <= r < D && 0 <= c < W && (r < i || (r == i && (c < j || D <= c < D + j))) ==>
                    a[r, c] == LoadedEntry(S, r, c)
      {
        a[i, j] := src[i, j];
        a[i, j + D] := if i == j then 1.0 else 0.0;
      }
    }
    SameGrid(GridOf(a), Augmented(S));
  }

  function MatOf(a: array2<real>): (A: Mat)
    requires a.Length0 == D && a.Length1 == D
    reads a
    ensures IsMat(A, D, D)
    ensures forall i, j :: 0 <= i < D && 0 <= j < D ==> A[i][j] == a[i, j]
  {
    seq(D, i requires 0 <= i < D reads a => seq(D, j requires 0 <= j < D reads a => a[i, j]))
  }

  /** The routine: 0 and the inverse in `dst`, which may be `src`; or -1 and `dst` untouched. */
  method MatrixInverse4x4(src: array2<real>, dst: array2<real>) returns (code: int)
    requires src.Length0 == D && src.Length1 == D && dst.Length0 == D && dst.Length1 == D
    modifies dst
    ensures code == 0 || code == -1
    ensures var S := old(MatOf(src));
            && (code == 0 ==> MatMul(MatOf(dst), S, D) == Identity() && MatMul(S, MatOf(dst), D) == Identity())
            && (code == -1 ==> MatOf(dst) == old(MatOf(dst)) &&
                               Run(Augmented(S), 0).NoPivot? && Stuck(Run(Augmented(S), 0).grid, Run(Augmented(S), 0).col))
  {
    hide Pivot;
    hide ClearedTo;
    hide MatMul;
    hide Identity;
    hide Stuck;
    hide Run;
    ghost var S := MatOf(src);
    InverseCorrect(S);
    var a := Load(src);
    ghost var goal := Run(Augmented(S), 0);
    for col := 0 to D
      invariant a != dst && MatOf(dst) == old(MatOf(dst))
      invariant goal == Run(GridOf(a), col)
    {
      RunStep(GridOf(a), col);
      var pivot, maxVal := FindPivot(a, col);
      if maxVal < PIVOT_MIN { return -1; }
      if pivot != col { SwapRows(a, col, pivot); } else { SwapSelf(GridOf(a), col); }
      DivideRow(a, col);
      ClearColumn(a, col);
    }
    RunEnd(GridOf(a));
    Unload(a, dst);
    code := 0;
  }

  method Unload(a: array2<real>, dst: array2<real>)
    requires a.Length0 == D && a.Length1 == W && dst.Length0 == D && dst.Length1 == D && a != dst
    modifies dst
    ensures MatOf(dst) == RightHalf(GridOf(a))
  {
    ghost var A := GridOf(a);
    for i := 0 to D
      invariant GridOf(a) == A
      invariant forall r, c :: 0 <= r < i && 0 <= c < D ==> dst[r, c] == A[r][c + D]
    {
      for j := 0 to D
        invariant GridOf(a) == A
        invariant forall r, c :: 0 <= r < i && 0 <= c < D ==> dst[r, c] == A[r][c + D]
        invariant forall c :: 0 <= c < j ==> dst[i, c] == A[i][c + D]
      {
        dst[i, j] := a[i, j + D];
      }
    }
    SameMat(MatOf(dst), RightHalf(GridOf(a)));
  }
}
