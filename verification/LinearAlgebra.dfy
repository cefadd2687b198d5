/** Vectors, matrices and quadratic forms over the reals, as far as the error-state filter
    needs them. Matrices are sequences of rows. Sums are formed from the left, as the loops form
    them, and every law is proved by induction on the number of terms. A covariance is a matrix
    that is symmetric and whose quadratic form is nowhere negative; this is what the filter has
    to keep, and what makes the inverse it computes exist. */
module LinearAlgebra {
  type Vec = seq<real>
  type Mat = seq<Vec>

  ghost predicate IsMat(A: Mat, n: nat, m: nat) {
    |A| == n && forall i :: 0 <= i < n ==> |A[i]| == m
  }

  /** The first `k` terms of the inner product, summed from the left. */
  function DotTo(u: Vec, v: Vec, k: nat): (r: real)
    requires k <= |u| && k <= |v|
  {
    if k == 0 then 0.0 else DotTo(u, v, k - 1) + u[k - 1] * v[k - 1]
  }

  function Dot(u: Vec, v: Vec): (r: real)
    requires |u| == |v|
  {
    DotTo(u, v, |u|)
  }

  function Add(u: Vec, v: Vec): (w: Vec)
    requires |u| == |v|
    ensures |w| == |u| && forall i :: 0 <= i < |u| ==> w[i] == u[i] + v[i]
  {
    seq(|u|, i requires 0 <= i < |u| => u[i] + v[i])
  }

  function Scale(c: real, v: Vec): (w: Vec)
    ensures |w| == |v| && forall i :: 0 <= i < |v| ==> w[i] == c * v[i]
  {
    seq(|v|, i requires 0 <= i < |v| => c * v[i])
  }

  function Zero(n: nat): (w: Vec)
    ensures |w| == n && forall i :: 0 <= i < n ==> w[i] == 0.0
  {
    seq(n, _ => 0.0)
  }

  function Unit(n: nat, k: nat): (w: Vec)
    requires k < n
    ensures |w| == n && forall i :: 0 <= i < n ==> w[i] == if i == k then 1.0 else 0.0
  {
    seq(n, i => if i == k then 1.0 else 0.0)
  }

  function Col(A: Mat, j: nat): (v: Vec)
    requires forall i :: 0 <= i < |A| ==> j < |A[i]|
    ensures |v| == |A| && forall i :: 0 <= i < |A| ==> v[i] == A[i][j]
  {
    seq(|A|, i requires 0 <= i < |A| => A[i][j])
  }

  function MatVec(A: Mat, v: Vec): (w: Vec)
    requires forall i :: 0 <= i < |A| ==> |A[i]| == |v|
    ensures |w| == |A| && forall i :: 0 <= i < |A| ==> w[i] == Dot(A[i], v)
  {
    seq(|A|, i requires 0 <= i < |A| => Dot(A[i], v))
  }

  /** The rows of `A` combined with the first `k` weights. */
  function Combine(u: Vec, A: Mat, m: nat, k: nat): (w: Vec)
    requires k <= |u| && k <= |A| && forall i :: 0 <= i < |A| ==> |A[i]| == m
    ensures |w| == m
  {
    if k == 0 then Zero(m) else Add(Combine(u, A, m, k - 1), Scale(u[k - 1], A[k - 1]))
  }

  lemma {:induction false} DotToSymmetric(u: Vec, v: Vec, k: nat)
    requires k <= |u| && k <= |v|
    ensures DotTo(u, v, k) == DotTo(v, u, k)
  {
    if k > 0 { DotToSymmetric(u, v, k - 1); }
  }

  lemma {:induction false} DotToZero(v: Vec, k: nat, n: nat)
    requires k <= n && k <= |v|
    ensures DotTo(Zero(n), v, k) == 0.0
  {
    if k > 0 { DotToZero(v, k - 1, n); }
  }

  lemma {:induction false} DotToAdd(a: Vec, b: Vec, v: Vec, k: nat)
    requires |a| == |b| && k <= |a| && k <= |v|
    ensures DotTo(Add(a, b), v, k) == DotTo(a, v, k) + DotTo(b, v, k)
  {
    if k > 0 {
      DotToAdd(a, b, v, k - 1);
      Distribute(a[k - 1], b[k - 1], v[k - 1]);
    }
  }

  lemma Distribute(a: real, b: real, c: real)
    ensures (a + b) * c == a * c + b * c
  {
  }

  lemma Associate(a: real, b: real, c: real)
    ensures (a * b) * c == a * (b * c)
  {
  }

  lemma {:induction false} DotToScale(c: real, a: Vec, v: Vec, k: nat)
    requires k <= |a| && k <= |v|
    ensures DotTo(Scale(c, a), v, k) == c * DotTo(a, v, k)
  {
    if k > 0 {
      DotToScale(c, a, v, k - 1);
      Associate(c, a[k - 1], v[k - 1]);
      Distribute(DotTo(a, v, k - 1), a[k - 1] * v[k - 1], c);
    }
  }

  lemma {:induction false} DotToUnit(i: nat, n: nat, v: Vec, k: nat)
    requires i < n && k <= n && k <= |v|
    ensures DotTo(Unit(n, i), v, k) == if i < k then v[i] else 0.0
  {
    if k > 0 { DotToUnit(i, n, v, k - 1); }
  }

  lemma DotUnit(i: nat, v: Vec)
    requires i < |v|
    ensures Dot(Unit(|v|, i), v) == v[i]
  {
    DotToUnit(i, |v|, v, |v|);
  }

  lemma DotSymmetric(u: Vec, v: Vec)
    requires |u| == |v|
    ensures Dot(u, v) == Dot(v, u)
  {
    DotToSymmetric(u, v, |u|);
  }

  lemma DotAdd(a: Vec, b: Vec, v: Vec)
    requires |a| == |b| == |v|
    ensures Dot(Add(a, b), v) == Dot(a, v) + Dot(b, v)
  {
    DotToAdd(a, b, v, |v|);
  }

  lemma DotScale(c: real, a: Vec, v: Vec)
    requires |a| == |v|
    ensures Dot(Scale(c, a), v) == c * Dot(a, v)
  {
    DotToScale(c, a, v, |v|);
  }

  /** The order of summation does not matter: u·(A v) is (u A)·v. */
  lemma {:induction false} Adjoint(u: Vec, A: Mat, v: Vec, k: nat)
    requires k <= |u| && k <= |A| && forall i :: 0 <= i < |A| ==> |A[i]| == |v|
    ensures Dot(Combine(u, A, |v|, k), v) == DotTo(u, MatVec(A, v), k)
  {
    if k == 0 {
      DotToZero(v, |v|, |v|);
    } else {
      Adjoint(u, A, v, k - 1);
      DotAdd(Combine(u, A, |v|, k - 1), Scale(u[k - 1], A[k - 1]), v);
      DotScale(u[k - 1], A[k - 1], v);
    }
  }

  lemma {:induction false} CombineEntry(u: Vec, A: Mat, m: nat, k: nat, j: nat)
    requires k <= |u| && k <= |A| && j < m && forall i :: 0 <= i < |A| ==> |A[i]| == m
    ensures Combine(u, A, m, k)[j] == DotTo(u, Col(A, j), k)
  {
    if k > 0 { CombineEntry(u, A, m, k - 1, j); }
  }

  /** Row `i` of `A` times the columns of `B`. */
  function MatMul(A: Mat, B: Mat, n: nat): (C: Mat)
    requires IsMat(A, n, n) && IsMat(B, n, n)
    ensures IsMat(C, n, n)
  {
    seq(n, i requires 0 <= i < n => seq(n, j requires 0 <= j < n => Dot(A[i], Col(B, j))))
  }

  // ---- symmetric positive semidefinite matrices ----

  ghost predicate Symmetric(P: Mat)
    requires IsMat(P, |P|, |P|)
  {
    forall i, j :: 0 <= i < |P| && 0 <= j < |P| ==> P[i][j] == P[j][i]
  }

  /** The quadratic form x'Px. */
  function Quad(P: Mat, x: Vec): (r: real)
    requires IsMat(P, |x|, |x|)
  {
    Dot(x, MatVec(P, x))
  }

  ghost predicate Semidefinite(P: Mat)
    requires IsMat(P, |P|, |P|)
  {
    forall x: Vec :: |x| == |P| ==> Quad(P, x) >= 0.0
  }

  ghost predicate Covariance(P: Mat, n: nat) {
    IsMat(P, n, n) && Symmetric(P) && Semidefinite(P)
  }

  /** A symmetric matrix moves across the inner product. */
  lemma SelfAdjoint(P: Mat, u: Vec, v: Vec)
    requires IsMat(P, |u|, |u|) && |v| == |u| && Symmetric(P)
    ensures Dot(u, MatVec(P, v)) == Dot(v, MatVec(P, u))
  {
    var n := |u|;
    Adjoint(u, P, v, n);
    forall j | 0 <= j < n ensures Combine(u, P, n, n)[j] == MatVec(P, u)[j] {
      CombineEntry(u, P, n, n, j);
      assert Col(P, j) == P[j];
      DotSymmetric(u, P[j]);
    }
    assert Combine(u, P, n, n) == MatVec(P, u);
    DotSymmetric(MatVec(P, u), v);
  }

  function Square(x: Vec, q: Vec, k: nat): (r: real)
    requires k <= |x| && k <= |q|
  {
    if k == 0 then 0.0 else Square(x, q, k - 1) + q[k - 1] * (x[k - 1] * x[k - 1])
  }

  lemma {:induction false} SquareNonnegative(x: Vec, q: Vec, k: nat)
    requires k <= |x| && k <= |q| && forall i :: 0 <= i < |q| ==> q[i] >= 0.0
    ensures Square(x, q, k) >= 0.0
  {
    if k > 0 { SquareNonnegative(x, q, k - 1); }
  }

  function Times(q: Vec, x: Vec): (w: Vec)
    requires |q| == |x|
    ensures |w| == |x| && forall i :: 0 <= i < |x| ==> w[i] == q[i] * x[i]
  {
    seq(|x|, i requires 0 <= i < |x| => q[i] * x[i])
  }

  lemma {:induction false} DotTimes(x: Vec, q: Vec, k: nat)
    requires |x| == |q| && k <= |x|
    ensures DotTo(x, Times(q, x), k) == Square(x, q, k)
  {
    if k > 0 {
      DotTimes(x, q, k - 1);
      Associate(q[k - 1], x[k - 1], x[k - 1]);
    }
  }

  function Diagonal(d: Vec): (A: Mat)
    ensures IsMat(A, |d|, |d|)
    ensures forall i, j :: 0 <= i < |d| && 0 <= j < |d| ==> A[i][j] == if i == j then d[i] else 0.0
  {
    seq(|d|, i requires 0 <= i < |d| => Scale(d[i], Unit(|d|, i)))
  }

  lemma DiagonalTimes(d: Vec, x: Vec)
    requires |d| == |x|
    ensures MatVec(Diagonal(d), x) == Times(d, x)
  {
    forall i | 0 <= i < |x| ensures Dot(Diagonal(d)[i], x) == d[i] * x[i] {
      assert Diagonal(d)[i] == Scale(d[i], Unit(|d|, i));
      DotScale(d[i], Unit(|d|, i), x);
      DotUnit(i, x);
    }
  }

  lemma DiagonalCovariance(d: Vec)
    requires forall i :: 0 <= i < |d| ==> d[i] >= 0.0
    ensures Covariance(Diagonal(d), |d|)
  {
    forall x: Vec | |x| == |d| ensures Quad(Diagonal(d), x) >= 0.0 {
      DiagonalTimes(d, x);
      DotTimes(x, d, |x|);
      SquareNonnegative(x, d, |x|);
    }
  }
}
