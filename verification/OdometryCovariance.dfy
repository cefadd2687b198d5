/** The error-state covariance of the odometry (src/k1_odometry.c), over the reals: symmetric and
    positive semidefinite over every run. */
module OdometryCovariance {
  import opened LinearAlgebra

  const N := 9

  /** `A` times `B` transposed. */
  function MulT(A: Mat, B: Mat): (C: Mat)
    requires IsMat(A, N, N) && IsMat(B, N, N)
    ensures IsMat(C, N, N)
  {
    seq(N, i requires 0 <= i < N => MatVec(B, A[i]))
  }

  // ---- prediction: P := F P F' + Q ----

  function StepTime(last: real, now: real): (dt: real)
    ensures 0.0005 <= dt <= 0.1
  {
    if last > 0.0 then
      var d := now - last;
      var e := if d < 0.0005 then 0.0005 else d;
      if e > 0.1 then 0.01 else e
    else 0.01
  }

  /** Identity, the velocity times dt in the position rows, and the attitude error across the
      acceleration times dt, (x, y, z), in the velocity rows. */
  function TransitionEntry(dt: real, x: real, y: real, z: real, i: nat, j: nat): (r: real) {
    if i == j then 1.0
    else if i < 3 then if j == i + 3 then dt else 0.0
    else if i == 3 then if j == 7 then z else if j == 8 then -y else 0.0
    else if i == 4 then if j == 6 then -z else if j == 8 then x else 0.0
    else if i == 5 then if j == 6 then y else if j == 7 then -x else 0.0
    else 0.0
  }

  function Transition(dt: real, ax: real, ay: real, az: real): (F: Mat)
    ensures IsMat(F, N, N)
  {
    seq(N, i requires 0 <= i < N => seq(N, j requires 0 <= j < N =>
      TransitionEntry(dt, ax * dt, ay * dt, az * dt, i, j)))
  }

  /** A row with a one at `i` and two more entries. */
  lemma SparseRow(row: Vec, i: nat, p: real, a: nat, q: real, b: nat, x: Vec)
    requires |row| == |x| == N && i < N && a < N && b < N
    requires forall j :: 0 <= j < N ==> row[j] == (if j == i then 1.0 else 0.0) + (if j == a then p else 0.0) + if j == b then q else 0.0
    ensures Dot(row, x) == x[i] + p * x[a] + q * x[b]
  {
    var u, v, w := Unit(N, i), Scale(p, Unit(N, a)), Scale(q, Unit(N, b));
    assert row == Add(Add(u, v), w);
    DotAdd(Add(u, v), w, x);
    DotAdd(u, v, x);
    DotScale(p, Unit(N, a), x);
    DotScale(q, Unit(N, b), x);
    DotUnit(i, x);
    DotUnit(a, x);
    DotUnit(b, x);
  }

  function CrossTerm(dt: real, a: real, u: real, b: real, v: real): (r: real) {
    dt * (a * u - b * v)
  }

  lemma CrossIs(dt: real, a: real, u: real, b: real, v: real, x: real)
    ensures x + b * dt * v + -(a * dt) * u == x - CrossTerm(dt, a, u, b, v)
    ensures x + -(a * dt) * u + b * dt * v == x - CrossTerm(dt, a, u, b, v)
  {
  }

  /** The transition on an error of position, velocity and attitude: the position error grows by dt
      times the velocity error, and the velocity error changes by minus dt times the cross product
      of acceleration and attitude error. */
  lemma TransitionMeaning(dt: real, ax: real, ay: real, az: real, x: Vec)
    requires |x| == N
    ensures var y := MatVec(Transition(dt, ax, ay, az), x);
            && (forall i :: 0 <= i < 3 ==> y[i] == x[i] + dt * x[i + 3])
            && y[3] == x[3] - CrossTerm(dt, ay, x[8], az, x[7])
            && y[4] == x[4] - CrossTerm(dt, az, x[6], ax, x[8])
            && y[5] == x[5] - CrossTerm(dt, ax, x[7], ay, x[6])
            && (forall i :: 6 <= i < N ==> y[i] == x[i])
  {
    var F := Transition(dt, ax, ay, az);
    hide Transition;
    hide Dot;
    var y := MatVec(F, x);
    forall i | 0 <= i < 3 ensures y[i] == x[i] + dt * x[i + 3] { PlainRow(dt, ax, ay, az, i, x); }
    forall i | 6 <= i < N ensures y[i] == x[i] { PlainRow(dt, ax, ay, az, i, x); }
    VelocityRows(dt, ax, ay, az, x);
    assert y[3] == Dot(F[3], x) && y[4] == Dot(F[4], x) && y[5] == Dot(F[5], x);
    CrossIs(dt, ay, x[8], az, x[7], x[3]);
    CrossIs(dt, az, x[6], ax, x[8], x[4]);
    CrossIs(dt, ax, x[7], ay, x[6], x[5]);
    hide CrossTerm;
  }

  lemma PlainRow(dt: real, ax: real, ay: real, az: real, i: nat, x: Vec)
    requires |x| == N && i < N && (i < 3 || i >= 6)
    ensures Dot(Transition(dt, ax, ay, az)[i], x) == x[i] + if i < 3 then dt * x[i + 3] else 0.0
  {
    if i < 3 { SparseRow(Transition(dt, ax, ay, az)[i], i, dt, i + 3, 0.0, 0, x); }
    else { SparseRow(Transition(dt, ax, ay, az)[i], i, 0.0, 0, 0.0, 0, x); }
  }

  lemma VelocityRows(dt: real, ax: real, ay: real, az: real, x: Vec)
    requires |x| == N
    ensures Dot(Transition(dt, ax, ay, az)[3], x) == x[3] + az * dt * x[7] + -(ay * dt) * x[8]
    ensures Dot(Transition(dt, ax, ay, az)[4], x) == x[4] + -(az * dt) * x[6] + ax * dt * x[8]
    ensures Dot(Transition(dt, ax, ay, az)[5], x) == x[5] + ay * dt * x[6] + -(ax * dt) * x[7]
  {
    var F := Transition(dt, ax, ay, az);
    var p, q, r := ax * dt, ay * dt, az * dt;
    SparseRow(F[3], 3, r, 7, -q, 8, x);
    SparseRow(F[4], 4, -r, 6, p, 8, x);
    SparseRow(F[5], 5, q, 6, -p, 7, x);
    hide Dot;
  }

  function Noise(dt: real, sigmaA: real, sigmaG: real): (q: Vec)
    ensures |q| == N
  {
    var qa, qg := sigmaA * sigmaA * dt, sigmaG * sigmaG * dt;
    [0.0, 0.0, 0.0, qa, qa, qa, qg, qg, qg]
  }

  function PlusDiagonal(P: Mat, q: Vec): (R: Mat)
    requires IsMat(P, N, N) && |q| == N
    ensures IsMat(R, N, N)
    ensures forall i, j :: 0 <= i < N && 0 <= j < N ==> R[i][j] == P[i][j] + if i == j then q[i] else 0.0
  {
    seq(N, i requires 0 <= i < N => seq(N, j requires 0 <= j < N => P[i][j] + if i == j then q[i] else 0.0))
  }

  function Predicted(P: Mat, F: Mat, q: Vec): (R: Mat)
    requires IsMat(P, N, N) && IsMat(F, N, N) && |q| == N
    ensures IsMat(R, N, N)
  {
    PlusDiagonal(MulT(MatMul(F, P, N), F), q)
  }

  lemma MulRow(A: Mat, B: Mat, i: nat)
    requires IsMat(A, N, N) && IsMat(B, N, N) && i < N
    ensures MatMul(A, B, N)[i] == Combine(A[i], B, N, N)
  {
    forall j | 0 <= j < N ensures MatMul(A, B, N)[i][j] == Combine(A[i], B, N, N)[j] { CombineEntry(A[i], B, N, N, j); }
  }

  /** An entry of F P F' is the bilinear form of P at two rows of F. */
  lemma SandwichEntry(P: Mat, F: Mat, i: nat, j: nat)
    requires IsMat(P, N, N) && IsMat(F, N, N) && i < N && j < N
    ensures MulT(MatMul(F, P, N), F)[i][j] == Dot(F[i], MatVec(P, F[j]))
  {
    MulRow(F, P, i);
    DotSymmetric(F[j], MatMul(F, P, N)[i]);
    Adjoint(F[i], P, F[j], N);
  }

  lemma SandwichSymmetric(P: Mat, F: Mat)
    requires IsMat(P, N, N) && IsMat(F, N, N) && Symmetric(P)
    ensures Symmetric(MulT(MatMul(F, P, N), F))
  {
    var R := MulT(MatMul(F, P, N), F);
    hide MatMul;
    hide MulT;
    hide Dot;
    forall i, j | 0 <= i < N && 0 <= j < N ensures R[i][j] == R[j][i] {
      SandwichEntry(P, F, i, j);
      SandwichEntry(P, F, j, i);
      SelfAdjoint(P, F[i], F[j]);
    }
  }

  /** x'(F P F')x is y'Py for y = F'x. */
  lemma SandwichQuad(P: Mat, F: Mat, x: Vec)
    requires IsMat(P, N, N) && IsMat(F, N, N) && |x| == N
    ensures Quad(MulT(MatMul(F, P, N), F), x) == Quad(P, Combine(x, F, N, N))
  {
    var R := MulT(MatMul(F, P, N), F);
    var y := Combine(x, F, N, N);
    forall i | 0 <= i < N ensures MatVec(R, x)[i] == MatVec(F, MatVec(P, y))[i] {
      var c := Combine(F[i], P, N, N);
      MulRow(F, P, i);
      DotSymmetric(MatVec(F, c), x);
      Adjoint(x, F, c, N);
      DotSymmetric(y, c);
      Adjoint(F[i], P, y, N);
    }
    assert MatVec(R, x) == MatVec(F, MatVec(P, y));
    Adjoint(x, F, MatVec(P, y), N);
  }

  lemma PlusDiagonalRow(P: Mat, q: Vec, x: Vec, i: nat)
    requires IsMat(P, N, N) && |q| == N && |x| == N && i < N
    ensures Dot(PlusDiagonal(P, q)[i], x) == Dot(P[i], x) + q[i] * x[i]
  {
    hide Dot;
    assert PlusDiagonal(P, q)[i] == Add(P[i], Scale(q[i], Unit(N, i)));
    DotAdd(P[i], Scale(q[i], Unit(N, i)), x);
    DotScale(q[i], Unit(N, i), x);
    DotUnit(i, x);
  }

  lemma PlusDiagonalQuad(P: Mat, q: Vec, x: Vec)
    requires IsMat(P, N, N) && |q| == N && |x| == N
    ensures Quad(PlusDiagonal(P, q), x) == Quad(P, x) + Square(x, q, N)
  {
    var R := PlusDiagonal(P, q);
    forall i | 0 <= i < N ensures MatVec(R, x)[i] == Add(MatVec(P, x), Times(q, x))[i] { PlusDiagonalRow(P, q, x, i); }
    assert MatVec(R, x) == Add(MatVec(P, x), Times(q, x));
    hide DotTo;
    hide MatVec;
    hide Times;
    DotSymmetric(x, MatVec(R, x));
    DotAdd(MatVec(P, x), Times(q, x), x);
    DotSymmetric(x, MatVec(P, x));
    DotSymmetric(x, Times(q, x));
    DotTimes(x, q, N);
  }

  lemma PredictedQuad(P: Mat, F: Mat, q: Vec, x: Vec)
    requires IsMat(P, N, N) && IsMat(F, N, N) && |q| == N && |x| == N
    ensures Quad(Predicted(P, F, q), x) == Quad(P, Combine(x, F, N, N)) + Square(x, q, N)
  {
    hide MatMul;
    hide MulT;
    hide Quad;
    hide PlusDiagonal;
    SandwichQuad(P, F, x);
    PlusDiagonalQuad(MulT(MatMul(F, P, N), F), q, x);
  }

  lemma PredictedSymmetric(P: Mat, F: Mat, q: Vec)
    requires IsMat(P, N, N) && IsMat(F, N, N) && |q| == N && Symmetric(P)
    ensures Symmetric(Predicted(P, F, q))
  {
    hide MatMul;
    hide MulT;
    SandwichSymmetric(P, F);
  }

  /** Prediction keeps the covariance symmetric and positive semidefinite, for any transition
      matrix and any noise that is not negative. */
  lemma PredictionKeeps(P: Mat, F: Mat, q: Vec)
    requires Covariance(P, N) && IsMat(F, N, N) && |q| == N
    requires forall i :: 0 <= i < N ==> q[i] >= 0.0
    ensures Covariance(Predicted(P, F, q), N)
  {
    hide Predicted;
    hide Quad;
    PredictedSymmetric(P, F, q);
    hide Symmetric;
    forall x: Vec | |x| == N ensures Quad(Predicted(P, F, q), x) >= 0.0 {
      PredictedQuad(P, F, q, x);
      SquareNonnegative(x, q, N);
      assert |Combine(x, F, N, N)| == N;
    }
  }

  lemma NoiseNonnegative(dt: real, sigmaA: real, sigmaG: real)
    requires dt > 0.0
    ensures forall i :: 0 <= i < N ==> Noise(dt, sigmaA, sigmaG)[i] >= 0.0
  {
    assert sigmaA * sigmaA >= 0.0 && sigmaG * sigmaG >= 0.0;
  }

  // ---- zero-velocity correction: P := (I - K H) P ----

  const R_ZUPT := 0.01
  const DET_MIN := 0.000000000001

  /** H P H' + R, row by row. */
  function Innovation(P: Mat): (S: Vec)
    requires IsMat(P, N, N)
    ensures |S| == 9
  {
    [P[3][3] + R_ZUPT, P[3][4], P[3][5],
     P[4][3], P[4][4] + R_ZUPT, P[4][5],
     P[5][3], P[5][4], P[5][5] + R_ZUPT]
  }

  function Det3(S: Vec): (r: real)
    requires |S| == 9
  {
    S[0] * (S[4] * S[8] - S[5] * S[7]) - S[1] * (S[3] * S[8] - S[5] * S[6]) + S[2] * (S[3] * S[7] - S[4] * S[6])
  }

  /** The adjugate times 1/det. */
  function Inverse3(S: Vec, inv: real): (V: Vec)
    requires |S| == 9
    ensures |V| == 9
  {
    [(S[4] * S[8] - S[5] * S[7]) * inv, (S[2] * S[7] - S[1] * S[8]) * inv, (S[1] * S[5] - S[2] * S[4]) * inv,
     (S[5] * S[6] - S[3] * S[8]) * inv, (S[0] * S[8] - S[2] * S[6]) * inv, (S[2] * S[3] - S[0] * S[5]) * inv,
     (S[3] * S[7] - S[4] * S[6]) * inv, (S[1] * S[6] - S[0] * S[7]) * inv, (S[0] * S[4] - S[1] * S[3]) * inv]
  }

  function Gain(P: Mat, V: Vec, i: nat, j: nat): (r: real)
    requires IsMat(P, N, N) && |V| == 9 && i < N && j < 3
  {
    P[i][3] * V[j] + P[i][4] * V[3 + j] + P[i][5] * V[6 + j]
  }

  function IdentityMinusKH(P: Mat, V: Vec): (A: Mat)
    requires IsMat(P, N, N) && |V| == 9
    ensures IsMat(A, N, N)
  {
    seq(N, i requires 0 <= i < N => seq(N, j requires 0 <= j < N =>
      (if 3 <= j < 6 then -Gain(P, V, i, j - 3) else 0.0) + if i == j then 1.0 else 0.0))
  }

  predicate Singular(P: Mat)
    requires IsMat(P, N, N)
  {
    var det := Det3(Innovation(P));
    -DET_MIN < det < DET_MIN
  }

  function Corrected(P: Mat): (R: Mat)
    requires IsMat(P, N, N)
    ensures IsMat(R, N, N)
  {
    if Singular(P) then P
    else
      var S := Innovation(P);
      MatMul(IdentityMinusKH(P, Inverse3(S, 1.0 / Det3(S))), P, N)
  }

  // ---- the innovation covariance can be inverted ----

  function Spread(a: real, b: real, c: real): (w: Vec)
    ensures |w| == N
  {
    [0.0, 0.0, 0.0, a, b, c, 0.0, 0.0, 0.0]
  }

  lemma DotSpread(a: real, b: real, c: real, z: Vec)
    requires |z| == N
    ensures Dot(Spread(a, b, c), z) == a * z[3] + b * z[4] + c * z[5]
  {
    var w := Spread(a, b, c);
    assert DotTo(w, z, 0) == 0.0;
    assert DotTo(w, z, 1) == 0.0;
    assert DotTo(w, z, 2) == 0.0;
    assert DotTo(w, z, 3) == 0.0;
    assert DotTo(w, z, 4) == a * z[3];
    assert DotTo(w, z, 5) == a * z[3] + b * z[4];
    assert DotTo(w, z, 6) == a * z[3] + b * z[4] + c * z[5];
    assert DotTo(w, z, 7) == DotTo(w, z, 6);
    assert DotTo(w, z, 8) == DotTo(w, z, 7);
    assert DotTo(w, z, 9) == DotTo(w, z, 8);
  }

  /** The quadratic form of a symmetric 3x3 matrix, given by its upper triangle. */
  function Form3(s00: real, s01: real, s02: real, s11: real, s12: real, s22: real, a: real, b: real, c: real): (r: real) {
    a * (s00 * a + s01 * b + s02 * c) + b * (s01 * a + s11 * b + s12 * c) + c * (s02 * a + s12 * b + s22 * c)
  }

  lemma RowSpread(P: Mat, a: real, b: real, c: real, i: nat)
    requires IsMat(P, N, N) && i < N
    ensures MatVec(P, Spread(a, b, c))[i] == a * P[i][3] + b * P[i][4] + c * P[i][5]
  {
    hide Dot;
    DotSymmetric(P[i], Spread(a, b, c));
    DotSpread(a, b, c, P[i]);
    hide Spread;
  }

  lemma SpreadQuad(P: Mat, a: real, b: real, c: real)
    requires IsMat(P, N, N)
    ensures Quad(P, Spread(a, b, c)) ==
            a * (a * P[3][3] + b * P[3][4] + c * P[3][5]) + b * (a * P[4][3] + b * P[4][4] + c * P[4][5])
            + c * (a * P[5][3] + b * P[5][4] + c * P[5][5])
  {
    hide Dot;
    DotSpread(a, b, c, MatVec(P, Spread(a, b, c)));
    RowSpread(P, a, b, c, 3);
    RowSpread(P, a, b, c, 4);
    RowSpread(P, a, b, c, 5);
    hide MatVec;
    hide Spread;
  }

  lemma QuadNonnegative(P: Mat, x: Vec)
    requires Covariance(P, N) && |x| == N
    ensures Quad(P, x) >= 0.0
  {
    hide Quad;
  }

  lemma VelocitySymmetric(P: Mat)
    requires Covariance(P, N)
    ensures P[4][3] == P[3][4] && P[5][3] == P[3][5] && P[5][4] == P[4][5]
  {
    hide Semidefinite;
  }

  lemma FormIs(s00: real, s01: real, s02: real, s11: real, s12: real, s22: real, a: real, b: real, c: real)
    ensures Form3(s00, s01, s02, s11, s12, s22, a, b, c) ==
            a * (a * s00 + b * s01 + c * s02) + b * (a * s01 + b * s11 + c * s12) + c * (a * s02 + b * s12 + c * s22)
  {
  }

  lemma IsCovariance(P: Mat)
    requires Covariance(P, N)
    ensures IsMat(P, N, N)
  {
  }

  lemma VelocityForm(P: Mat, a: real, b: real, c: real)
    requires Covariance(P, N)
    ensures IsMat(P, N, N) && Form3(P[3][3], P[3][4], P[3][5], P[4][4], P[4][5], P[5][5], a, b, c) >= 0.0
  {
    hide Covariance;
    IsCovariance(P);
    VelocitySymmetric(P);
    QuadNonnegative(P, Spread(a, b, c));
    SpreadQuad(P, a, b, c);
    FormIs(P[3][3], P[3][4], P[3][5], P[4][4], P[4][5], P[5][5], a, b, c);
    hide *;
  }

  lemma CancelPositive(x: real, d: real, e: real)
    requires x > 0.0 && x * d >= e * (x * x)
    ensures d >= e * x
  {
    assert d < e * x ==> x * d < x * (e * x);
    assert x * (e * x) == e * (x * x);
  }

  function Minor2(s00: real, s01: real, s11: real): (r: real) {
    s00 * s11 - s01 * s01
  }

  /** The form at the vector that exposes the second leading minor. */
  lemma Form2Minor(s00: real, s01: real, s02: real, s11: real, s12: real, s22: real)
    ensures Form3(s00, s01, s02, s11, s12, s22, -s01, s00, 0.0) == s00 * Minor2(s00, s01, s11)
  {
  }

  function Det6(s00: real, s01: real, s02: real, s11: real, s12: real, s22: real): (r: real) {
    s00 * (s11 * s22 - s12 * s12) - s01 * (s01 * s22 - s12 * s02) + s02 * (s01 * s12 - s11 * s02)
  }

  /** The form at the last column of the adjugate. */
  lemma Form3Minor(s00: real, s01: real, s02: real, s11: real, s12: real, s22: real)
    ensures Form3(s00, s01, s02, s11, s12, s22, s01 * s12 - s02 * s11, s01 * s02 - s00 * s12, Minor2(s00, s01, s11)) ==
            Minor2(s00, s01, s11) * Det6(s00, s01, s02, s11, s12, s22)
  {
    var c0, c1, c2 := s01 * s12 - s02 * s11, s01 * s02 - s00 * s12, s00 * s11 - s01 * s01;
    assert s00 * c0 + s01 * c1 + s02 * c2 == 0.0;
    assert s01 * c0 + s11 * c1 + s12 * c2 == 0.0;
    assert s02 * c0 + s12 * c1 + s22 * c2 == Det6(s00, s01, s02, s11, s12, s22);
  }

  ghost predicate AtLeast(e: real, s00: real, s01: real, s02: real, s11: real, s12: real, s22: real) {
    forall a: real, b: real, c: real ::
      Form3(s00, s01, s02, s11, s12, s22, a, b, c) >= e * (a * a + b * b + c * c)
  }

  lemma AtLeastAt(e: real, s00: real, s01: real, s02: real, s11: real, s12: real, s22: real, a: real, b: real, c: real)
    requires AtLeast(e, s00, s01, s02, s11, s12, s22)
    ensures Form3(s00, s01, s02, s11, s12, s22, a, b, c) >= e * (a * a + b * b + c * c)
  {
    hide Form3;
  }

  lemma Form1Minor(s00: real, s01: real, s02: real, s11: real, s12: real, s22: real)
    ensures Form3(s00, s01, s02, s11, s12, s22, 1.0, 0.0, 0.0) == s00
  {
  }

  lemma FirstMinor(e: real, s00: real, s01: real, s02: real, s11: real, s12: real, s22: real)
    requires AtLeast(e, s00, s01, s02, s11, s12, s22)
    ensures s00 >= e
  {
    hide *;
    AtLeastAt(e, s00, s01, s02, s11, s12, s22, 1.0, 0.0, 0.0);
    Form1Minor(s00, s01, s02, s11, s12, s22);
  }

  lemma SecondMinor(e: real, s00: real, s01: real, s02: real, s11: real, s12: real, s22: real)
    requires e > 0.0 && AtLeast(e, s00, s01, s02, s11, s12, s22)
    ensures s00 * Minor2(s00, s01, s11) >= e * (s00 * s00)
  {
    hide *;
    AtLeastAt(e, s00, s01, s02, s11, s12, s22, -s01, s00, 0.0);
    Form2Minor(s00, s01, s02, s11, s12, s22);
    DropSquares(e, -s01, 0.0, s00);
  }

  lemma ThirdMinor(e: real, s00: real, s01: real, s02: real, s11: real, s12: real, s22: real)
    requires e > 0.0 && AtLeast(e, s00, s01, s02, s11, s12, s22)
    ensures var d := Minor2(s00, s01, s11); d * Det6(s00, s01, s02, s11, s12, s22) >= e * (d * d)
  {
    hide *;
    var c0, c1 := s01 * s12 - s02 * s11, s01 * s02 - s00 * s12;
    AtLeastAt(e, s00, s01, s02, s11, s12, s22, c0, c1, Minor2(s00, s01, s11));
    Form3Minor(s00, s01, s02, s11, s12, s22);
    DropSquares(e, c0, c1, Minor2(s00, s01, s11));
  }

  lemma DropSquares(e: real, a: real, b: real, c: real)
    requires e >= 0.0
    ensures e * (a * a + b * b + c * c) >= e * (c * c) && e * (a * a + c * c + b * b) >= e * (c * c)
  {
    assert a * a >= 0.0 && b * b >= 0.0;
    Scaled(e, c * c, a * a + b * b + c * c);
  }

  /** A symmetric 3x3 form that is at least `e` has a determinant of at least e^3. */
  lemma DetAtLeast(e: real, s00: real, s01: real, s02: real, s11: real, s12: real, s22: real)
    requires e > 0.0 && AtLeast(e, s00, s01, s02, s11, s12, s22)
    ensures Det6(s00, s01, s02, s11, s12, s22) >= e * (e * e)
  {
    hide *;
    FirstMinor(e, s00, s01, s02, s11, s12, s22);
    SecondMinor(e, s00, s01, s02, s11, s12, s22);
    ThirdMinor(e, s00, s01, s02, s11, s12, s22);
    MinorChain(e, s00, Minor2(s00, s01, s11), Det6(s00, s01, s02, s11, s12, s22));
  }

  lemma MinorChain(e: real, s00: real, d2: real, det: real)
    requires e > 0.0 && s00 >= e
    requires s00 * d2 >= e * (s00 * s00)
    requires d2 * det >= e * (d2 * d2)
    ensures det >= e * (e * e)
  {
    CancelPositive(s00, d2, e);
    Scaled(e, e, s00);
    assert e * e > 0.0;
    CancelPositive(d2, det, e);
    Scaled(e, e * e, d2);
  }

  lemma Scaled(e: real, a: real, b: real)
    requires e >= 0.0 && a <= b
    ensures e * a <= e * b
  {
  }

  lemma InnovationAtLeast(P: Mat)
    requires Covariance(P, N)
    ensures IsMat(P, N, N)
    ensures AtLeast(R_ZUPT, P[3][3] + R_ZUPT, P[3][4], P[3][5], P[4][4] + R_ZUPT, P[4][5], P[5][5] + R_ZUPT)
  {
    hide Covariance;
    hide Form3;
    hide IsMat;
    IsCovariance(P);
    var s00, s11, s22 := P[3][3] + R_ZUPT, P[4][4] + R_ZUPT, P[5][5] + R_ZUPT;
    forall a: real, b: real, c: real
      ensures Form3(s00, P[3][4], P[3][5], s11, P[4][5], s22, a, b, c) >= R_ZUPT * (a * a + b * b + c * c)
    {
      VelocityForm(P, a, b, c);
      FormShift(P[3][3], P[3][4], P[3][5], P[4][4], P[4][5], P[5][5], a, b, c);
    }
  }

  lemma FormShift(s00: real, s01: real, s02: real, s11: real, s12: real, s22: real, a: real, b: real, c: real)
    ensures Form3(s00 + R_ZUPT, s01, s02, s11 + R_ZUPT, s12, s22 + R_ZUPT, a, b, c) ==
            Form3(s00, s01, s02, s11, s12, s22, a, b, c) + R_ZUPT * (a * a + b * b + c * c)
  {
  }

  lemma DetSymmetric(S: Vec)
    requires |S| == 9 && S[3] == S[1] && S[6] == S[2] && S[7] == S[5]
    ensures Det3(S) == Det6(S[0], S[1], S[2], S[4], S[5], S[8])
  {
  }

  lemma InnovationSymmetric(P: Mat)
    requires Covariance(P, N)
    ensures IsMat(P, N, N)
    ensures var S := Innovation(P); S[3] == S[1] && S[6] == S[2] && S[7] == S[5]
  {
    VelocitySymmetric(P);
    hide Symmetric;
    hide Semidefinite;
  }

  lemma InnovationDet(P: Mat)
    requires Covariance(P, N)
    ensures IsMat(P, N, N) && Det3(Innovation(P)) >= R_ZUPT * (R_ZUPT * R_ZUPT)
  {
    hide Covariance;
    hide Det3;
    hide Det6;
    hide AtLeast;
    IsCovariance(P);
    hide IsMat;
    InnovationSymmetric(P);
    DetSymmetric(Innovation(P));
    InnovationAtLeast(P);
    DetAtLeast(R_ZUPT, P[3][3] + R_ZUPT, P[3][4], P[3][5], P[4][4] + R_ZUPT, P[4][5], P[5][5] + R_ZUPT);
  }

  /** The determinant is at least 1e-6, so the bail-out is never taken. */
  lemma NeverSingular(P: Mat)
    requires Covariance(P, N)
    ensures IsMat(P, N, N) && Det3(Innovation(P)) >= 0.000001
    ensures !Singular(P)
  {
    hide Covariance;
    hide Det3;
    InnovationDet(P);
    assert R_ZUPT * (R_ZUPT * R_ZUPT) == 0.000001;
  }

  // ---- the correction ----

  /** V is the inverse of S, row by row. */
  ghost predicate InverseRow(S: Vec, V: Vec, a: nat)
    requires |S| == 9 && |V| == 9 && a < 3
  {
    && S[3 * a] * V[0] + S[3 * a + 1] * V[3] + S[3 * a + 2] * V[6] == (if a == 0 then 1.0 else 0.0)
    && S[3 * a] * V[1] + S[3 * a + 1] * V[4] + S[3 * a + 2] * V[7] == (if a == 1 then 1.0 else 0.0)
    && S[3 * a] * V[2] + S[3 * a + 1] * V[5] + S[3 * a + 2] * V[8] == (if a == 2 then 1.0 else 0.0)
  }

  /** Each row of a matrix expanded along the cofactors of its first row. */
  lemma Cofactors(a: real, b: real, c: real, d: real, e: real, f: real, g: real, h: real, i: real,
                  u: real, v: real, w: real, det: real, inv: real)
    requires u == (e * i - f * h) * inv && v == (f * g - d * i) * inv && w == (d * h - e * g) * inv
    requires det == a * (e * i - f * h) - b * (d * i - f * g) + c * (d * h - e * g) && det * inv == 1.0
    ensures a * u + b * v + c * w == 1.0 && d * u + e * v + f * w == 0.0 && g * u + h * v + i * w == 0.0
  {
    FactorOut(a, b, c, e * i - f * h, f * g - d * i, d * h - e * g, inv);
    FactorOut(d, e, f, e * i - f * h, f * g - d * i, d * h - e * g, inv);
    FactorOut(g, h, i, e * i - f * h, f * g - d * i, d * h - e * g, inv);
    assert a * (e * i - f * h) + b * (f * g - d * i) + c * (d * h - e * g) == det;
    assert d * (e * i - f * h) + e * (f * g - d * i) + f * (d * h - e * g) == 0.0;
    assert g * (e * i - f * h) + h * (f * g - d * i) + i * (d * h - e * g) == 0.0;
  }

  lemma FactorOut(a: real, b: real, c: real, u: real, v: real, w: real, inv: real)
    ensures a * (u * inv) + b * (v * inv) + c * (w * inv) == (a * u + b * v + c * w) * inv
  {
  }

  /** The determinant expanded along the second and the third row. */
  lemma DetRows(S: Vec)
    requires |S| == 9
    ensures Det3(S) == S[3] * (S[7] * S[2] - S[8] * S[1]) - S[4] * (S[6] * S[2] - S[8] * S[0]) + S[5] * (S[6] * S[1] - S[7] * S[0])
    ensures Det3(S) == S[6] * (S[1] * S[5] - S[2] * S[4]) - S[7] * (S[0] * S[5] - S[2] * S[3]) + S[8] * (S[0] * S[4] - S[1] * S[3])
  {
  }

  lemma InverseIs(S: Vec, inv: real)
    requires |S| == 9 && Det3(S) * inv == 1.0
    ensures var V := Inverse3(S, inv); InverseRow(S, V, 0) && InverseRow(S, V, 1) && InverseRow(S, V, 2)
  {
    InverseColumn0(S, inv);
    InverseColumn1(S, inv);
    InverseColumn2(S, inv);
    hide Inverse3;
    hide Det3;
  }

  lemma InverseColumn0(S: Vec, inv: real)
    requires |S| == 9 && Det3(S) * inv == 1.0
    ensures var V := Inverse3(S, inv);
            && S[0] * V[0] + S[1] * V[3] + S[2] * V[6] == 1.0
            && S[3] * V[0] + S[4] * V[3] + S[5] * V[6] == 0.0
            && S[6] * V[0] + S[7] * V[3] + S[8] * V[6] == 0.0
  {
    var V := Inverse3(S, inv);
    Cofactors(S[0], S[1], S[2], S[3], S[4], S[5], S[6], S[7], S[8], V[0], V[3], V[6], Det3(S), inv);
  }

  lemma InverseColumn1(S: Vec, inv: real)
    requires |S| == 9 && Det3(S) * inv == 1.0
    ensures var V := Inverse3(S, inv);
            && S[0] * V[1] + S[1] * V[4] + S[2] * V[7] == 0.0
            && S[3] * V[1] + S[4] * V[4] + S[5] * V[7] == 1.0
            && S[6] * V[1] + S[7] * V[4] + S[8] * V[7] == 0.0
  {
    DetRows(S);
    hide Det3;
    var V := Inverse3(S, inv);
    Cofactors(S[3], S[4], S[5], S[6], S[7], S[8], S[0], S[1], S[2], V[1], V[4], V[7], Det3(S), inv);
  }

  lemma InverseColumn2(S: Vec, inv: real)
    requires |S| == 9 && Det3(S) * inv == 1.0
    ensures var V := Inverse3(S, inv);
            && S[0] * V[2] + S[1] * V[5] + S[2] * V[8] == 0.0
            && S[3] * V[2] + S[4] * V[5] + S[5] * V[8] == 0.0
            && S[6] * V[2] + S[7] * V[5] + S[8] * V[8] == 1.0
  {
    DetRows(S);
    hide Det3;
    var V := Inverse3(S, inv);
    Cofactors(S[6], S[7], S[8], S[0], S[1], S[2], S[3], S[4], S[5], V[2], V[5], V[8], Det3(S), inv);
  }

  function Inner3(a: real, b: real, c: real, x: real, y: real, z: real): (r: real) {
    a * x + b * y + c * z
  }

  /** Row `i` of I - K H. */
  lemma RowIs(P: Mat, V: Vec, i: nat)
    requires IsMat(P, N, N) && |V| == 9 && i < N
    ensures IdentityMinusKH(P, V)[i] == Add(Unit(N, i), Spread(-Gain(P, V, i, 0), -Gain(P, V, i, 1), -Gain(P, V, i, 2)))
  {
    hide Gain;
  }

  lemma RowDot(P: Mat, V: Vec, i: nat, z: Vec)
    requires IsMat(P, N, N) && |V| == 9 && i < N && |z| == N
    ensures Dot(IdentityMinusKH(P, V)[i], z) ==
            z[i] - Inner3(Gain(P, V, i, 0), Gain(P, V, i, 1), Gain(P, V, i, 2), z[3], z[4], z[5])
  {
    RowIs(P, V, i);
    hide Gain;
    hide IdentityMinusKH;
    hide Dot;
    var w := Spread(-Gain(P, V, i, 0), -Gain(P, V, i, 1), -Gain(P, V, i, 2));
    DotAdd(Unit(N, i), w, z);
    DotUnit(i, z);
    DotSpread(-Gain(P, V, i, 0), -Gain(P, V, i, 1), -Gain(P, V, i, 2), z);
  }

  /** One entry of S^-1 H P x. */
  function Weight(V: Vec, b: nat, g0: real, g1: real, g2: real): (r: real)
    requires |V| == 9 && b < 3
  {
    V[3 * b] * g0 + V[3 * b + 1] * g1 + V[3 * b + 2] * g2
  }

  lemma GainOrWeight(P: Mat, V: Vec, i: nat, g0: real, g1: real, g2: real)
    requires IsMat(P, N, N) && |V| == 9 && i < N
    ensures Inner3(Gain(P, V, i, 0), Gain(P, V, i, 1), Gain(P, V, i, 2), g0, g1, g2) ==
            Inner3(Weight(V, 0, g0, g1, g2), Weight(V, 1, g0, g1, g2), Weight(V, 2, g0, g1, g2), P[i][3], P[i][4], P[i][5])
  {
  }

  /** The point at which P has the corrected form's value: x - H' S^-1 H P x. */
  function Shifted(P: Mat, V: Vec, x: Vec): (y: Vec)
    requires IsMat(P, N, N) && |V| == 9 && |x| == N
    ensures |y| == N
  {
    var z := MatVec(P, x);
    Add(x, Spread(-Weight(V, 0, z[3], z[4], z[5]), -Weight(V, 1, z[3], z[4], z[5]), -Weight(V, 2, z[3], z[4], z[5])))
  }

  /** A row of P at the shifted point. */
  lemma RowShifted(P: Mat, V: Vec, x: Vec, i: nat)
    requires IsMat(P, N, N) && |V| == 9 && |x| == N && i < N
    ensures var z := MatVec(P, x);
            Dot(P[i], Shifted(P, V, x)) ==
            z[i] - Inner3(Weight(V, 0, z[3], z[4], z[5]), Weight(V, 1, z[3], z[4], z[5]), Weight(V, 2, z[3], z[4], z[5]),
                          P[i][3], P[i][4], P[i][5])
  {
    var z := MatVec(P, x);
    var w0, w1, w2 := Weight(V, 0, z[3], z[4], z[5]), Weight(V, 1, z[3], z[4], z[5]), Weight(V, 2, z[3], z[4], z[5]);
    hide Dot;
    hide Weight;
    DotSymmetric(P[i], Shifted(P, V, x));
    DotAdd(x, Spread(-w0, -w1, -w2), P[i]);
    DotSymmetric(x, P[i]);
    DotSpread(-w0, -w1, -w2, P[i]);
  }

  lemma CorrectedRow(P: Mat, V: Vec, x: Vec, i: nat)
    requires IsMat(P, N, N) && |V| == 9 && |x| == N && i < N
    ensures Dot(MatMul(IdentityMinusKH(P, V), P, N)[i], x) == Dot(P[i], Shifted(P, V, x))
  {
    hide *;
    var A := IdentityMinusKH(P, V);
    RowLengths(A, P, i);
    var z := MatVec(P, x);
    MulRow(A, P, i);
    Adjoint(A[i], P, x, N);
    DotWhole(A[i], z);
    RowDot(P, V, i, z);
    RowShifted(P, V, x, i);
    GainOrWeight(P, V, i, z[3], z[4], z[5]);
  }

  lemma RowLengths(A: Mat, P: Mat, i: nat)
    requires IsMat(A, N, N) && IsMat(P, N, N) && i < N
    ensures |A[i]| == |A| == |P| == N == 9 && forall k :: 0 <= k < |P| ==> |P[k]| == N
  {
  }

  /** Applying (I - K H) P is applying P at the shifted point. */
  lemma CorrectedApplied(P: Mat, V: Vec, x: Vec)
    requires IsMat(P, N, N) && |V| == 9 && |x| == N
    ensures MatVec(MatMul(IdentityMinusKH(P, V), P, N), x) == MatVec(P, Shifted(P, V, x))
  {
    hide Dot;
    hide MatMul;
    hide IdentityMinusKH;
    hide Shifted;
    var R := MatMul(IdentityMinusKH(P, V), P, N);
    forall i | 0 <= i < N ensures MatVec(R, x)[i] == MatVec(P, Shifted(P, V, x))[i] { CorrectedRow(P, V, x, i); }
  }

  lemma DotWhole(u: Vec, v: Vec)
    requires |u| == |v| == N
    ensures Dot(u, v) == DotTo(u, v, N)
  {
  }

  lemma SolveRow(s0: real, s1: real, s2: real, V: Vec, g0: real, g1: real, g2: real, e0: real, e1: real, e2: real)
    requires |V| == 9
    requires s0 * V[0] + s1 * V[3] + s2 * V[6] == e0
    requires s0 * V[1] + s1 * V[4] + s2 * V[7] == e1
    requires s0 * V[2] + s1 * V[5] + s2 * V[8] == e2
    ensures s0 * Weight(V, 0, g0, g1, g2) + s1 * Weight(V, 1, g0, g1, g2) + s2 * Weight(V, 2, g0, g1, g2) ==
            e0 * g0 + e1 * g1 + e2 * g2
  {
    Regroup(s0, s1, s2, V[0], V[1], V[2], V[3], V[4], V[5], V[6], V[7], V[8], g0, g1, g2);
  }

  lemma Regroup(s0: real, s1: real, s2: real, a: real, b: real, c: real, d: real, e: real, f: real, g: real, h: real, i: real,
                g0: real, g1: real, g2: real)
    ensures s0 * (a * g0 + b * g1 + c * g2) + s1 * (d * g0 + e * g1 + f * g2) + s2 * (g * g0 + h * g1 + i * g2) ==
            (s0 * a + s1 * d + s2 * g) * g0 + (s0 * b + s1 * e + s2 * h) * g1 + (s0 * c + s1 * f + s2 * i) * g2
  {
  }

  /** V is the inverse of the innovation covariance of P. */
  ghost predicate Inverts(P: Mat, V: Vec) {
    && IsMat(P, N, N) && |V| == 9
    && InverseRow(Innovation(P), V, 0) && InverseRow(Innovation(P), V, 1) && InverseRow(Innovation(P), V, 2)
  }

  lemma InnovationRow(P: Mat, a: nat, w0: real, w1: real, w2: real)
    requires IsMat(P, N, N) && a < 3
    ensures var S := Innovation(P);
            w0 * P[3 + a][3] + w1 * P[3 + a][4] + w2 * P[3 + a][5] ==
            S[3 * a] * w0 + S[3 * a + 1] * w1 + S[3 * a + 2] * w2 - R_ZUPT * (if a == 0 then w0 else if a == 1 then w1 else w2)
  {
  }

  lemma RowSolved(S: Vec, V: Vec, a: nat, g0: real, g1: real, g2: real)
    requires |S| == 9 && |V| == 9 && a < 3 && InverseRow(S, V, a)
    ensures S[3 * a] * Weight(V, 0, g0, g1, g2) + S[3 * a + 1] * Weight(V, 1, g0, g1, g2) + S[3 * a + 2] * Weight(V, 2, g0, g1, g2)
            == if a == 0 then g0 else if a == 1 then g1 else g2
  {
    hide Weight;
    SolveRow(S[3 * a], S[3 * a + 1], S[3 * a + 2], V, g0, g1, g2,
             if a == 0 then 1.0 else 0.0, if a == 1 then 1.0 else 0.0, if a == 2 then 1.0 else 0.0);
  }

  lemma InnovationSolved(P: Mat, V: Vec, a: nat, g0: real, g1: real, g2: real)
    requires Inverts(P, V) && a < 3
    ensures var S := Innovation(P);
            S[3 * a] * Weight(V, 0, g0, g1, g2) + S[3 * a + 1] * Weight(V, 1, g0, g1, g2) + S[3 * a + 2] * Weight(V, 2, g0, g1, g2)
            == if a == 0 then g0 else if a == 1 then g1 else g2
  {
    assert InverseRow(Innovation(P), V, a);
    hide *;
    RowSolved(Innovation(P), V, a, g0, g1, g2);
  }

  /** The velocity entries of P at the shifted point. */
  lemma ShiftedVelocity(P: Mat, V: Vec, x: Vec, a: nat)
    requires Inverts(P, V) && |x| == N && a < 3
    ensures var z := MatVec(P, x);
            MatVec(P, Shifted(P, V, x))[3 + a] == R_ZUPT * Weight(V, a, z[3], z[4], z[5])
  {
    hide Dot;
    hide Weight;
    hide Innovation;
    hide Shifted;
    hide InverseRow;
    var z := MatVec(P, x);
    RowShifted(P, V, x, 3 + a);
    InnovationSolved(P, V, a, z[3], z[4], z[5]);
    InnovationRow(P, a, Weight(V, 0, z[3], z[4], z[5]), Weight(V, 1, z[3], z[4], z[5]), Weight(V, 2, z[3], z[4], z[5]));
  }

  lemma ShiftedBack(P: Mat, V: Vec, x: Vec)
    requires IsMat(P, N, N) && |V| == 9 && |x| == N
    ensures var z := MatVec(P, x);
            x == Add(Shifted(P, V, x), Spread(Weight(V, 0, z[3], z[4], z[5]), Weight(V, 1, z[3], z[4], z[5]), Weight(V, 2, z[3], z[4], z[5])))
  {
    hide Dot;
    hide Weight;
  }

  /** x'((I - K H) P)x is y'Py + r|w|^2: a form of P plus squares. */
  lemma CorrectedQuad(P: Mat, V: Vec, x: Vec)
    requires Inverts(P, V) && |x| == N
    ensures var z := MatVec(P, x);
            var w0, w1, w2 := Weight(V, 0, z[3], z[4], z[5]), Weight(V, 1, z[3], z[4], z[5]), Weight(V, 2, z[3], z[4], z[5]);
            Quad(MatMul(IdentityMinusKH(P, V), P, N), x) == Quad(P, Shifted(P, V, x)) + R_ZUPT * (w0 * w0 + w1 * w1 + w2 * w2)
  {
    var z := MatVec(P, x);
    var y := Shifted(P, V, x);
    var w0, w1, w2 := Weight(V, 0, z[3], z[4], z[5]), Weight(V, 1, z[3], z[4], z[5]), Weight(V, 2, z[3], z[4], z[5]);
    ShiftedVelocity(P, V, x, 0);
    ShiftedVelocity(P, V, x, 1);
    ShiftedVelocity(P, V, x, 2);
    CorrectedApplied(P, V, x);
    ShiftedBack(P, V, x);
    var t := MatVec(P, y);
    DotAdd(y, Spread(w0, w1, w2), t);
    DotSpread(w0, w1, w2, t);
    hide Dot;
    hide MatVec;
    hide MatMul;
    hide IdentityMinusKH;
    hide Shifted;
    hide Spread;
    hide Weight;
    hide Inverts;
    Squares(w0, w1, w2);
  }

  lemma Squares(a: real, b: real, c: real)
    ensures a * (R_ZUPT * a) + b * (R_ZUPT * b) + c * (R_ZUPT * c) == R_ZUPT * (a * a + b * b + c * c) >= 0.0
  {
  }

  lemma SymmetricCol(P: Mat, j: nat)
    requires IsMat(P, N, N) && Symmetric(P) && j < N
    ensures Col(P, j) == P[j]
  {
  }

  lemma MulEntry(A: Mat, B: Mat, i: nat, j: nat)
    requires IsMat(A, N, N) && IsMat(B, N, N) && i < N && j < N
    ensures MatMul(A, B, N)[i][j] == Dot(A[i], Col(B, j))
  {
    hide Dot;
  }

  lemma CorrectedEntry(P: Mat, V: Vec, i: nat, j: nat)
    requires IsMat(P, N, N) && Symmetric(P) && |V| == 9 && i < N && j < N
    ensures MatMul(IdentityMinusKH(P, V), P, N)[i][j] ==
            P[i][j] - Inner3(Gain(P, V, i, 0), Gain(P, V, i, 1), Gain(P, V, i, 2), P[j][3], P[j][4], P[j][5])
  {
    assert P[i][j] == P[j][i];
    RowLengths(P, P, j);
    hide *;
    MulEntry(IdentityMinusKH(P, V), P, i, j);
    SymmetricCol(P, j);
    RowDot(P, V, i, P[j]);
  }

  lemma GainSymmetric(p3: real, p4: real, p5: real, r3: real, r4: real, r5: real, V: Vec)
    requires |V| == 9 && V[1] == V[3] && V[2] == V[6] && V[5] == V[7]
    ensures (p3 * V[0] + p4 * V[3] + p5 * V[6]) * r3 + (p3 * V[1] + p4 * V[4] + p5 * V[7]) * r4 + (p3 * V[2] + p4 * V[5] + p5 * V[8]) * r5 ==
            (r3 * V[0] + r4 * V[3] + r5 * V[6]) * p3 + (r3 * V[1] + r4 * V[4] + r5 * V[7]) * p4 + (r3 * V[2] + r4 * V[5] + r5 * V[8]) * p5
  {
    SymmetricForm(p3, p4, p5, r3, r4, r5, V[0], V[1], V[2], V[4], V[5], V[8]);
  }

  lemma SymmetricForm(p3: real, p4: real, p5: real, r3: real, r4: real, r5: real, a: real, b: real, c: real, d: real, e: real, f: real)
    ensures (p3 * a + p4 * b + p5 * c) * r3 + (p3 * b + p4 * d + p5 * e) * r4 + (p3 * c + p4 * e + p5 * f) * r5 ==
            (r3 * a + r4 * b + r5 * c) * p3 + (r3 * b + r4 * d + r5 * e) * p4 + (r3 * c + r4 * e + r5 * f) * p5
  {
  }

  lemma InverseSymmetric(S: Vec, inv: real)
    requires |S| == 9 && S[3] == S[1] && S[6] == S[2] && S[7] == S[5]
    ensures var V := Inverse3(S, inv); V[1] == V[3] && V[2] == V[6] && V[5] == V[7]
  {
  }

  lemma GainProducts(P: Mat, V: Vec, i: nat, j: nat)
    requires IsMat(P, N, N) && |V| == 9 && i < N && j < N && V[1] == V[3] && V[2] == V[6] && V[5] == V[7]
    ensures Inner3(Gain(P, V, i, 0), Gain(P, V, i, 1), Gain(P, V, i, 2), P[j][3], P[j][4], P[j][5]) ==
            Inner3(Gain(P, V, j, 0), Gain(P, V, j, 1), Gain(P, V, j, 2), P[i][3], P[i][4], P[i][5])
  {
    GainSymmetric(P[i][3], P[i][4], P[i][5], P[j][3], P[j][4], P[j][5], V);
  }

  lemma CorrectedSymmetric(P: Mat, V: Vec)
    requires IsMat(P, N, N) && Symmetric(P) && |V| == 9 && V[1] == V[3] && V[2] == V[6] && V[5] == V[7]
    ensures Symmetric(MatMul(IdentityMinusKH(P, V), P, N))
  {
    var R := MatMul(IdentityMinusKH(P, V), P, N);
    hide MatMul;
    hide Gain;
    hide IdentityMinusKH;
    forall i, j | 0 <= i < N && 0 <= j < N ensures R[i][j] == R[j][i] { CorrectedPair(P, V, i, j); }
  }

  lemma CorrectedPair(P: Mat, V: Vec, i: nat, j: nat)
    requires IsMat(P, N, N) && Symmetric(P) && |V| == 9 && V[1] == V[3] && V[2] == V[6] && V[5] == V[7] && i < N && j < N
    ensures var R := MatMul(IdentityMinusKH(P, V), P, N); R[i][j] == R[j][i]
  {
    assert P[i][j] == P[j][i];
    RowLengths(P, P, i);
    RowLengths(P, P, j);
    hide *;
    CorrectedEntry(P, V, i, j);
    CorrectedEntry(P, V, j, i);
    GainProducts(P, V, i, j);
  }

  lemma IsInverse(P: Mat, V: Vec)
    requires Inverts(P, V)
    ensures |V| == 9
  {
  }

  lemma MakeSemidefinite(R: Mat)
    requires IsMat(R, N, N) && forall x: Vec :: |x| == N ==> Quad(R, x) >= 0.0
    ensures Semidefinite(R)
  {
    hide Quad;
  }

  lemma CorrectedSemidefinite(P: Mat, V: Vec)
    requires Covariance(P, N) && Inverts(P, V)
    ensures IsMat(P, N, N) && Semidefinite(MatMul(IdentityMinusKH(P, V), P, N))
  {
    hide *;
    IsCovariance(P);
    IsInverse(P, V);
    var R := MatMul(IdentityMinusKH(P, V), P, N);
    forall x: Vec | |x| == N ensures Quad(R, x) >= 0.0 { CorrectedNonnegative(P, V, x); }
    MakeSemidefinite(R);
  }

  lemma CorrectedNonnegative(P: Mat, V: Vec, x: Vec)
    requires Covariance(P, N) && Inverts(P, V) && |x| == N
    ensures IsMat(P, N, N) && Quad(MatMul(IdentityMinusKH(P, V), P, N), x) >= 0.0
  {
    hide Covariance;
    IsCovariance(P);
    var z := MatVec(P, x);
    hide *;
    CorrectedQuad(P, V, x);
    QuadNonnegative(P, Shifted(P, V, x));
    Squares(Weight(V, 0, z[3], z[4], z[5]), Weight(V, 1, z[3], z[4], z[5]), Weight(V, 2, z[3], z[4], z[5]));
  }

  lemma Reciprocal(d: real)
    requires d > 0.0
    ensures d * (1.0 / d) == 1.0
  {
  }

  lemma GainInverts(P: Mat)
    requires Covariance(P, N)
    ensures IsMat(P, N, N) && Det3(Innovation(P)) > 0.0
    ensures var V := Inverse3(Innovation(P), 1.0 / Det3(Innovation(P)));
            Inverts(P, V) && V[1] == V[3] && V[2] == V[6] && V[5] == V[7]
  {
    hide *;
    IsCovariance(P);
    NeverSingular(P);
    InnovationSymmetric(P);
    var S := Innovation(P);
    Reciprocal(Det3(S));
    InverseIs(S, 1.0 / Det3(S));
    InverseSymmetric(S, 1.0 / Det3(S));
    MakeInverts(P, Inverse3(S, 1.0 / Det3(S)));
  }

  lemma MakeInverts(P: Mat, V: Vec)
    requires IsMat(P, N, N) && |V| == 9
    requires InverseRow(Innovation(P), V, 0) && InverseRow(Innovation(P), V, 1) && InverseRow(Innovation(P), V, 2)
    ensures Inverts(P, V)
  {
  }

  /** The zero-velocity correction keeps the covariance symmetric and positive semidefinite. */
  lemma CorrectionKeeps(P: Mat)
    requires Covariance(P, N)
    ensures IsMat(P, N, N) && Covariance(Corrected(P), N)
  {
    hide *;
    IsCovariance(P);
    NeverSingular(P);
    GainInverts(P);
    var V := Inverse3(Innovation(P), 1.0 / Det3(Innovation(P)));
    CovarianceSymmetric(P);
    CorrectedSymmetric(P, V);
    CorrectedSemidefinite(P, V);
    MakeCovariance(MatMul(IdentityMinusKH(P, V), P, N));
    CorrectedIs(P);
  }

  lemma CovarianceSymmetric(P: Mat)
    requires Covariance(P, N)
    ensures IsMat(P, N, N) && Symmetric(P)
  {
  }

  lemma MakeCovariance(P: Mat)
    requires IsMat(P, N, N) && Symmetric(P) && Semidefinite(P)
    ensures Covariance(P, N)
  {
  }

  lemma CorrectedIs(P: Mat)
    requires IsMat(P, N, N) && !Singular(P) && Det3(Innovation(P)) > 0.0
    ensures Corrected(P) == MatMul(IdentityMinusKH(P, Inverse3(Innovation(P), 1.0 / Det3(Innovation(P)))), P, N)
  {
    hide Singular;
    hide Det3;
    hide MatMul;
    hide IdentityMinusKH;
  }

  // ---- whole runs ----

  const INITIAL: Vec := [1.0, 1.0, 1.0, 0.01, 0.01, 0.01, 0.001, 0.001, 0.001]

  /** One update: was it taken for standing still, the time step, the acceleration in the world
      frame and the noise settings. */
  datatype Sample = Sample(still: bool, dt: real, ax: real, ay: real, az: real, sigmaA: real, sigmaG: real)

  function Updated(P: Mat, u: Sample): (R: Mat)
    requires IsMat(P, N, N)
    ensures IsMat(R, N, N)
  {
    Predicted(if u.still then Corrected(P) else P, Transition(u.dt, u.ax, u.ay, u.az), Noise(u.dt, u.sigmaA, u.sigmaG))
  }

  function After(us: seq<Sample>): (P: Mat)
    ensures IsMat(P, N, N)
  {
    if |us| == 0 then Diagonal(INITIAL) else Updated(After(us[..|us| - 1]), us[|us| - 1])
  }

  lemma UpdatedIs(P: Mat, u: Sample)
    requires IsMat(P, N, N)
    ensures Updated(P, u) ==
            Predicted(if u.still then Corrected(P) else P, Transition(u.dt, u.ax, u.ay, u.az), Noise(u.dt, u.sigmaA, u.sigmaG))
  {
  }

  lemma UpdateKeeps(P: Mat, u: Sample)
    requires Covariance(P, N) && u.dt > 0.0
    ensures IsMat(P, N, N) && Covariance(Updated(P, u), N)
  {
    hide *;
    IsCovariance(P);
    UpdatedIs(P, u);
    NoiseNonnegative(u.dt, u.sigmaA, u.sigmaG);
    if u.still { CorrectionKeeps(P); }
    PredictionKeeps(if u.still then Corrected(P) else P, Transition(u.dt, u.ax, u.ay, u.az), Noise(u.dt, u.sigmaA, u.sigmaG));
  }

  lemma InitialKeeps()
    ensures Covariance(Diagonal(INITIAL), N)
  {
    hide Covariance;
    hide Diagonal;
    DiagonalCovariance(INITIAL);
  }

  /** Over every run of updates from creation the covariance is symmetric and positive
      semidefinite; so the innovation determinant is at least 1e-6 at every update, and the
      zero-velocity correction is never skipped as singular. */
  lemma {:induction false} RunKeeps(us: seq<Sample>)
    requires forall u :: u in us ==> u.dt > 0.0
    ensures Covariance(After(us), N)
    ensures Det3(Innovation(After(us))) >= 0.000001 && !Singular(After(us))
    decreases |us|
  {
    hide Covariance;
    hide Updated;
    hide Diagonal;
    hide Det3;
    hide Singular;
    hide Innovation;
    if |us| == 0 {
      InitialKeeps();
    } else {
      RunKeeps(us[..|us| - 1]);
      UpdateKeeps(After(us[..|us| - 1]), us[|us| - 1]);
    }
    NeverSingular(After(us));
  }
}
