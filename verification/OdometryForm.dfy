/** The covariance after each step as a quadratic form, written out. */
module OdometryForm {
  import opened LinearAlgebra
  import opened OdometryCovariance

  /** The transposed transition on an error of position, velocity and attitude: velocity entries take in
      dt times the position entries, attitude entries dt times the cross product of velocity
      entries and acceleration. */
  function Back(dt: real, ax: real, ay: real, az: real, x: Vec): (y: Vec)
    requires |x| == 9
    ensures |y| == 9
  {
    [x[0], x[1], x[2],
     x[3] + dt * x[0], x[4] + dt * x[1], x[5] + dt * x[2],
     x[6] + -(az * dt) * x[4] + ay * dt * x[5],
     x[7] + az * dt * x[3] + -(ax * dt) * x[5],
     x[8] + -(ay * dt) * x[3] + ax * dt * x[4]]
  }

  /** What process noise adds to the form: accelerometer noise on the velocity, gyroscope noise on the attitude,
      both growing with time, and nothing on the position. */
  function NoiseForm(dt: real, sigmaA: real, sigmaG: real, x: Vec): (r: real)
    requires |x| == 9
  {
    dt * (sigmaA * sigmaA * (x[3] * x[3] + x[4] * x[4] + x[5] * x[5]) + sigmaG * sigmaG * (x[6] * x[6] + x[7] * x[7] + x[8] * x[8]))
  }

  lemma ColumnDot(F: Mat, j: nat, p: real, a: nat, q: real, b: nat, x: Vec)
    requires IsMat(F, N, N) && |x| == N && j < N && a < N && b < N
    requires forall i :: 0 <= i < N ==> F[i][j] == (if i == j then 1.0 else 0.0) + (if i == a then p else 0.0) + if i == b then q else 0.0
    ensures Combine(x, F, N, N)[j] == x[j] + p * x[a] + q * x[b]
  {
    CombineEntry(x, F, N, N, j);
    var col := Col(F, j);
    hide Dot;
    hide Combine;
    SparseRow(col, j, p, a, q, b, x);
    DotSymmetric(x, col);
  }

  /** The two entries of column `j` of the transition beside its one on the diagonal. */
  function FirstEntry(dt: real, ax: real, ay: real, az: real, j: nat): (e: (real, nat))
    ensures e.1 < N
  {
    if 3 <= j < 6 then (dt, j - 3)
    else if j == 6 then (-(az * dt), 4)
    else if j == 7 then (az * dt, 3)
    else if j == 8 then (-(ay * dt), 3)
    else (0.0, 0)
  }

  function SecondEntry(dt: real, ax: real, ay: real, j: nat): (e: (real, nat))
    ensures e.1 < N
  {
    if j == 6 then (ay * dt, 5) else if j == 7 then (-(ax * dt), 5) else if j == 8 then (ax * dt, 4) else (0.0, 0)
  }

  lemma Column(dt: real, ax: real, ay: real, az: real, j: nat)
    requires j < N
    ensures var F, e, g := Transition(dt, ax, ay, az), FirstEntry(dt, ax, ay, az, j), SecondEntry(dt, ax, ay, j);
            forall i :: 0 <= i < N ==>
              F[i][j] == (if i == j then 1.0 else 0.0) + (if i == e.1 then e.0 else 0.0) + if i == g.1 then g.0 else 0.0
  {
  }

  lemma BackAt(dt: real, ax: real, ay: real, az: real, x: Vec, j: nat)
    requires |x| == N && j < N
    ensures var e, g := FirstEntry(dt, ax, ay, az, j), SecondEntry(dt, ax, ay, j);
            Back(dt, ax, ay, az, x)[j] == x[j] + e.0 * x[e.1] + g.0 * x[g.1]
  {
    var b := Back(dt, ax, ay, az, x);
    if j < 3 {
      assert b[j] == x[j];
    } else if j < 6 {
      assert b[j] == x[j] + dt * x[j - 3];
    } else if j == 6 {
    } else if j == 7 {
    } else {
      assert j == 8;
    }
  }

  lemma BackEntry(dt: real, ax: real, ay: real, az: real, x: Vec, j: nat)
    requires |x| == N && j < N
    ensures Combine(x, Transition(dt, ax, ay, az), N, N)[j] == Back(dt, ax, ay, az, x)[j]
  {
    hide *;
    var e, g := FirstEntry(dt, ax, ay, az, j), SecondEntry(dt, ax, ay, j);
    Column(dt, ax, ay, az, j);
    BackAt(dt, ax, ay, az, x, j);
    ColumnDot(Transition(dt, ax, ay, az), j, e.0, e.1, g.0, g.1, x);
  }

  lemma BackIs(dt: real, ax: real, ay: real, az: real, x: Vec)
    requires |x| == N
    ensures Combine(x, Transition(dt, ax, ay, az), N, N) == Back(dt, ax, ay, az, x)
  {
    hide *;
    Nine();
    RowLengths(Transition(dt, ax, ay, az), Transition(dt, ax, ay, az), 0);
    var b, c := Back(dt, ax, ay, az, x), Combine(x, Transition(dt, ax, ay, az), N, N);
    forall j: nat | j < N ensures c[j] == b[j] { BackEntry(dt, ax, ay, az, x, j); }
  }

  lemma NoiseIs(dt: real, sigmaA: real, sigmaG: real, x: Vec)
    requires |x| == N
    ensures Square(x, Noise(dt, sigmaA, sigmaG), N) == NoiseForm(dt, sigmaA, sigmaG, x)
  {
    var q := Noise(dt, sigmaA, sigmaG);
    var qa, qg := sigmaA * sigmaA * dt, sigmaG * sigmaG * dt;
    NineSquares(x, q);
    Collect(dt, sigmaA * sigmaA, sigmaG * sigmaG, x[3] * x[3], x[4] * x[4], x[5] * x[5], x[6] * x[6], x[7] * x[7], x[8] * x[8]);
    hide Square;
  }

  lemma NineSquares(x: Vec, q: Vec)
    requires |x| == |q| == N && q[0] == q[1] == q[2] == 0.0
    ensures Square(x, q, N) == q[3] * (x[3] * x[3]) + q[4] * (x[4] * x[4]) + q[5] * (x[5] * x[5])
                               + q[6] * (x[6] * x[6]) + q[7] * (x[7] * x[7]) + q[8] * (x[8] * x[8])
  {
    assert Square(x, q, 0) == 0.0;
    SquareStep(x, q, 0);
    SquareStep(x, q, 1);
    SquareStep(x, q, 2);
    SquareStep(x, q, 3);
    SquareStep(x, q, 4);
    SquareStep(x, q, 5);
    SquareStep(x, q, 6);
    SquareStep(x, q, 7);
    SquareStep(x, q, 8);
    hide Square;
  }

  lemma SquareStep(x: Vec, q: Vec, k: nat)
    requires k < |x| && k < |q|
    ensures Square(x, q, k + 1) == Square(x, q, k) + q[k] * (x[k] * x[k])
    ensures q[k] == 0.0 ==> Square(x, q, k + 1) == Square(x, q, k)
  {
  }

  lemma Collect(dt: real, sa: real, sg: real, a: real, b: real, c: real, d: real, e: real, f: real)
    ensures sa * dt * a + sa * dt * b + sa * dt * c + sg * dt * d + sg * dt * e + sg * dt * f ==
            dt * (sa * (a + b + c) + sg * (d + e + f))
  {
  }

  /** The predicted covariance at any point: its form is that of P at the point carried back, plus the
      process noise in the velocity and attitude directions. */
  lemma PredictedForm(P: Mat, dt: real, ax: real, ay: real, az: real, sigmaA: real, sigmaG: real, x: Vec)
    requires IsMat(P, N, N) && |x| == N
    ensures Quad(Predicted(P, Transition(dt, ax, ay, az), Noise(dt, sigmaA, sigmaG)), x) ==
            Quad(P, Back(dt, ax, ay, az, x)) + NoiseForm(dt, sigmaA, sigmaG, x)
  {
    hide *;
    PredictedQuad(P, Transition(dt, ax, ay, az), Noise(dt, sigmaA, sigmaG), x);
    BackIs(dt, ax, ay, az, x);
    NoiseIs(dt, sigmaA, sigmaG, x);
  }

  /** R is P after the transition, with the noise of the step. */
  ghost predicate Propagated(P: Mat, R: Mat, dt: real, ax: real, ay: real, az: real, sigmaA: real, sigmaG: real)
    requires IsMat(P, N, N) && IsMat(R, N, N)
  {
    forall x: Vec :: |x| == N ==> Quad(R, x) == Quad(P, Back(dt, ax, ay, az, x)) + NoiseForm(dt, sigmaA, sigmaG, x)
  }

  lemma PredictedPropagated(P: Mat, dt: real, ax: real, ay: real, az: real, sigmaA: real, sigmaG: real)
    requires IsMat(P, N, N)
    ensures Propagated(P, Predicted(P, Transition(dt, ax, ay, az), Noise(dt, sigmaA, sigmaG)), dt, ax, ay, az, sigmaA, sigmaG)
  {
    hide Predicted;
    hide Transition;
    hide Noise;
    hide NoiseForm;
    hide Quad;
    hide Back;
    forall x: Vec | |x| == N
      ensures Quad(Predicted(P, Transition(dt, ax, ay, az), Noise(dt, sigmaA, sigmaG)), x) ==
              Quad(P, Back(dt, ax, ay, az, x)) + NoiseForm(dt, sigmaA, sigmaG, x)
    {
      PredictedForm(P, dt, ax, ay, az, sigmaA, sigmaG, x);
    }
  }

  // ---- correction, then prediction ----

  /** The zero-velocity correction at any point x: split x into y and a velocity residual w such that
      the velocity rows of P y are 0.01 w; the corrected form is that of P at y plus 0.01 |w|^2. */
  lemma CorrectedForm(P: Mat, x: Vec) returns (y: Vec, w0: real, w1: real, w2: real)
    requires Covariance(P, N) && |x| == N
    ensures IsMat(P, N, N) && |y| == N && x == Add(y, Spread(w0, w1, w2))
    ensures MatVec(P, y)[3] == 0.01 * w0 && MatVec(P, y)[4] == 0.01 * w1 && MatVec(P, y)[5] == 0.01 * w2
    ensures Quad(Corrected(P), x) == Quad(P, y) + 0.01 * (w0 * w0 + w1 * w1 + w2 * w2)
  {
    hide *;
    IsCovariance(P);
    Nine();
    RowLengths(P, P, 0);
    NeverSingular(P);
    GainInverts(P);
    var V := Inverse3(Innovation(P), 1.0 / Det3(Innovation(P)));
    CorrectedIs(P);
    var z := MatVec(P, x);
    y := Shifted(P, V, x);
    w0, w1, w2 := Weight(V, 0, z[3], z[4], z[5]), Weight(V, 1, z[3], z[4], z[5]), Weight(V, 2, z[3], z[4], z[5]);
    CorrectedAt(P, V, x, z, y, w0, w1, w2);
  }

  lemma CorrectedAt(P: Mat, V: Vec, x: Vec, z: Vec, y: Vec, w0: real, w1: real, w2: real)
    requires Inverts(P, V) && IsMat(P, N, N) && |V| == 9 && |x| == N && |z| == N && z == MatVec(P, x) && y == Shifted(P, V, x)
    requires w0 == Weight(V, 0, z[3], z[4], z[5]) && w1 == Weight(V, 1, z[3], z[4], z[5]) && w2 == Weight(V, 2, z[3], z[4], z[5])
    ensures |y| == N && x == Add(y, Spread(w0, w1, w2))
    ensures MatVec(P, y)[3] == 0.01 * w0 && MatVec(P, y)[4] == 0.01 * w1 && MatVec(P, y)[5] == 0.01 * w2
    ensures Quad(MatMul(IdentityMinusKH(P, V), P, N), x) == Quad(P, y) + 0.01 * (w0 * w0 + w1 * w1 + w2 * w2)
  {
    hide *;
    CorrectedQuad(P, V, x);
    ShiftedBack(P, V, x);
    ShiftedVelocity(P, V, x, 0);
    ShiftedVelocity(P, V, x, 1);
    ShiftedVelocity(P, V, x, 2);
    MeasurementNoise();
  }

  lemma MeasurementNoise()
    ensures R_ZUPT == 0.01
  {
  }

  lemma Nine()
    ensures N == 9
  {
  }

  /** The correction never adds uncertainty in any direction. */
  lemma CorrectedBelow(P: Mat, x: Vec)
    requires Covariance(P, N) && |x| == N
    ensures IsMat(P, N, N) && Quad(Corrected(P), x) <= Quad(P, x)
  {
    hide *;
    Nine();
    IsCovariance(P);
    var y, w0, w1, w2 := CorrectedForm(P, x);
    CovarianceSymmetric(P);
    QuadSum(P, y, Spread(w0, w1, w2));
    DotSpread(w0, w1, w2, MatVec(P, y));
    QuadNonnegative(P, Spread(w0, w1, w2));
    Grown(w0, w1, w2);
  }

  lemma Grown(a: real, b: real, c: real)
    ensures a * (0.01 * a) + b * (0.01 * b) + c * (0.01 * c) == 0.01 * (a * a + b * b + c * c) >= 0.0
  {
  }

  /** The form of a symmetric matrix at a sum. */
  lemma QuadSum(P: Mat, y: Vec, h: Vec)
    requires IsMat(P, N, N) && Symmetric(P) && |y| == |h| == N
    ensures Quad(P, Add(y, h)) == Quad(P, y) + 2.0 * Dot(h, MatVec(P, y)) + Quad(P, h)
  {
    var s, py, ph := Add(y, h), MatVec(P, y), MatVec(P, h);
    forall i | 0 <= i < N ensures MatVec(P, s)[i] == Add(py, ph)[i] {
      DotSymmetric(P[i], s);
      DotAdd(y, h, P[i]);
      DotSymmetric(P[i], y);
      DotSymmetric(P[i], h);
    }
    assert MatVec(P, s) == Add(py, ph);
    SelfAdjoint(P, y, h);
    hide Dot;
    hide MatVec;
    DotAdd(y, h, Add(py, ph));
    DotSymmetric(y, Add(py, ph));
    DotAdd(py, ph, y);
    DotSymmetric(py, y);
    DotSymmetric(ph, y);
    DotSymmetric(h, Add(py, ph));
    DotAdd(py, ph, h);
    DotSymmetric(py, h);
    DotSymmetric(ph, h);
  }

  /** One update of a covariance at any point: carried back by the transition, through the correction if
      it stood still, with the process noise of the step on top. */
  lemma UpdatedForm(P: Mat, u: Sample, x: Vec) returns (y: Vec, w0: real, w1: real, w2: real)
    requires Covariance(P, N) && |x| == N
    ensures IsMat(P, N, N) && |y| == N && Back(u.dt, u.ax, u.ay, u.az, x) == Add(y, Spread(w0, w1, w2))
    ensures if u.still then MatVec(P, y)[3] == 0.01 * w0 && MatVec(P, y)[4] == 0.01 * w1 && MatVec(P, y)[5] == 0.01 * w2
            else w0 == w1 == w2 == 0.0
    ensures Quad(Updated(P, u), x) ==
            Quad(P, y) + 0.01 * (w0 * w0 + w1 * w1 + w2 * w2) + NoiseForm(u.dt, u.sigmaA, u.sigmaG, x)
  {
    hide *;
    Nine();
    IsCovariance(P);
    UpdatedIs(P, u);
    var b := Back(u.dt, u.ax, u.ay, u.az, x);
    if u.still {
      PredictedForm(Corrected(P), u.dt, u.ax, u.ay, u.az, u.sigmaA, u.sigmaG, x);
      y, w0, w1, w2 := CorrectedForm(P, b);
    } else {
      PredictedForm(P, u.dt, u.ax, u.ay, u.az, u.sigmaA, u.sigmaG, x);
      y, w0, w1, w2 := b, 0.0, 0.0, 0.0;
      NothingAdded(b);
    }
  }

  lemma NothingAdded(b: Vec)
    requires |b| == N
    ensures b == Add(b, Spread(0.0, 0.0, 0.0))
  {
  }

  /** At creation the variances are 1 for the position, 0.01 for the velocity, 0.001 for the attitude. */
  lemma InitialForm(x: Vec)
    requires |x| == N
    ensures Quad(After([]), x) == x[0] * x[0] + x[1] * x[1] + x[2] * x[2] + 0.01 * (x[3] * x[3] + x[4] * x[4] + x[5] * x[5])
                                  + 0.001 * (x[6] * x[6] + x[7] * x[7] + x[8] * x[8])
  {
    DiagonalTimes(INITIAL, x);
    DotTimes(x, INITIAL, N);
    assert Square(x, INITIAL, 0) == 0.0;
    SquareStep(x, INITIAL, 0);
    SquareStep(x, INITIAL, 1);
    SquareStep(x, INITIAL, 2);
    SquareStep(x, INITIAL, 3);
    SquareStep(x, INITIAL, 4);
    SquareStep(x, INITIAL, 5);
    SquareStep(x, INITIAL, 6);
    SquareStep(x, INITIAL, 7);
    SquareStep(x, INITIAL, 8);
    hide Square;
    hide Diagonal;
    hide MatVec;
  }

  /** The time step is the time between the two stamps if that lies between half a millisecond and a tenth
      of a second; less counts as half a millisecond, more or no earlier stamp as ten. */
  lemma StepTimeMeaning(last: real, now: real)
    ensures last > 0.0 && 0.0005 <= now - last <= 0.1 ==> StepTime(last, now) == now - last
    ensures last > 0.0 && now - last < 0.0005 ==> StepTime(last, now) == 0.0005
    ensures last <= 0.0 || now - last > 0.1 ==> StepTime(last, now) == 0.01
  {
  }
}
