/** The covariance arithmetic as the odometry does it (src/k1_odometry.c): row-major arrays of 81
    numbers, multiplied out by nested loops and copied back. Each loop is shown to compute the
    matrix operation it stands for, so that what is proved about matrices holds of the arrays;
    temporaries are arrays of their own. */
module OdometryFilter {
  import opened LinearAlgebra
  import opened OdometryCovariance
  import opened OdometryForm

  const SIZE := 81

  /** The matrix that a row-major array holds. */
  function Rows(s: Vec): (A: Mat)
    requires |s| == SIZE
    ensures IsMat(A, N, N)
    ensures forall i, j :: 0 <= i < N && 0 <= j < N ==> A[i][j] == s[i * 9 + j]
  {
    seq(N, i requires 0 <= i < N => s[i * 9..i * 9 + 9])
  }

  lemma SameRows(A: Mat, B: Mat)
    requires IsMat(A, N, N) && IsMat(B, N, N)
    requires forall i, j :: 0 <= i < N && 0 <= j < N ==> A[i][j] == B[i][j]
    ensures A == B
  {
    forall i | 0 <= i < N ensures A[i] == B[i] { }
  }

  lemma RowsAre(s: Vec, A: Mat)
    requires |s| == SIZE && IsMat(A, N, N)
    requires forall i, j :: 0 <= i < N && 0 <= j < N ==> s[i * 9 + j] == A[i][j]
    ensures Rows(s) == A
  {
    SameRows(Rows(s), A);
  }

  /** Everything before entry (i, j) in row-major order. */
  ghost predicate DoneBefore(s: Vec, C: Mat, i: nat, j: nat)
    requires |s| == SIZE && IsMat(C, N, N) && i <= N && j <= N
  {
    forall a, b :: 0 <= a < N && 0 <= b < N && (a < i || (a == i && b < j)) ==> s[a * 9 + b] == C[a][b]
  }

  lemma OneMoreDone(s: Vec, t: Vec, C: Mat, i: nat, j: nat)
    requires |s| == |t| == SIZE && IsMat(C, N, N) && i < N && j < N
    requires DoneBefore(s, C, i, j)
    requires t == s[i * 9 + j := C[i][j]]
    ensures DoneBefore(t, C, i, j + 1)
  {
  }

  lemma RowDone(s: Vec, C: Mat, i: nat)
    requires |s| == SIZE && IsMat(C, N, N) && i < N && DoneBefore(s, C, i, N)
    ensures DoneBefore(s, C, i + 1, 0)
  {
  }

  lemma AllDone(s: Vec, C: Mat)
    requires |s| == SIZE && IsMat(C, N, N) && DoneBefore(s, C, N, 0)
    ensures Rows(s) == C
  {
    RowsAre(s, C);
  }

  /** The inner loop of a product. */
  method Entry(A: array<real>, B: array<real>, i: nat, j: nat) returns (sum: real)
    requires A.Length == SIZE && B.Length == SIZE && i < N && j < N
    ensures sum == MatMul(Rows(A[..]), Rows(B[..]), N)[i][j]
  {
    hide MatMul;
    hide Rows;
    hide Col;
    ghost var row, col := Rows(A[..])[i], Col(Rows(B[..]), j);
    MulEntry(Rows(A[..]), Rows(B[..]), i, j);
    sum := 0.0;
    for k := 0 to N
      invariant sum == DotTo(row, col, k)
    {
      assert row[k] == A[i * 9 + k] && col[k] == B[k * 9 + j];
      sum := sum + A[i * 9 + k] * B[k * 9 + j];
    }
  }

  method EntryT(A: array<real>, B: array<real>, i: nat, j: nat) returns (sum: real)
    requires A.Length == SIZE && B.Length == SIZE && i < N && j < N
    ensures sum == MulT(Rows(A[..]), Rows(B[..]))[i][j]
  {
    ghost var row, col := Rows(A[..])[i], Rows(B[..])[j];
    sum := 0.0;
    for k := 0 to N
      invariant sum == DotTo(row, col, k)
    {
      assert row[k] == A[i * 9 + k] && col[k] == B[j * 9 + k];
      sum := sum + A[i * 9 + k] * B[j * 9 + k];
    }
    DotSymmetric(row, col);
  }

  method Product(A: array<real>, B: array<real>) returns (C: array<real>)
    requires A.Length == SIZE && B.Length == SIZE
    ensures fresh(C) && C.Length == SIZE && Rows(C[..]) == MatMul(Rows(A[..]), Rows(B[..]), N)
  {
    hide MatMul;
    hide Rows;
    C := new real[SIZE](_ => 0.0);
    ghost var goal := MatMul(Rows(A[..]), Rows(B[..]), N);
    for i := 0 to N
      invariant A[..] == old(A[..]) && B[..] == old(B[..])
      invariant DoneBefore(C[..], goal, i, 0)
    {
      for j := 0 to N
        invariant A[..] == old(A[..]) && B[..] == old(B[..])
        invariant DoneBefore(C[..], goal, i, j)
      {
        ghost var was := C[..];
        C[i * 9 + j] := Entry(A, B, i, j);
        OneMoreDone(was, C[..], goal, i, j);
      }
      RowDone(C[..], goal, i);
    }
    AllDone(C[..], goal);
  }

  method ProductT(A: array<real>, B: array<real>) returns (C: array<real>)
    requires A.Length == SIZE && B.Length == SIZE
    ensures fresh(C) && C.Length == SIZE && Rows(C[..]) == MulT(Rows(A[..]), Rows(B[..]))
  {
    hide MulT;
    hide Rows;
    C := new real[SIZE](_ => 0.0);
    ghost var goal := MulT(Rows(A[..]), Rows(B[..]));
    for i := 0 to N
      invariant A[..] == old(A[..]) && B[..] == old(B[..])
      invariant DoneBefore(C[..], goal, i, 0)
    {
      for j := 0 to N
        invariant A[..] == old(A[..]) && B[..] == old(B[..])
        invariant DoneBefore(C[..], goal, i, j)
      {
        ghost var was := C[..];
        C[i * 9 + j] := EntryT(A, B, i, j);
        OneMoreDone(was, C[..], goal, i, j);
      }
      RowDone(C[..], goal, i);
    }
    AllDone(C[..], goal);
  }

  method FillPosition(F: array<real>, dt: real)
    requires F.Length == SIZE && forall k :: 0 <= k < SIZE ==> F[k] == if k % 10 == 0 then 1.0 else 0.0
    modifies F
    ensures forall k :: 0 <= k < SIZE ==> F[k] == TransitionEntry(dt, 0.0, 0.0, 0.0, k / 9, k % 9)
  {
    F[3], F[13], F[23] := dt, dt, dt;
  }

  method FillVelocity(F: array<real>, dt: real, x: real, y: real, z: real)
    requires F.Length == SIZE
    requires forall k :: 0 <= k < SIZE ==> F[k] == TransitionEntry(dt, 0.0, 0.0, 0.0, k / 9, k % 9)
    modifies F
    ensures forall k :: 0 <= k < SIZE ==> F[k] == TransitionEntry(dt, x, y, z, k / 9, k % 9)
  {
    F[34], F[35] := z, -y;
    F[42], F[44] := -z, x;
    F[51], F[52] := y, -x;
  }

  /** The transition matrix, filled in element by element. */
  method BuildTransition(dt: real, ax: real, ay: real, az: real) returns (F: array<real>)
    ensures fresh(F) && F.Length == SIZE && Rows(F[..]) == Transition(dt, ax, ay, az)
  {
    hide TransitionEntry;
    F := new real[SIZE](_ => 0.0);
    for i := 0 to N
      invariant forall k :: 0 <= k < SIZE ==> F[k] == if k % 10 == 0 && k < i * 10 then 1.0 else 0.0
    {
      F[i * 9 + i] := 1.0;
    }
    FillPosition(F, dt);
    FillVelocity(F, dt, ax * dt, ay * dt, az * dt);
    ghost var T := Transition(dt, ax, ay, az);
    forall a, b | 0 <= a < N && 0 <= b < N ensures F[..][a * 9 + b] == T[a][b] {
      assert (a * 9 + b) / 9 == a && (a * 9 + b) % 9 == b;
    }
    RowsAre(F[..], T);
  }

  method AddOnDiagonal(C: array<real>, lo: nat, hi: nat, q: real)
    requires C.Length == SIZE && lo <= hi <= N
    modifies C
    ensures forall k :: 0 <= k < SIZE ==> C[k] == old(C[k]) + if k % 10 == 0 && lo * 10 <= k < hi * 10 then q else 0.0
  {
    for i := lo to hi
      invariant forall k :: 0 <= k < SIZE ==> C[k] == old(C[k]) + if k % 10 == 0 && lo * 10 <= k < i * 10 then q else 0.0
    {
      C[i * 9 + i] := C[i * 9 + i] + q;
    }
  }

  /** Process noise on the velocity and attitude entries of the diagonal. */
  method AddNoise(C: array<real>, dt: real, sigmaA: real, sigmaG: real)
    requires C.Length == SIZE
    modifies C
    ensures Rows(C[..]) == PlusDiagonal(Rows(old(C[..])), Noise(dt, sigmaA, sigmaG))
  {
    ghost var was := C[..];
    AddOnDiagonal(C, 3, 6, sigmaA * sigmaA * dt);
    AddOnDiagonal(C, 6, 9, sigmaG * sigmaG * dt);
    hide Rows;
    hide PlusDiagonal;
    NoiseRows(was, C[..], sigmaA * sigmaA * dt, sigmaG * sigmaG * dt, Noise(dt, sigmaA, sigmaG));
  }

  lemma NoiseRows(was: Vec, s: Vec, qa: real, qg: real, q: Vec)
    requires |was| == |s| == SIZE && q == [0.0, 0.0, 0.0, qa, qa, qa, qg, qg, qg]
    requires forall k :: 0 <= k < SIZE ==>
               s[k] == was[k] + if k % 10 == 0 && 30 <= k < 60 then qa else if k % 10 == 0 && 60 <= k < 90 then qg else 0.0
    ensures Rows(s) == PlusDiagonal(Rows(was), q)
  {
    forall i, j | 0 <= i < N && 0 <= j < N ensures s[i * 9 + j] == PlusDiagonal(Rows(was), q)[i][j] {
      assert (i * 9 + j) % 10 == 0 <==> i == j;
    }
    RowsAre(s, PlusDiagonal(Rows(was), q));
  }

  lemma InitialRows(s: Vec)
    requires |s| == SIZE
    requires forall k :: 0 <= k < SIZE ==>
               s[k] == if k % 10 != 0 then 0.0 else if k < 30 then 1.0 else if k < 60 then 0.01 else 0.001
    ensures Rows(s) == Diagonal(INITIAL)
  {
    forall i, j | 0 <= i < N && 0 <= j < N ensures s[i * 9 + j] == Diagonal(INITIAL)[i][j] {
      assert (i * 9 + j) % 10 == 0 <==> i == j;
    }
    RowsAre(s, Diagonal(INITIAL));
  }

  lemma IdentityRows(s: Vec, M: Mat, V: Vec)
    requires |s| == SIZE && IsMat(M, N, N) && |V| == 9
    requires forall k :: 0 <= k < SIZE ==>
               s[k] == (if 3 <= k % 9 < 6 then -Gain(M, V, k / 9, k % 9 - 3) else 0.0) + if k / 9 == k % 9 then 1.0 else 0.0
    ensures Rows(s) == IdentityMinusKH(M, V)
  {
    hide Gain;
    var goal := IdentityMinusKH(M, V);
    forall a, b | 0 <= a < N && 0 <= b < N ensures s[a * 9 + b] == goal[a][b] {
      assert (a * 9 + b) / 9 == a && (a * 9 + b) % 9 == b;
    }
    RowsAre(s, goal);
  }

  class K1Odometry {
    const cov: array<real>
    var sigmaAccel: real
    var sigmaGyro: real
    var lastTime: real

    ghost predicate Valid()
      reads this
    {
      cov.Length == SIZE
    }

    ghost function P(): (A: Mat)
      requires Valid()
      reads this, cov
      ensures IsMat(A, N, N)
    {
      Rows(cov[..])
    }

    constructor ()
      ensures Valid() && fresh(cov) && P() == Diagonal(INITIAL) && lastTime == 0.0
    {
      cov := new real[SIZE](_ => 0.0);
      sigmaAccel, sigmaGyro, lastTime := 0.01, 0.001, 0.0;
      new;
      for i := 0 to N
        invariant lastTime == 0.0
        invariant forall k :: 0 <= k < SIZE ==> cov[k] == if k % 10 == 0 && k < i * 10 then 1.0 else 0.0
      {
        cov[i * 9 + i] := 1.0;
      }
      cov[30], cov[40], cov[50] := 0.01, 0.01, 0.01;
      cov[60], cov[70], cov[80] := 0.001, 0.001, 0.001;
      InitialRows(cov[..]);
    }

    method CopyIn(C: array<real>)
      requires Valid() && C.Length == SIZE && C != cov
      modifies cov
      ensures cov[..] == C[..]
    {
      forall k | 0 <= k < SIZE { cov[k] := C[k]; }
    }

    /** Step 8: covariance propagation. */
    method Predict(dt: real, ax: real, ay: real, az: real)
      requires Valid()
      modifies cov
      ensures P() == Predicted(old(P()), Transition(dt, ax, ay, az), Noise(dt, sigmaAccel, sigmaGyro))
      ensures Propagated(old(P()), P(), dt, ax, ay, az, sigmaAccel, sigmaGyro)
    {
      ghost var was := P();
      hide Propagated;
      hide Noise;
      hide Rows;
      hide MatMul;
      hide MulT;
      hide PlusDiagonal;
      hide Transition;
      var F := BuildTransition(dt, ax, ay, az);
      var FP := Product(F, cov);
      var pred := ProductT(FP, F);
      AddNoise(pred, dt, sigmaAccel, sigmaGyro);
      CopyIn(pred);
      assert P() == Predicted(was, Transition(dt, ax, ay, az), Noise(dt, sigmaAccel, sigmaGyro));
      hide *;
      PredictedPropagated(was, dt, ax, ay, az, sigmaAccel, sigmaGyro);
    }

    /** K = P H' S^-1, nine by three. */
    method Gains(V: Vec) returns (K: array<real>)
      requires Valid() && |V| == 9
      ensures fresh(K) && K.Length == 27
      ensures forall i, j :: 0 <= i < N && 0 <= j < 3 ==> K[i * 3 + j] == Gain(P(), V, i, j)
    {
      K := new real[27](_ => 0.0);
      for i := 0 to N
        invariant forall a, b :: 0 <= a < i && 0 <= b < 3 ==> K[a * 3 + b] == Gain(P(), V, a, b)
      {
        for j := 0 to 3
          invariant forall a, b :: 0 <= a < i && 0 <= b < 3 ==> K[a * 3 + b] == Gain(P(), V, a, b)
          invariant forall b :: 0 <= b < j ==> K[i * 3 + b] == Gain(P(), V, i, b)
        {
          var sum := 0.0;
          for k := 0 to 3
            invariant sum == (if k > 0 then cov[i * 9 + 3] * V[j] else 0.0) + (if k > 1 then cov[i * 9 + 4] * V[3 + j] else 0.0)
                             + (if k > 2 then cov[i * 9 + 5] * V[6 + j] else 0.0)
          {
            sum := sum + cov[i * 9 + 3 + k] * V[k * 3 + j];
          }
          K[i * 3 + j] := sum;
        }
      }
    }

    /** K H: only columns 3 to 5 are not zero. */
    method BuildKH(V: Vec) returns (A: array<real>)
      requires Valid() && |V| == 9
      ensures fresh(A) && A.Length == SIZE
      ensures forall k :: 0 <= k < SIZE ==> A[k] == if 3 <= k % 9 < 6 then Gain(P(), V, k / 9, k % 9 - 3) else 0.0
    {
      hide Gain;
      hide Rows;
      var K := Gains(V);
      ghost var M, ks := P(), K[..];
      assert forall a, b :: 0 <= a < N && 0 <= b < 3 ==> ks[a * 3 + b] == Gain(M, V, a, b);
      A := new real[SIZE](_ => 0.0);
      for i := 0 to N
        invariant K[..] == ks
        invariant forall k :: 0 <= k < SIZE ==>
                    A[k] == if k / 9 < i && 3 <= k % 9 < 6 then Gain(M, V, k / 9, k % 9 - 3) else 0.0
      {
        for j := 0 to 3
          invariant K[..] == ks
          invariant forall k :: 0 <= k < SIZE ==>
                      A[k] == if (k / 9 < i && 3 <= k % 9 < 6) || (k / 9 == i && 3 <= k % 9 < 3 + j)
                              then Gain(M, V, k / 9, k % 9 - 3) else 0.0
        {
          assert K[i * 3 + j] == ks[i * 3 + j] == Gain(M, V, i, j);
          A[i * 9 + (3 + j)] := K[i * 3 + j];
        }
      }
    }

    /** I - K H. */
    method BuildIdentityMinusKH(V: Vec) returns (A: array<real>)
      requires Valid() && |V| == 9
      ensures fresh(A) && A.Length == SIZE && Rows(A[..]) == IdentityMinusKH(P(), V)
    {
      hide Gain;
      A := BuildKH(V);
      ghost var M := P();
      Negate(A);
      for i := 0 to N
        invariant forall k :: 0 <= k < SIZE ==>
                    A[k] == (if 3 <= k % 9 < 6 then -Gain(M, V, k / 9, k % 9 - 3) else 0.0)
                            + if k / 9 == k % 9 < i then 1.0 else 0.0
      {
        A[i * 9 + i] := A[i * 9 + i] + 1.0;
      }
      IdentityRows(A[..], M, V);
    }

    /** The covariance part of the zero-velocity update. */
    method ZuptUpdate()
      requires Valid()
      modifies cov
      ensures P() == Corrected(old(P()))
    {
      hide MatMul;
      hide IdentityMinusKH;
      hide Inverse3;
      hide Det3;
      var S := [cov[30] + R_ZUPT, cov[31], cov[32], cov[39], cov[40] + R_ZUPT, cov[41], cov[48], cov[49], cov[50] + R_ZUPT];
      assert S == Innovation(P());
      var det := Det3(S);
      if -DET_MIN < det < DET_MIN { return; }
      var A := BuildIdentityMinusKH(Inverse3(S, 1.0 / det));
      var C := Product(A, cov);
      CopyIn(C);
    }

    /** One update once initialised; `still` when both detectors fired now and the time before. */
    method Update(now: real, still: bool, ax: real, ay: real, az: real)
      requires Valid()
      modifies this`lastTime, cov
      ensures P() == Updated(old(P()), Sample(still, StepTime(old(lastTime), now), ax, ay, az, sigmaAccel, sigmaGyro))
      ensures lastTime == now
      ensures Covariance(old(P()), N) ==> Covariance(P(), N)
      ensures !still ==> Propagated(old(P()), P(), StepTime(old(lastTime), now), ax, ay, az, sigmaAccel, sigmaGyro)
    {
      hide Propagated;
      hide Covariance;
      hide Corrected;
      hide Predicted;
      hide Rows;
      var dt := StepTime(lastTime, now);
      ghost var was := P();
      if Covariance(was, N) { UpdateKeeps(was, Sample(still, dt, ax, ay, az, sigmaAccel, sigmaGyro)); }
      lastTime := now;
      if still { ZuptUpdate(); }
      Predict(dt, ax, ay, az);
    }
  }

  method Negate(A: array<real>)
    modifies A
    ensures forall k :: 0 <= k < A.Length ==> A[k] == -old(A[k])
  {
    for i := 0 to A.Length
      invariant forall k :: 0 <= k < A.Length ==> A[k] == if k < i then -old(A[k]) else old(A[k])
    {
      A[i] := -A[i];
    }
  }
}
