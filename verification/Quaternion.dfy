/** Quaternions as the odometry uses them (src/k1_odometry.c), over the reals: product, conjugate,
    rotation of a vector, rotation matrix, and the way back through four branches. Square roots
    enter as a parameter, any function with the defining property of one. */
module Quaternion {
  datatype Quat = Quat(w: real, x: real, y: real, z: real)
  datatype Vec3 = Vec3(x: real, y: real, z: real)

  /** A rotation matrix, row by row. */
  datatype Mat3 = Mat3(r0: real, r1: real, r2: real, r3: real, r4: real, r5: real, r6: real, r7: real, r8: real)

  function Squares(a: real, b: real, c: real, d: real): (r: real) {
    a * a + b * b + c * c + d * d
  }

  function Norm2(q: Quat): (r: real) {
    Squares(q.w, q.x, q.y, q.z)
  }

  function Length2(v: Vec3): (r: real) {
    v.x * v.x + v.y * v.y + v.z * v.z
  }

  function Conjugate(q: Quat): (r: Quat) {
    Quat(q.w, -q.x, -q.y, -q.z)
  }

  /** The Hamilton product. */
  function MulW(a: Quat, b: Quat): (r: real) { a.w * b.w - a.x * b.x - a.y * b.y - a.z * b.z }
  function MulX(a: Quat, b: Quat): (r: real) { a.w * b.x + a.x * b.w + a.y * b.z - a.z * b.y }
  function MulY(a: Quat, b: Quat): (r: real) { a.w * b.y - a.x * b.z + a.y * b.w + a.z * b.x }
  function MulZ(a: Quat, b: Quat): (r: real) { a.w * b.z + a.x * b.y - a.y * b.x + a.z * b.w }

  function Multiply(a: Quat, b: Quat): (r: Quat) {
    Quat(MulW(a, b), MulX(a, b), MulY(a, b), MulZ(a, b))
  }

  function Pure(v: Vec3): (r: Quat) {
    Quat(0.0, v.x, v.y, v.z)
  }

  function Rotate(q: Quat, v: Vec3): (r: Vec3) {
    var r := Multiply(Multiply(q, Pure(v)), Conjugate(q));
    Vec3(r.x, r.y, r.z)
  }

  function RotationMatrix(q: Quat): (r: Mat3) {
    Mat3(q.w * q.w + q.x * q.x - q.y * q.y - q.z * q.z, 2.0 * (q.x * q.y - q.w * q.z), 2.0 * (q.x * q.z + q.w * q.y),
         2.0 * (q.x * q.y + q.w * q.z), q.w * q.w - q.x * q.x + q.y * q.y - q.z * q.z, 2.0 * (q.y * q.z - q.w * q.x),
         2.0 * (q.x * q.z - q.w * q.y), 2.0 * (q.y * q.z + q.w * q.x), q.w * q.w - q.x * q.x - q.y * q.y + q.z * q.z)
  }

  function Row(a: real, b: real, c: real, v: Vec3): (r: real) {
    a * v.x + b * v.y + c * v.z
  }

  function Apply(R: Mat3, v: Vec3): (r: Vec3) {
    Vec3(Row(R.r0, R.r1, R.r2, v), Row(R.r3, R.r4, R.r5, v), Row(R.r6, R.r7, R.r8, v))
  }

  // ---- algebra ----

  ghost predicate IsProduct(w: real, x: real, y: real, z: real, a: real, b: real, c: real, d: real, p: real, q: real, r: real, s: real) {
    && w == a * p - b * q - c * r - d * s
    && x == a * q + b * p + c * s - d * r
    && y == a * r - b * s + c * p + d * q
    && z == a * s + b * r - c * q + d * p
  }

  lemma Expanded(m: Quat, a: Quat, b: Quat)
    requires m == Multiply(a, b)
    ensures IsProduct(m.w, m.x, m.y, m.z, a.w, a.x, a.y, a.z, b.w, b.x, b.y, b.z)
  {
  }

  /** Euler's four-square identity. */
  lemma FourSquares(a: real, b: real, c: real, d: real, p: real, q: real, r: real, s: real)
    ensures Squares(a * p - b * q - c * r - d * s, a * q + b * p + c * s - d * r,
                    a * r - b * s + c * p + d * q, a * s + b * r - c * q + d * p) ==
            Squares(a, b, c, d) * Squares(p, q, r, s)
  {
  }

  lemma SameSquares(a: real, b: real, c: real, d: real, a': real, b': real, c': real, d': real)
    requires a == a' && b == b' && c == c' && d == d'
    ensures Squares(a, b, c, d) == Squares(a', b', c', d')
  {
  }

  /** The squared norm of a product is the product of the squared norms. */
  lemma NormMultiplicative(a: Quat, b: Quat)
    ensures Norm2(Multiply(a, b)) == Norm2(a) * Norm2(b)
  {
    hide Squares;
    FourSquares(a.w, a.x, a.y, a.z, b.w, b.x, b.y, b.z);
    SameSquares(MulW(a, b), MulX(a, b), MulY(a, b), MulZ(a, b),
                a.w * b.w - a.x * b.x - a.y * b.y - a.z * b.z, a.w * b.x + a.x * b.w + a.y * b.z - a.z * b.y,
                a.w * b.y - a.x * b.z + a.y * b.w + a.z * b.x, a.w * b.z + a.x * b.y - a.y * b.x + a.z * b.w);
  }

  lemma TrilinearW(a: real, b: real, c: real, d: real, p: real, q: real, r: real, s: real, t: real, u: real, v: real, w: real,
                   m0: real, m1: real, m2: real, m3: real, n0: real, n1: real, n2: real, n3: real)
    requires IsProduct(m0, m1, m2, m3, a, b, c, d, p, q, r, s) && IsProduct(n0, n1, n2, n3, p, q, r, s, t, u, v, w)
    ensures m0 * t - m1 * u - m2 * v - m3 * w == a * n0 - b * n1 - c * n2 - d * n3
  {
  }

  lemma TrilinearX(a: real, b: real, c: real, d: real, p: real, q: real, r: real, s: real, t: real, u: real, v: real, w: real,
                   m0: real, m1: real, m2: real, m3: real, n0: real, n1: real, n2: real, n3: real)
    requires IsProduct(m0, m1, m2, m3, a, b, c, d, p, q, r, s) && IsProduct(n0, n1, n2, n3, p, q, r, s, t, u, v, w)
    ensures m0 * u + m1 * t + m2 * w - m3 * v == a * n1 + b * n0 + c * n3 - d * n2
  {
  }

  lemma TrilinearY(a: real, b: real, c: real, d: real, p: real, q: real, r: real, s: real, t: real, u: real, v: real, w: real,
                   m0: real, m1: real, m2: real, m3: real, n0: real, n1: real, n2: real, n3: real)
    requires IsProduct(m0, m1, m2, m3, a, b, c, d, p, q, r, s) && IsProduct(n0, n1, n2, n3, p, q, r, s, t, u, v, w)
    ensures m0 * v - m1 * w + m2 * t + m3 * u == a * n2 - b * n3 + c * n0 + d * n1
  {
  }

  lemma TrilinearZ(a: real, b: real, c: real, d: real, p: real, q: real, r: real, s: real, t: real, u: real, v: real, w: real,
                   m0: real, m1: real, m2: real, m3: real, n0: real, n1: real, n2: real, n3: real)
    requires IsProduct(m0, m1, m2, m3, a, b, c, d, p, q, r, s) && IsProduct(n0, n1, n2, n3, p, q, r, s, t, u, v, w)
    ensures m0 * w + m1 * v - m2 * u + m3 * t == a * n3 + b * n2 - c * n1 + d * n0
  {
  }

  lemma ProductAssociative(a: Quat, b: Quat, c: Quat)
    ensures Multiply(Multiply(a, b), c) == Multiply(a, Multiply(b, c))
  {
    hide MulW;
    hide MulX;
    hide MulY;
    hide MulZ;
    AssociativeW(a, b, c);
    AssociativeX(a, b, c);
    AssociativeY(a, b, c);
    AssociativeZ(a, b, c);
  }

  lemma AssociativeW(a: Quat, b: Quat, c: Quat)
    ensures MulW(Multiply(a, b), c) == MulW(a, Multiply(b, c))
  {
    hide Multiply;
    var m, n := Multiply(a, b), Multiply(b, c);
    Expanded(m, a, b);
    Expanded(n, b, c);
    TrilinearW(a.w, a.x, a.y, a.z, b.w, b.x, b.y, b.z, c.w, c.x, c.y, c.z, m.w, m.x, m.y, m.z, n.w, n.x, n.y, n.z);
    hide IsProduct;
  }

  lemma AssociativeX(a: Quat, b: Quat, c: Quat)
    ensures MulX(Multiply(a, b), c) == MulX(a, Multiply(b, c))
  {
    hide Multiply;
    var m, n := Multiply(a, b), Multiply(b, c);
    Expanded(m, a, b);
    Expanded(n, b, c);
    TrilinearX(a.w, a.x, a.y, a.z, b.w, b.x, b.y, b.z, c.w, c.x, c.y, c.z, m.w, m.x, m.y, m.z, n.w, n.x, n.y, n.z);
    hide IsProduct;
  }

  lemma AssociativeY(a: Quat, b: Quat, c: Quat)
    ensures MulY(Multiply(a, b), c) == MulY(a, Multiply(b, c))
  {
    hide Multiply;
    var m, n := Multiply(a, b), Multiply(b, c);
    Expanded(m, a, b);
    Expanded(n, b, c);
    TrilinearY(a.w, a.x, a.y, a.z, b.w, b.x, b.y, b.z, c.w, c.x, c.y, c.z, m.w, m.x, m.y, m.z, n.w, n.x, n.y, n.z);
    hide IsProduct;
  }

  lemma AssociativeZ(a: Quat, b: Quat, c: Quat)
    ensures MulZ(Multiply(a, b), c) == MulZ(a, Multiply(b, c))
  {
    hide Multiply;
    var m, n := Multiply(a, b), Multiply(b, c);
    Expanded(m, a, b);
    Expanded(n, b, c);
    TrilinearZ(a.w, a.x, a.y, a.z, b.w, b.x, b.y, b.z, c.w, c.x, c.y, c.z, m.w, m.x, m.y, m.z, n.w, n.x, n.y, n.z);
    hide IsProduct;
  }

  lemma ConjugateW(a: Quat, b: Quat)
    ensures MulW(a, b) == MulW(Conjugate(b), Conjugate(a))
  {
  }

  lemma ConjugateX(a: Quat, b: Quat)
    ensures -MulX(a, b) == MulX(Conjugate(b), Conjugate(a))
  {
  }

  lemma ConjugateY(a: Quat, b: Quat)
    ensures -MulY(a, b) == MulY(Conjugate(b), Conjugate(a))
  {
  }

  lemma ConjugateZ(a: Quat, b: Quat)
    ensures -MulZ(a, b) == MulZ(Conjugate(b), Conjugate(a))
  {
  }

  lemma ConjugateOfProduct(a: Quat, b: Quat)
    ensures Conjugate(Multiply(a, b)) == Multiply(Conjugate(b), Conjugate(a))
  {
    hide MulW;
    hide MulX;
    hide MulY;
    hide MulZ;
    ConjugateW(a, b);
    ConjugateX(a, b);
    ConjugateY(a, b);
    ConjugateZ(a, b);
  }

  /** The components of the rotation matrix of q applied to v. */
  function RowX(q: Quat, v: Vec3): (r: real) {
    Row(q.w * q.w + q.x * q.x - q.y * q.y - q.z * q.z, 2.0 * (q.x * q.y - q.w * q.z), 2.0 * (q.x * q.z + q.w * q.y), v)
  }

  function RowY(q: Quat, v: Vec3): (r: real) {
    Row(2.0 * (q.x * q.y + q.w * q.z), q.w * q.w - q.x * q.x + q.y * q.y - q.z * q.z, 2.0 * (q.y * q.z - q.w * q.x), v)
  }

  function RowZ(q: Quat, v: Vec3): (r: real) {
    Row(2.0 * (q.x * q.z - q.w * q.y), 2.0 * (q.y * q.z + q.w * q.x), q.w * q.w - q.x * q.x - q.y * q.y + q.z * q.z, v)
  }

  lemma RotateX(q: Quat, v: Vec3, m: Quat)
    requires IsProduct(m.w, m.x, m.y, m.z, q.w, q.x, q.y, q.z, 0.0, v.x, v.y, v.z)
    ensures MulX(m, Conjugate(q)) == RowX(q, v)
  {
  }

  lemma RotateY(q: Quat, v: Vec3, m: Quat)
    requires IsProduct(m.w, m.x, m.y, m.z, q.w, q.x, q.y, q.z, 0.0, v.x, v.y, v.z)
    ensures MulY(m, Conjugate(q)) == RowY(q, v)
  {
  }

  lemma RotateZ(q: Quat, v: Vec3, m: Quat)
    requires IsProduct(m.w, m.x, m.y, m.z, q.w, q.x, q.y, q.z, 0.0, v.x, v.y, v.z)
    ensures MulZ(m, Conjugate(q)) == RowZ(q, v)
  {
  }

  lemma NoReal(q: Quat, v: Vec3, m: Quat)
    requires IsProduct(m.w, m.x, m.y, m.z, q.w, q.x, q.y, q.z, 0.0, v.x, v.y, v.z)
    ensures MulW(m, Conjugate(q)) == 0.0
  {
  }

  lemma MatrixIs(q: Quat, v: Vec3)
    ensures Apply(RotationMatrix(q), v) == Vec3(RowX(q, v), RowY(q, v), RowZ(q, v))
  {
    hide Row;
  }

  lemma PureIs(q: Quat, v: Vec3, m: Quat)
    requires m == Multiply(q, Pure(v))
    ensures IsProduct(m.w, m.x, m.y, m.z, q.w, q.x, q.y, q.z, 0.0, v.x, v.y, v.z)
  {
    hide Multiply;
    hide IsProduct;
    Expanded(m, q, Pure(v));
  }

  /** q v q* component by component. */
  lemma Sandwich(q: Quat, v: Vec3)
    ensures Multiply(Multiply(q, Pure(v)), Conjugate(q)) == Pure(Apply(RotationMatrix(q), v))
  {
    hide MulW;
    hide MulX;
    hide MulY;
    hide MulZ;
    var m := Multiply(q, Pure(v));
    PureIs(q, v, m);
    hide IsProduct;
    hide RowX;
    hide RowY;
    hide RowZ;
    hide Apply;
    hide RotationMatrix;
    MatrixIs(q, v);
    RotateX(q, v, m);
    RotateY(q, v, m);
    RotateZ(q, v, m);
    NoReal(q, v, m);
  }

  /** Rotating a vector is applying the rotation matrix. */
  lemma RotateIsMatrix(q: Quat, v: Vec3)
    ensures Rotate(q, v) == Apply(RotationMatrix(q), v)
  {
    Sandwich(q, v);
    hide Multiply;
    hide Apply;
    hide RotationMatrix;
  }

  /** The scalar part of q v q* vanishes, so that nothing is lost by dropping it. */
  lemma RotatedIsPure(q: Quat, v: Vec3)
    ensures Multiply(Multiply(q, Pure(v)), Conjugate(q)) == Pure(Rotate(q, v))
  {
    hide *;
    Sandwich(q, v);
    RotateIsMatrix(q, v);
  }

  lemma PureInjective(u: Vec3, v: Vec3)
    requires Pure(u) == Pure(v)
    ensures u == v
  {
  }

  /** Rotating by b and then by a is rotating by the product. */
  lemma RotationsCompose(a: Quat, b: Quat, v: Vec3)
    ensures Rotate(a, Rotate(b, v)) == Rotate(Multiply(a, b), v)
  {
    hide *;
    var p := Pure(v);
    RotatedIsPure(b, v);
    RotatedIsPure(a, Rotate(b, v));
    RotatedIsPure(Multiply(a, b), v);
    ProductAssociative(a, Multiply(b, p), Conjugate(b));
    ProductAssociative(Multiply(a, Multiply(b, p)), Conjugate(b), Conjugate(a));
    ProductAssociative(a, b, p);
    ConjugateOfProduct(a, b);
    PureInjective(Rotate(a, Rotate(b, v)), Rotate(Multiply(a, b), v));
  }

  lemma NormOfConjugate(q: Quat)
    ensures Norm2(Conjugate(q)) == Norm2(q)
  {
  }

  lemma NormOfPure(v: Vec3)
    ensures Norm2(Pure(v)) == Length2(v)
  {
  }

  /** Rotation scales squared lengths by the fourth power of the norm: unit quaternions keep them. */
  lemma LengthScaled(q: Quat, v: Vec3)
    ensures Length2(Rotate(q, v)) == Norm2(q) * Length2(v) * Norm2(q)
    ensures Norm2(q) == 1.0 ==> Length2(Rotate(q, v)) == Length2(v)
  {
    hide *;
    RotatedIsPure(q, v);
    NormOfPure(Rotate(q, v));
    NormMultiplicative(Multiply(q, Pure(v)), Conjugate(q));
    NormMultiplicative(q, Pure(v));
    NormOfConjugate(q);
    NormOfPure(v);
  }

  // ---- normalisation ----

  ghost predicate IsRoot(sqrt: real -> real) {
    forall x: real :: x >= 0.0 ==> sqrt(x) >= 0.0 && sqrt(x) * sqrt(x) == x
  }

  const TINY := 0.00000001

  function Divided(q: Quat, n: real): (r: Quat)
    requires n != 0.0
  {
    var inv := 1.0 / n;
    Quat(q.w * inv, q.x * inv, q.y * inv, q.z * inv)
  }

  function Normalize(q: Quat, sqrt: real -> real): (r: Quat) {
    var n := sqrt(Norm2(q));
    if n > TINY then Divided(q, n) else q
  }

  lemma RootOfOne(n: real)
    requires n >= 0.0 && n * n == 1.0
    ensures n == 1.0
  {
    assert n < 1.0 ==> n * n <= n;
    assert n > 1.0 ==> n * n >= n;
  }

  lemma UnitStays(q: Quat, sqrt: real -> real)
    requires IsRoot(sqrt) && Norm2(q) == 1.0
    ensures Normalize(q, sqrt) == q
  {
    hide Norm2;
    RootOfOne(sqrt(1.0));
  }

  lemma ScaledNorm(q: Quat, c: real)
    ensures Norm2(Quat(q.w * c, q.x * c, q.y * c, q.z * c)) == Norm2(q) * (c * c)
  {
    ScaledSquares(q.w, q.x, q.y, q.z, c);
  }

  lemma ScaledSquares(w: real, x: real, y: real, z: real, c: real)
    ensures Squares(w * c, x * c, y * c, z * c) == Squares(w, x, y, z) * (c * c)
  {
  }

  lemma Unitary(n2: real, n: real)
    requires n > 0.0 && n * n == n2
    ensures n2 * (1.0 / n * (1.0 / n)) == 1.0
  {
    var c := 1.0 / n;
    assert n * c == 1.0;
    assert n * n * (c * c) == (n * c) * (n * c);
  }

  /** Whatever is longer than 1e-8 becomes a unit quaternion in the same direction; the rest is
      left alone. */
  lemma NormalizeUnit(q: Quat, sqrt: real -> real)
    requires IsRoot(sqrt)
    ensures Norm2(q) >= 0.0
    ensures sqrt(Norm2(q)) > TINY ==> Norm2(Normalize(q, sqrt)) == 1.0
    ensures sqrt(Norm2(q)) <= TINY ==> Normalize(q, sqrt) == q
  {
    SumOfSquares(q.w, q.x, q.y, q.z);
    var n := sqrt(Norm2(q));
    if n > TINY {
      ScaledNorm(q, 1.0 / n);
      Unitary(Norm2(q), n);
    }
    hide Norm2;
  }

  lemma SumOfSquares(a: real, b: real, c: real, d: real)
    ensures Squares(a, b, c, d) >= 0.0
  {
  }

  // ---- from a rotation matrix ----

  /** Which of the four branches is taken. */
  function Branch(R: Mat3): (n: nat) {
    if R.r0 + R.r4 + R.r8 > 0.0 then 0
    else if R.r0 > R.r4 && R.r0 > R.r8 then 1
    else if R.r4 > R.r8 then 2
    else 3
  }

  /** What the branch takes the root of. */
  function Radicand(R: Mat3): (r: real) {
    match Branch(R)
    case 0 => R.r0 + R.r4 + R.r8 + 1.0
    case 1 => 1.0 + R.r0 - R.r4 - R.r8
    case 2 => 1.0 + R.r4 - R.r0 - R.r8
    case _ => 1.0 + R.r8 - R.r0 - R.r4
  }

  function Over(a: real, S: real): (r: real)
    requires S != 0.0
  {
    a / S
  }

  function FromMatrixUnscaled(R: Mat3, S: real): (r: Quat)
    requires S != 0.0
  {
    match Branch(R)
    case 0 => Quat(0.25 * S, Over(R.r7 - R.r5, S), Over(R.r2 - R.r6, S), Over(R.r3 - R.r1, S))
    case 1 => Quat(Over(R.r7 - R.r5, S), 0.25 * S, Over(R.r1 + R.r3, S), Over(R.r2 + R.r6, S))
    case 2 => Quat(Over(R.r2 - R.r6, S), Over(R.r1 + R.r3, S), 0.25 * S, Over(R.r5 + R.r7, S))
    case _ => Quat(Over(R.r3 - R.r1, S), Over(R.r2 + R.r6, S), Over(R.r5 + R.r7, S), 0.25 * S)
  }

  function FromMatrix(R: Mat3, sqrt: real -> real): (r: Quat)
    requires sqrt(Radicand(R)) != 0.0
  {
    Normalize(FromMatrixUnscaled(R, sqrt(Radicand(R)) * 2.0), sqrt)
  }

  function Negated(q: Quat): (r: Quat) {
    Quat(-q.w, -q.x, -q.y, -q.z)
  }

  lemma ZeroProduct(x: real, y: real)
    requires x * y == 0.0
    ensures x == 0.0 || y == 0.0
  {
  }

  lemma RootUnique(n: real, a: real)
    requires n >= 0.0 && a >= 0.0 && n * n == a * a
    ensures n == a
  {
    assert (n - a) * (n + a) == n * n - a * a;
    ZeroProduct(n - a, n + a);
  }

  /** Of four numbers that are not negative and add up to one, the branch picks one of at least
      a quarter. */
  lemma BranchPicks(R: Mat3, w2: real, x2: real, y2: real, z2: real)
    requires w2 >= 0.0 && x2 >= 0.0 && y2 >= 0.0 && z2 >= 0.0 && w2 + x2 + y2 + z2 == 1.0
    requires R.r0 == w2 + x2 - y2 - z2 && R.r4 == w2 - x2 + y2 - z2 && R.r8 == w2 - x2 - y2 + z2
    ensures Radicand(R) == 4.0 * (match Branch(R) case 0 => w2 case 1 => x2 case 2 => y2 case _ => z2) >= 1.0
  {
  }

  lemma DiagonalIs(q: Quat)
    ensures var R := RotationMatrix(q);
            && R.r0 == q.w * q.w + q.x * q.x - q.y * q.y - q.z * q.z
            && R.r4 == q.w * q.w - q.x * q.x + q.y * q.y - q.z * q.z
            && R.r8 == q.w * q.w - q.x * q.x - q.y * q.y + q.z * q.z
    ensures q.w * q.w >= 0.0 && q.x * q.x >= 0.0 && q.y * q.y >= 0.0 && q.z * q.z >= 0.0
  {
  }

  /** Of the squares of the components of a unit quaternion one is at least a quarter, and the
      branch finds it. */
  lemma BranchFinds(q: Quat)
    requires Norm2(q) == 1.0
    ensures Radicand(RotationMatrix(q)) == 4.0 * (Largest(q) * Largest(q)) >= 1.0
  {
    DiagonalIs(q);
    hide RotationMatrix;
    BranchPicks(RotationMatrix(q), q.w * q.w, q.x * q.x, q.y * q.y, q.z * q.z);
    hide Radicand;
    hide Branch;
    hide Norm2;
  }

  function Largest(q: Quat): (r: real) {
    match Branch(RotationMatrix(q)) case 0 => q.w case 1 => q.x case 2 => q.y case _ => q.z
  }

  lemma OverIs(d: real, k: real, a: real, S: real)
    requires k != 0.0 && d == 4.0 * (k * a) && (S == 4.0 * k || S == -4.0 * k)
    ensures Over(d, S) == if S == 4.0 * k then a else -a
  {
    assert 4.0 * (k * a) == a * (4.0 * k);
    assert 4.0 * (k * a) == -a * (-4.0 * k);
  }

  lemma MatrixDifferences(q: Quat)
    ensures var R := RotationMatrix(q);
            && R.r7 - R.r5 == 4.0 * (q.w * q.x) && R.r2 - R.r6 == 4.0 * (q.w * q.y) && R.r3 - R.r1 == 4.0 * (q.w * q.z)
            && R.r1 + R.r3 == 4.0 * (q.x * q.y) && R.r2 + R.r6 == 4.0 * (q.x * q.z) && R.r5 + R.r7 == 4.0 * (q.y * q.z)
  {
  }

  /** With the divisor 4k the branch gives back q, with -4k its negative. */
  lemma BranchGives(q: Quat, S: real)
    requires Largest(q) != 0.0 && (S == 4.0 * Largest(q) || S == -4.0 * Largest(q))
    ensures FromMatrixUnscaled(RotationMatrix(q), S) == if S == 4.0 * Largest(q) then q else Negated(q)
  {
    MatrixDifferences(q);
    var R := RotationMatrix(q);
    hide RotationMatrix;
    hide Over;
    match Branch(R) {
      case 0 =>
        OverIs(R.r7 - R.r5, q.w, q.x, S);
        OverIs(R.r2 - R.r6, q.w, q.y, S);
        OverIs(R.r3 - R.r1, q.w, q.z, S);
      case 1 =>
        OverIs(R.r7 - R.r5, q.x, q.w, S);
        OverIs(R.r1 + R.r3, q.x, q.y, S);
        OverIs(R.r2 + R.r6, q.x, q.z, S);
      case 2 =>
        OverIs(R.r2 - R.r6, q.y, q.w, S);
        OverIs(R.r1 + R.r3, q.y, q.x, S);
        OverIs(R.r5 + R.r7, q.y, q.z, S);
      case _ =>
        OverIs(R.r3 - R.r1, q.z, q.w, S);
        OverIs(R.r2 + R.r6, q.z, q.x, S);
        OverIs(R.r5 + R.r7, q.z, q.y, S);
    }
  }

  lemma NegatedNorm(q: Quat)
    ensures Norm2(Negated(q)) == Norm2(q)
  {
  }

  /** Quaternion to matrix and back gives the same unit quaternion up to sign, through all four
      branches, and the divisor S is at least 2 in each. */
  lemma MatrixRoundTrip(q: Quat, sqrt: real -> real)
    requires IsRoot(sqrt) && Norm2(q) == 1.0
    ensures var R := RotationMatrix(q);
            sqrt(Radicand(R)) * 2.0 >= 2.0 && (FromMatrix(R, sqrt) == q || FromMatrix(R, sqrt) == Negated(q))
  {
    var R := RotationMatrix(q);
    var k := Largest(q);
    hide *;
    BranchFinds(q);
    RootOf(sqrt, Radicand(R));
    SizeOf(sqrt(Radicand(R)), k);
    BranchGives(q, sqrt(Radicand(R)) * 2.0);
    NegatedNorm(q);
    UnitStays(q, sqrt);
    UnitStays(Negated(q), sqrt);
    FromMatrixIs(R, sqrt);
  }

  lemma RootOf(sqrt: real -> real, x: real)
    requires IsRoot(sqrt) && x >= 0.0
    ensures sqrt(x) >= 0.0 && sqrt(x) * sqrt(x) == x
  {
  }

  lemma FromMatrixIs(R: Mat3, sqrt: real -> real)
    requires sqrt(Radicand(R)) != 0.0
    ensures FromMatrix(R, sqrt) == Normalize(FromMatrixUnscaled(R, sqrt(Radicand(R)) * 2.0), sqrt)
  {
  }

  lemma AtLeastOne(n: real)
    requires n >= 0.0 && n * n >= 1.0
    ensures n >= 1.0
  {
    assert n < 1.0 ==> n * n <= n;
  }

  lemma SizeOf(n: real, k: real)
    requires n >= 0.0 && n * n == 4.0 * (k * k) >= 1.0
    ensures k != 0.0 && n >= 1.0 && (n * 2.0 == 4.0 * k || n * 2.0 == -4.0 * k)
  {
    AtLeastOne(n);
    assert 2.0 * k * (2.0 * k) == 4.0 * (k * k) && -2.0 * k * (-2.0 * k) == 4.0 * (k * k);
    if k >= 0.0 { RootUnique(n, 2.0 * k); } else { RootUnique(n, -2.0 * k); }
  }
}
