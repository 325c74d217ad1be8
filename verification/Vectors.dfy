/** Vectors and matrices over the reals, as the fused IMU message uses them. */
module Vectors {
  datatype Vec3 = Vec3(x: real, y: real, z: real)
  datatype Mat3 = Mat3(r0: Vec3, r1: Vec3, r2: Vec3)

  const ZERO := Vec3(0.0, 0.0, 0.0)

  function Dot(a: Vec3, b: Vec3): real { a.x * b.x + a.y * b.y + a.z * b.z }

  /** A matrix times a vector. */
  function Rotate(m: Mat3, v: Vec3): Vec3 { Vec3(Dot(m.r0, v), Dot(m.r1, v), Dot(m.r2, v)) }

  function Add(a: Vec3, b: Vec3): Vec3 { Vec3(a.x + b.x, a.y + b.y, a.z + b.z) }

  function Minus(a: Vec3, b: Vec3): Vec3 { Vec3(a.x - b.x, a.y - b.y, a.z - b.z) }

  function Times(n: real, v: Vec3): Vec3 { Vec3(n * v.x, n * v.y, n * v.z) }

  function Over(a: Vec3, n: real): Vec3
    requires n != 0.0
  {
    Vec3(a.x / n, a.y / n, a.z / n)
  }

  lemma OverTimes(n: real, v: Vec3)
    requires n != 0.0
    ensures Over(Times(n, v), n) == v && Times(n, Over(v, n)) == v
  {
  }

  // ---- what a rotation does ----

  /** The columns of the matrix are what it makes of the unit vectors. */
  lemma RotatesUnits(m: Mat3)
    ensures Rotate(m, Vec3(1.0, 0.0, 0.0)) == Vec3(m.r0.x, m.r1.x, m.r2.x)
    ensures Rotate(m, Vec3(0.0, 1.0, 0.0)) == Vec3(m.r0.y, m.r1.y, m.r2.y)
    ensures Rotate(m, Vec3(0.0, 0.0, 1.0)) == Vec3(m.r0.z, m.r1.z, m.r2.z)
  {
  }

  /** It is linear. */
  lemma RotatesLinearly(m: Mat3, v: Vec3, w: Vec3, a: real)
    ensures Rotate(m, Add(v, w)) == Add(Rotate(m, v), Rotate(m, w))
    ensures Rotate(m, Times(a, v)) == Times(a, Rotate(m, v))
  {
  }

  /** The rows are unit vectors at right angles, as the rows of a rotation are. */
  predicate Orthonormal(m: Mat3) {
    && Dot(m.r0, m.r0) == 1.0 && Dot(m.r1, m.r1) == 1.0 && Dot(m.r2, m.r2) == 1.0
    && Dot(m.r0, m.r1) == 0.0 && Dot(m.r0, m.r2) == 0.0 && Dot(m.r1, m.r2) == 0.0
  }

  lemma RotatesRows(m: Mat3)
    requires Orthonormal(m)
    ensures Rotate(m, m.r0) == Vec3(1.0, 0.0, 0.0)
    ensures Rotate(m, m.r1) == Vec3(0.0, 1.0, 0.0)
    ensures Rotate(m, m.r2) == Vec3(0.0, 0.0, 1.0)
  {
  }

  function Cross(a: Vec3, b: Vec3): Vec3 {
    Vec3(a.y * b.z - a.z * b.y, a.z * b.x - a.x * b.z, a.x * b.y - a.y * b.x)
  }

  /** Lagrange's identity. */
  lemma CrossSquared(a: Vec3, b: Vec3)
    ensures Dot(Cross(a, b), Cross(a, b)) == Dot(a, a) * Dot(b, b) - Dot(a, b) * Dot(a, b)
  {
  }

  /** One component of CrossTwice, with the products multiplied out. */
  lemma Expand(a0: real, a1: real, a2: real, b0: real, b1: real, b2: real, c0: real, c1: real, c2: real,
               w1: real, w2: real, ac: real, ab: real)
    requires ac == a0 * c0 + a1 * c1 + a2 * c2
    requires ab == a0 * b0 + a1 * b1 + a2 * b2
    requires w2 == b0 * c1 - b1 * c0
    requires w1 == b2 * c0 - b0 * c2
    ensures a1 * w2 - a2 * w1 == ac * b0 - ab * c0
  {
    assert a1 * w2 == a1 * (b0 * c1) - a1 * (b1 * c0);
    assert a2 * w1 == a2 * (b2 * c0) - a2 * (b0 * c2);
    assert ac * b0 == (a0 * c0) * b0 + (a1 * c1) * b0 + (a2 * c2) * b0;
    assert ab * c0 == (a0 * b0) * c0 + (a1 * b1) * c0 + (a2 * b2) * c0;
  }

  lemma DotOf(a: Vec3, b: Vec3)
    ensures Dot(a, b) == a.x * b.x + a.y * b.y + a.z * b.z
  {
  }

  lemma CrossOf(a: Vec3, b: Vec3)
    ensures Cross(a, b).x == a.y * b.z - a.z * b.y
    ensures Cross(a, b).y == a.z * b.x - a.x * b.z
    ensures Cross(a, b).z == a.x * b.y - a.y * b.x
  {
  }

  lemma TwiceX(a: Vec3, b: Vec3, c: Vec3)
    ensures Cross(a, Cross(b, c)).x == Dot(a, c) * b.x - Dot(a, b) * c.x
  {
    hide Cross, Dot;
    DotOf(a, b);
    DotOf(a, c);
    CrossOf(b, c);
    var w := Cross(b, c);
    CrossOf(a, w);
    Expand(a.x, a.y, a.z, b.x, b.y, b.z, c.x, c.y, c.z, w.y, w.z, Dot(a, c), Dot(a, b));
  }

  lemma TwiceY(a: Vec3, b: Vec3, c: Vec3)
    ensures Cross(a, Cross(b, c)).y == Dot(a, c) * b.y - Dot(a, b) * c.y
  {
    hide Cross, Dot;
    DotOf(a, b);
    DotOf(a, c);
    CrossOf(b, c);
    var w := Cross(b, c);
    CrossOf(a, w);
    Expand(a.y, a.z, a.x, b.y, b.z, b.x, c.y, c.z, c.x, w.z, w.x, Dot(a, c), Dot(a, b));
  }

  lemma TwiceZ(a: Vec3, b: Vec3, c: Vec3)
    ensures Cross(a, Cross(b, c)).z == Dot(a, c) * b.z - Dot(a, b) * c.z
  {
    hide Cross, Dot;
    DotOf(a, b);
    DotOf(a, c);
    CrossOf(b, c);
    var w := Cross(b, c);
    CrossOf(a, w);
    Expand(a.z, a.x, a.y, b.z, b.x, b.y, c.z, c.x, c.y, w.x, w.y, Dot(a, c), Dot(a, b));
  }

  lemma CrossTwice(a: Vec3, b: Vec3, c: Vec3)
    ensures Cross(a, Cross(b, c)) == Minus(Times(Dot(a, c), b), Times(Dot(a, b), c))
  {
    hide Cross, Dot;
    TwiceX(a, b, c);
    TwiceY(a, b, c);
    TwiceZ(a, b, c);
  }

  lemma DotTimes(a: real, v: Vec3, w: Vec3)
    ensures Dot(Times(a, v), w) == a * Dot(v, w)
  {
  }

  /** The first row is, up to its sign, the vector product of the other two. */
  lemma FirstRow(m: Mat3, c: Vec3, k: real)
    requires Orthonormal(m) && c == Cross(m.r1, m.r2) && k == Dot(c, m.r0)
    ensures Dot(c, c) == 1.0 && m.r0 == Times(k, c) && k * k == 1.0
  {
    CrossSquared(m.r1, m.r2);
    CrossTwice(m.r0, m.r1, m.r2);
    assert Cross(m.r0, c) == ZERO;
    assert Cross(c, m.r0) == ZERO;
    CrossTwice(c, c, m.r0);
    CrossSquared(c, m.r0);
  }

  /** The part of a vector along `c` is what the other two rows leave. */
  lemma AlongThird(m: Mat3, c: Vec3, v: Vec3)
    requires Orthonormal(m) && c == Cross(m.r1, m.r2) && Dot(c, c) == 1.0
    ensures Dot(c, v) * Dot(c, v) == Dot(v, v) - Dot(m.r1, v) * Dot(m.r1, v) - Dot(m.r2, v) * Dot(m.r2, v)
  {
    CrossTwice(v, m.r1, m.r2);
    CrossSquared(v, c);
    var p, q := Dot(v, m.r2), Dot(v, m.r1);
    SquaredDifference(p, q, m.r1, m.r2);
  }

  lemma SquaredDifference(p: real, q: real, a: Vec3, b: Vec3)
    requires Dot(a, a) == 1.0 && Dot(b, b) == 1.0 && Dot(a, b) == 0.0
    ensures var d := Minus(Times(p, a), Times(q, b)); Dot(d, d) == p * p + q * q
  {
  }

  /** Lengths are kept. */
  lemma RotatesKeepingLength(m: Mat3, v: Vec3)
    requires Orthonormal(m)
    ensures Dot(Rotate(m, v), Rotate(m, v)) == Dot(v, v)
  {
    var c := Cross(m.r1, m.r2);
    var k := Dot(c, m.r0);
    FirstRow(m, c, k);
    DotTimes(k, c, v);
    AlongThird(m, c, v);
    hide Cross;
    var p, q := Dot(m.r0, v), Dot(c, v);
    assert p * p == k * k * (q * q);
  }
}
