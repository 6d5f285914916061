/**
 * Points in 3-D space and the order-normalised `Segment` of helpers.py.
 *
 * Coordinates are exact reals. A Euclidean magnitude compared with a
 * tolerance (`|d| <= tol`) is written without a square root as
 * `0 <= tol && |d|^2 <= tol^2`, which is the same condition.
 */
module Geometry {
  datatype Vec3 = Vec3(x: real, y: real, z: real)

  const Zero := Vec3(0.0, 0.0, 0.0)

  function Sub(p: Vec3, q: Vec3): Vec3 {
    Vec3(p.x - q.x, p.y - q.y, p.z - q.z)
  }

  function Scale(t: real, p: Vec3): Vec3 {
    Vec3(t * p.x, t * p.y, t * p.z)
  }

  function Dot(p: Vec3, q: Vec3): real {
    p.x * q.x + p.y * q.y + p.z * q.z
  }

  function Cross(p: Vec3, q: Vec3): Vec3 {
    Vec3(p.y * q.z - p.z * q.y, p.z * q.x - p.x * q.z, p.x * q.y - p.y * q.x)
  }

  /** Squared Euclidean magnitude. */
  function Norm2(p: Vec3): real {
    Dot(p, p)
  }

  /** `p.magnitude <= tol`, without the square root. */
  predicate WithinTolerance(p: Vec3, tol: real) {
    0.0 <= tol && Norm2(p) <= tol * tol
  }

  /**
   * The order `Vec3` is compared with when a segment is built. The drawing
   * library's own `<` is not part of this model; it is taken to be the
   * strict lexicographic order on (x, y, z).
   */
  predicate Less(p: Vec3, q: Vec3) {
    p.x < q.x || (p.x == q.x && (p.y < q.y || (p.y == q.y && p.z < q.z)))
  }

  lemma LessIsStrictTotalOrder(p: Vec3, q: Vec3, r: Vec3)
    ensures !Less(p, p)
    ensures Less(p, q) ==> !Less(q, p)
    ensures Less(p, q) && Less(q, r) ==> Less(p, r)
    ensures p == q || Less(p, q) || Less(q, p)
  {
  }

  /**
   * A segment as helpers.py stores it: the two endpoints in ascending order,
   * so that equality (and the hash, which is taken over the same pair) does
   * not depend on the order the endpoints were given in.
   */
  datatype Segment = Segment(a: Vec3, b: Vec3)

  predicate Canonical(s: Segment) {
    !Less(s.b, s.a)
  }

  /** `Segment(point_a, point_b)`: the same two endpoints, the smaller one first. */
  function NewSegment(p: Vec3, q: Vec3): (s: Segment)
    ensures Canonical(s)
    ensures multiset{s.a, s.b} == multiset{p, q}
  {
    if Less(p, q) then Segment(p, q) else Segment(q, p)
  }

  /** Building a segment forgets the order of its endpoints (`__eq__`, `__hash__`). */
  lemma NewSegmentSymmetric(p: Vec3, q: Vec3)
    ensures NewSegment(p, q) == NewSegment(q, p)
  {
    LessIsStrictTotalOrder(p, q, p);
  }

  /** A canonical segment is rebuilt unchanged from its own endpoints. */
  lemma NewSegmentOfCanonical(s: Segment)
    requires Canonical(s)
    ensures NewSegment(s.a, s.b) == s
  {
    LessIsStrictTotalOrder(s.a, s.b, s.a);
  }

  /** `start, end = segment` (`__iter__`): the smaller endpoint comes first. */
  function Endpoints(s: Segment): (r: (Vec3, Vec3))
    requires Canonical(s)
    ensures !Less(r.1, r.0)
    ensures NewSegment(r.0, r.1) == s
  {
    NewSegmentOfCanonical(s);
    (s.a, s.b)
  }

  /**
   * `is_point_on_segment`: the cross product of AB and AC has magnitude at
   * most `tol` (it is not divided by |AB|), and the dot product of AB and AC
   * lies between 0 and AB·AB.
   */
  predicate IsPointOnSegment(s: Segment, c: Vec3, tol: real): (r: bool)
    ensures r ==> 0.0 <= tol
    ensures 0.0 <= tol && (c == s.a || c == s.b) ==> r
  {
    var ab := Sub(s.b, s.a);
    var ac := Sub(c, s.a);
    Norm2NonNegative(ab);
    SquareNonNegative(tol);
    ProductsWithZero(ab);
    assert Cross(ab, ab) == Zero;
    WithinTolerance(Cross(ab, ac), tol) && 0.0 <= Dot(ab, ac) <= Dot(ab, ab)
  }

  // Arithmetic facts, each kept small so that the solver's non-linear
  // reasoning stays cheap.

  lemma SquareNonNegative(r: real)
    ensures r * r >= 0.0
  {
    if r < 0.0 {
      var m := -r;
      assert m * m > 0.0;
      assert r * r == m * m;
    }
  }

  lemma Norm2NonNegative(p: Vec3)
    ensures Norm2(p) >= 0.0
  {
    SquareNonNegative(p.x);
    SquareNonNegative(p.y);
    SquareNonNegative(p.z);
  }

  lemma ZeroWithinTolerance(tol: real)
    requires 0.0 <= tol
    ensures WithinTolerance(Zero, tol)
  {
    SquareNonNegative(tol);
  }

  lemma ProductsWithZero(q: Vec3)
    ensures Cross(q, Zero) == Zero && Cross(Zero, q) == Zero
    ensures Dot(q, Zero) == 0.0 && Dot(Zero, q) == 0.0
  {
  }

  lemma ScaledProducts(t: real, q: Vec3)
    ensures Cross(q, Scale(t, q)) == Zero
    ensures Dot(q, Scale(t, q)) == t * Dot(q, q)
  {
    assert q.y * (t * q.z) - q.z * (t * q.y) == 0.0;
    assert q.z * (t * q.x) - q.x * (t * q.z) == 0.0;
    assert q.x * (t * q.y) - q.y * (t * q.x) == 0.0;
    assert q.x * (t * q.x) + q.y * (t * q.y) + q.z * (t * q.z)
        == t * (q.x * q.x + q.y * q.y + q.z * q.z);
  }

  lemma ProductBounds(t: real, n: real)
    requires 0.0 <= t <= 1.0 && 0.0 <= n
    ensures 0.0 <= t * n <= n
  {
    assert n - t * n == (1.0 - t) * n;
  }

  lemma ScaledCrossWithin(ab: Vec3, t: real, tol: real)
    requires 0.0 <= tol
    ensures WithinTolerance(Cross(ab, Scale(t, ab)), tol)
  {
    ScaledProducts(t, ab);
    ZeroWithinTolerance(tol);
  }

  lemma ScaledDotBetween(ab: Vec3, t: real)
    requires 0.0 <= t <= 1.0
    ensures 0.0 <= Dot(ab, Scale(t, ab)) <= Dot(ab, ab)
  {
    ScaledProducts(t, ab);
    Norm2NonNegative(ab);
    ProductBounds(t, Dot(ab, ab));
  }

  // What the on-segment test accepts.

  /** Both endpoints of a segment are on it, for every tolerance that is not negative. */
  lemma EndpointsOnSegment(s: Segment, tol: real)
    requires 0.0 <= tol
    ensures IsPointOnSegment(s, s.a, tol)
    ensures IsPointOnSegment(s, s.b, tol)
  {
    var ab := Sub(s.b, s.a);
    Norm2NonNegative(ab);
    ZeroWithinTolerance(tol);
    assert Sub(s.a, s.a) == Zero;
    ProductsWithZero(ab);
    assert Cross(ab, ab) == Zero;
  }

  /** A zero-length segment accepts every point, because both products are zero. */
  lemma ZeroLengthSegmentAcceptsAll(s: Segment, c: Vec3, tol: real)
    requires s.a == s.b && 0.0 <= tol
    ensures IsPointOnSegment(s, c, tol)
  {
    assert Sub(s.b, s.a) == Zero;
    ProductsWithZero(Sub(c, s.a));
    ZeroWithinTolerance(tol);
  }

  /** Every point a + t(b - a) with 0 <= t <= 1 is on the segment, whatever the tolerance. */
  lemma PointsBetweenAreOnSegment(s: Segment, c: Vec3, t: real, tol: real)
    requires 0.0 <= t <= 1.0 && 0.0 <= tol
    requires Sub(c, s.a) == Scale(t, Sub(s.b, s.a))
    ensures IsPointOnSegment(s, c, tol)
  {
    ScaledCrossWithin(Sub(s.b, s.a), t, tol);
    ScaledDotBetween(Sub(s.b, s.a), t);
  }

  /** A negative tolerance accepts no point at all. */
  lemma NegativeToleranceRejectsAll(s: Segment, c: Vec3, tol: real)
    requires tol < 0.0
    ensures !IsPointOnSegment(s, c, tol)
  {
  }
}
