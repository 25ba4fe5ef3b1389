/**
 * Cartesian points and particles of the biosim prototype (point.h).
 *
 * Doubles are modelled as mathematical reals. The C library's `sqrt` is code
 * this model cannot see: every operation that takes a square root receives it
 * as a parameter `sqrt` and requires only the law `IsSqrt(sqrt)`.
 */
module Points {

  /** A coordinate triple. Any real triple is a valid point. */
  datatype Point = Point(x: real, y: real, z: real)

  /** The point with all coordinates zero (what `point()` constructs). */
  const Origin := Point(0.0, 0.0, 0.0)

  /** `particle::type`: the species tag of a particle. */
  datatype ParticleType =
    | First | Gly | Ala | Val | Leu | Ile | Phe | Trp | Tyr | His | Ser | Thr | Met | Cys
    | Asp | Gln | Glu | Asn | Lys | Arg | Pro | Unk | Ntr | Ctr | Na | K | Cl | Br | I
    | Ion | Cation | Anion | Ghost | Rnh3 | Rnh4 | Rcooh | Rcoo | Last

  /** A particle is a point plus charge, radius, molecular weight and species. */
  datatype Particle = Particle(pos: Point, charge: real, radius: real, mw: real, id: ParticleType)

  /** The law of the square root the model is given: non-negative, and squaring it gives back its argument. */
  ghost predicate IsSqrt(sqrt: real -> real) {
    forall u: real :: 0.0 <= u ==> 0.0 <= sqrt(u) && sqrt(u) * sqrt(u) == u
  }

  function Abs(u: real): real {
    if u < 0.0 then -u else u
  }

  /** `point * double`: every coordinate multiplied by the factor. */
  function Scaled(a: Point, f: real): Point
  {
    Point(a.x * f, a.y * f, a.z * f)
  }

  /** Scaling by one is the identity, by zero gives the origin, and two scalings compose. */
  lemma ScaledLaws(a: Point, f: real, g: real)
    ensures Scaled(a, 1.0) == a
    ensures Scaled(a, 0.0) == Origin
    ensures Scaled(Scaled(a, f), g) == Scaled(a, f * g)
  {
    MulAssociative(a.x, f, g);
    MulAssociative(a.y, f, g);
    MulAssociative(a.z, f, g);
  }

  lemma MulAssociative(u: real, f: real, g: real)
    ensures (u * f) * g == u * (f * g)
  {
  }

  lemma SquareNonNegative(u: real)
    ensures 0.0 <= u * u
  {
    if u < 0.0 {
      var w := -u;
      assert 0.0 < w * w;
      assert u * u == w * w;
    } else if 0.0 < u {
      assert 0.0 < u * u;
    }
  }

  /** For non-negative reals, comparing squares is comparing the numbers. */
  lemma SquareLess(u: real, v: real)
    requires 0.0 <= u && 0.0 <= v
    ensures u * u < v * v <==> u < v
  {
    var uu, uv, vv := u * u, u * v, v * v;
    if u < v {
      assert uu <= uv;
      assert uv < vv;
    } else {
      assert vv <= uv;
      assert uv <= uu;
    }
  }

  /** A non-negative number is determined by its square. */
  lemma SquareInjective(u: real, v: real)
    requires 0.0 <= u && 0.0 <= v && u * u == v * v
    ensures u == v
  {
    SquareLess(u, v);
    SquareLess(v, u);
  }

  lemma AbsSquare(u: real)
    ensures 0.0 <= Abs(u) && Abs(u) * Abs(u) == u * u
  {
    if u < 0.0 {
      var w := -u;
      assert Abs(u) == w;
      assert w * w == u * u;
    }
  }

  /** Only zero squares to zero. */
  lemma SquareZero(u: real)
    requires u * u == 0.0
    ensures u == 0.0
  {
    AbsSquare(u);
    SquareInjective(Abs(u), 0.0);
  }

  /** `point::sqdist`: the squared Euclidean distance. It is never negative and vanishes between a point and itself. */
  function SqDist(a: Point, b: Point): (d: real)
    ensures 0.0 <= d
    ensures a == b ==> d == 0.0
  {
    var dx := a.x - b.x;
    var dy := a.y - b.y;
    var dz := a.z - b.z;
    SquareNonNegative(dx);
    SquareNonNegative(dy);
    SquareNonNegative(dz);
    dx * dx + dy * dy + dz * dz
  }

  /** The squared distance is zero exactly between a point and itself. */
  lemma SqDistZero(a: Point, b: Point)
    ensures SqDist(a, b) == 0.0 <==> a == b
  {
    if SqDist(a, b) == 0.0 {
      var dx := a.x - b.x;
      var dy := a.y - b.y;
      var dz := a.z - b.z;
      SquareNonNegative(dx);
      SquareNonNegative(dy);
      SquareNonNegative(dz);
      assert dx * dx == 0.0 && dy * dy == 0.0 && dz * dz == 0.0;
      SquareZero(dx);
      SquareZero(dy);
      SquareZero(dz);
    }
  }

  lemma SqDistSymmetric(a: Point, b: Point)
    ensures SqDist(a, b) == SqDist(b, a)
  {
  }

  lemma SqrtLaw(sqrt: real -> real, u: real)
    requires IsSqrt(sqrt) && 0.0 <= u
    ensures 0.0 <= sqrt(u) && sqrt(u) * sqrt(u) == u
  {
  }

  /**
   * `point::dist`: `sqrt(sqdist)`. It is non-negative, its square is exactly
   * `SqDist`, and it is zero exactly between a point and itself.
   */
  function Dist(a: Point, b: Point, sqrt: real -> real): (d: real)
    requires IsSqrt(sqrt)
    ensures 0.0 <= d && d * d == SqDist(a, b)
    ensures d == 0.0 <==> a == b
  {
    var s := SqDist(a, b);
    SqrtLaw(sqrt, s);
    var d := sqrt(s);
    if a == b then
      SquareInjective(d, 0.0);
      d
    else if d == 0.0 then
      SqDistZero(a, b);
      d
    else
      d
  }

  /** The distance is the unique non-negative root of the squared distance, whatever `sqrt` is given. */
  lemma DistIsTheRoot(a: Point, b: Point, sqrt: real -> real, d: real)
    requires IsSqrt(sqrt)
    requires 0.0 <= d && d * d == SqDist(a, b)
    ensures Dist(a, b, sqrt) == d
  {
    SquareInjective(Dist(a, b, sqrt), d);
  }

  lemma DistSymmetric(a: Point, b: Point, sqrt: real -> real)
    requires IsSqrt(sqrt)
    ensures Dist(a, b, sqrt) == Dist(b, a, sqrt)
  {
    SqDistSymmetric(a, b);
  }

  /** `point::invdist`: `1 / sqrt(sqdist)`, the reciprocal of the distance; the two points must differ. */
  function InvDist(a: Point, b: Point, sqrt: real -> real): (v: real)
    requires IsSqrt(sqrt)
    requires a != b
    ensures 0.0 < v && v * Dist(a, b, sqrt) == 1.0
  {
    1.0 / Dist(a, b, sqrt)
  }

  /**
   * `particle::potential`: the charge divided by the distance from the particle to `q`
   * (not multiplied by the Bjerrum length). The distance must not be zero.
   */
  function Potential(p: Particle, q: Point, sqrt: real -> real): (phi: real)
    requires IsSqrt(sqrt)
    requires p.pos != q
    ensures phi * Dist(p.pos, q, sqrt) == p.charge
    ensures 0.0 < phi <==> 0.0 < p.charge
    ensures phi < 0.0 <==> p.charge < 0.0
  {
    p.charge / Dist(p.pos, q, sqrt)
  }

  /** `particle::overlap`: the squared centre distance is strictly below the squared sum of the radii. */
  predicate Overlap(p: Particle, q: Particle) {
    var s := p.radius + q.radius;
    SqDist(p.pos, q.pos) < s * s
  }

  lemma OverlapSymmetric(p: Particle, q: Particle)
    ensures Overlap(p, q) == Overlap(q, p)
  {
    SqDistSymmetric(p.pos, q.pos);
  }

  /**
   * The square-free test agrees with the geometric one: two particles overlap exactly
   * when their centres are closer than the (absolute) sum of their radii. Touching
   * spheres, at exactly that distance, do not overlap.
   */
  lemma OverlapIffCloserThanContact(p: Particle, q: Particle, sqrt: real -> real)
    requires IsSqrt(sqrt)
    ensures Overlap(p, q) <==> Dist(p.pos, q.pos, sqrt) < Abs(p.radius + q.radius)
    ensures Dist(p.pos, q.pos, sqrt) == Abs(p.radius + q.radius) ==> !Overlap(p, q)
  {
    var s := p.radius + q.radius;
    AbsSquare(s);
    SquareLess(Dist(p.pos, q.pos, sqrt), Abs(s));
  }

  /**
   * `particle::operator=(point)`: copies the coordinates of `q` into `p`; charge,
   * radius, molecular weight and species stay those of `p`.
   */
  function AssignCoordinates(p: Particle, q: Point): (r: Particle)
    ensures r.pos == q
    ensures r.charge == p.charge && r.radius == p.radius && r.mw == p.mw && r.id == p.id
  {
    p.(pos := q)
  }

  /** Coordinate assignment is the identity with a particle's own position, and the last one wins. */
  lemma AssignCoordinatesLaws(p: Particle, q1: Point, q2: Point)
    ensures AssignCoordinates(p, p.pos) == p
    ensures AssignCoordinates(AssignCoordinates(p, q1), q2) == AssignCoordinates(p, q2)
  {
  }
}
