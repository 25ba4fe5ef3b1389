/**
 * Simulation containers (include/faunus/container.h).
 *
 * The C++ hierarchy `container` -> `cell`, `box` -> `slit`, `clutch`, `cylinder`
 * is a closed family, so it is one class `Container` whose `kind` selects the
 * variant; a virtual call is a `match` on `kind`. The class holds the union of
 * the variants' shape parameters. A `point &` that `boundary` and `scale` update
 * in place is a `PointRef`, a small class with the three coordinate fields.
 */
module Containers {
  import opened Points

  datatype Kind = Cell | Box | Slit | Clutch | Cylinder

  /** C++ `int(double)`: the integer part, truncating toward zero. */
  function Trunc(y: real): (n: int)
    ensures 0.0 <= y ==> n as real <= y < n as real + 1.0
    ensures y < 0.0 ==> n as real - 1.0 < y <= n as real
  {
    if 0.0 <= y then y.Floor else -((-y).Floor)
  }

  /** Truncation toward zero commutes with negation. */
  lemma TruncOdd(y: real)
    ensures Trunc(-y) == -Trunc(y)
  {
  }

  /**
   * `box::anint`: the nearest integer, halves rounded away from zero. The bounds
   * below determine the result (see `AnintUnique`).
   */
  function Anint(x: real): (n: int)
    ensures -0.5 <= x - n as real <= 0.5
    ensures 0.0 < x ==> x - n as real < 0.5
    ensures x <= 0.0 ==> -0.5 < x - n as real
  {
    Trunc(if x > 0.0 then x + 0.5 else x - 0.5)
  }

  /** Any integer within those bounds of `x` is `Anint(x)`. */
  lemma AnintUnique(x: real, k: int)
    requires -0.5 <= x - k as real <= 0.5
    requires 0.0 < x ==> x - k as real < 0.5
    requires x <= 0.0 ==> -0.5 < x - k as real
    ensures k == Anint(x)
  {
  }

  /** Ties go away from zero, and integers are fixed points. */
  lemma AnintTies(k: int)
    ensures Anint(0.5) == 1 && Anint(-0.5) == -1
    ensures Anint(k as real) == k
  {
  }

  /** Rounding is symmetric about zero. */
  lemma AnintOdd(x: real)
    ensures Anint(-x) == -Anint(x)
  {
    var n := Anint(x);
    if x < 0.0 || 0.0 < x {
      AnintUnique(-x, -n);
    }
  }

  /** `t` is a whole number. */
  predicate IsIntegral(t: real) {
    t.Floor as real == t
  }

  lemma ScaleBound(u: real, bound: real, f: real)
    requires Abs(u) <= bound && 0.0 <= f
    ensures Abs(u * f) <= bound * f
  {
    var uf, bf := u * f, bound * f;
    if 0.0 <= u {
      assert uf <= bf;
    } else {
      var w := -u;
      assert w * f <= bf;
    }
  }

  lemma DivideMultiple(len: real, m: real, v: real)
    requires 0.0 < len && m == len * v
    ensures m / len == v
  {
  }

  /**
   * Subtracting `len` times an integer within one half of `c / len` lands in
   * [-len/2, len/2], and the shift is a whole number of box lengths.
   */
  lemma FoldBound(len: real, c: real, n: int, d: real)
    requires 0.0 < len && d == c - len * n as real
    requires Abs(c / len - n as real) <= 0.5
    ensures Abs(d) <= len / 2.0
    ensures IsIntegral((c - d) / len)
  {
    var t := c / len - n as real;
    ScaleBound(t, 0.5, len);
    var q := c / len;
    assert q * len == c;
    assert t * len == d;
    var k := n as real;
    var m := c - d;
    assert m == len * k;
    DivideMultiple(len, m, k);
    assert IsIntegral(k);
  }

  /** `c - len*anint(c/len)`: `c` shifted by `len` times the nearest integer to `c / len`. */
  function BoxShift(len: real, c: real): real
    requires 0.0 < len
  {
    c - len * Anint(c / len) as real
  }

  /** One axis of `box::boundary`: only a coordinate beyond a face is shifted. */
  function BoxFold(len: real, lenHalf: real, c: real): real
    requires 0.0 < len
  {
    if Abs(c) > lenHalf then BoxShift(len, c) else c
  }

  /**
   * The box fold moves a coordinate outside [-len/2, len/2] by a whole number
   * of box lengths into it, and leaves a coordinate inside alone.
   */
  lemma BoxFoldIntoCell(len: real, lenHalf: real, c: real)
    requires 0.0 < len && lenHalf == len / 2.0
    ensures Abs(BoxFold(len, lenHalf, c)) <= lenHalf
    ensures Abs(c) <= lenHalf ==> BoxFold(len, lenHalf, c) == c
    ensures IsIntegral((c - BoxFold(len, lenHalf, c)) / len)
  {
    if Abs(c) > lenHalf {
      FoldBound(len, c, Anint(c / len), BoxShift(len, c));
    } else {
      assert c - c == 0.0;
      assert IsIntegral(0.0);
    }
  }

  lemma BoxFoldIdempotent(len: real, lenHalf: real, c: real)
    requires 0.0 < len && lenHalf == len / 2.0
    ensures BoxFold(len, lenHalf, BoxFold(len, lenHalf, c)) == BoxFold(len, lenHalf, c)
  {
    BoxFoldIntoCell(len, lenHalf, c);
  }

  /** One axis of `slit::boundary`: unguarded, always shifting by `len` times the rounded `c * len_inv`. */
  function SlitFold(len: real, lenInv: real, c: real): real
  {
    c - len * Anint(c * lenInv) as real
  }

  /** The slit fold always lands in [-len/2, len/2], by a whole number of lengths. */
  lemma SlitFoldIntoCell(len: real, lenInv: real, c: real)
    requires 0.0 < len && lenInv == 1.0 / len
    ensures Abs(SlitFold(len, lenInv, c)) <= len / 2.0
    ensures IsIntegral((c - SlitFold(len, lenInv, c)) / len)
  {
    assert c * lenInv == c / len;
    FoldBound(len, c, Anint(c * lenInv), SlitFold(len, lenInv, c));
  }

  lemma MulMonotone(u: real, v: real, f: real)
    requires u <= v && 0.0 <= f
    ensures u * f <= v * f
  {
    var uf, vf := u * f, v * f;
    assert uf <= vf;
  }

  lemma QuotientBelowHalf(len: real, c: real)
    requires 0.0 < len && Abs(c) < len / 2.0
    ensures -0.5 < c / len < 0.5
  {
    var q := c / len;
    assert q * len == c;
    if 0.5 <= q {
      MulMonotone(0.5, q, len);
    } else if q <= -0.5 {
      MulMonotone(q, -0.5, len);
    }
  }

  /** Strictly inside the cell the slit fold changes nothing. */
  lemma SlitFoldKeepsInterior(len: real, lenInv: real, c: real)
    requires 0.0 < len && lenInv == 1.0 / len
    requires Abs(c) < len / 2.0
    ensures SlitFold(len, lenInv, c) == c
  {
    var q := c * lenInv;
    assert q == c / len;
    QuotientBelowHalf(len, c);
    AnintUnique(q, 0);
  }

  /**
   * On a face the slit fold is not idempotent: -len/2 goes to len/2 (because
   * `anint(-0.5) == -1`) and len/2 goes back to -len/2.
   */
  lemma SlitFoldFlipsOnFace(len: real, lenInv: real)
    requires 0.0 < len && lenInv == 1.0 / len
    ensures SlitFold(len, lenInv, -(len / 2.0)) == len / 2.0
    ensures SlitFold(len, lenInv, len / 2.0) == -(len / 2.0)
  {
    var h := len / 2.0;
    assert h * lenInv == 0.5;
    assert -h * lenInv == -0.5;
    AnintTies(0);
  }

  /** A point passed by reference (`point &`), whose coordinates a call may overwrite. */
  class PointRef {
    var x: real
    var y: real
    var z: real

    constructor (p: Point)
      ensures Value() == p
    {
      x, y, z := p.x, p.y, p.z;
    }

    function Value(): Point
      reads this
    {
      Point(x, y, z)
    }
  }

  class Container {
    var kind: Kind
    /** Radius and squared radius (`cell`, `clutch`, `cylinder`). */
    var r: real
    var r2: real
    /** Side length (`box`, `slit`) or cylinder length, half of it and its inverse. */
    var len: real
    var lenHalf: real
    var lenInv: real
    /** The excluded band of a `clutch`. */
    var zmin: real
    var zmax: real

    /**
     * What the unseen constructors, `setlen` and `setradius` are taken to
     * establish: a periodic box has positive length with `len_half` and
     * `len_inv` kept consistent; a round container's `r2` is the square of a
     * non-negative radius.
     */
    ghost predicate Valid()
      reads this
    {
      match kind
      case Box | Slit => 0.0 < len && lenHalf == len / 2.0 && lenInv == 1.0 / len
      case Cell | Clutch | Cylinder => 0.0 <= r && r2 == r * r
    }

    predicate IsPeriodic()
      reads this
    {
      kind == Box || kind == Slit
    }

    constructor InitCell(radius: real)
      requires 0.0 <= radius
      ensures Valid() && kind == Cell && r == radius
    {
      kind, r, r2 := Cell, radius, radius * radius;
      len, lenHalf, lenInv, zmin, zmax := 0.0, 0.0, 0.0, 0.0, 0.0;
    }

    constructor InitBox(length: real)
      requires 0.0 < length
      ensures Valid() && kind == Box && len == length
    {
      kind, len, lenHalf, lenInv := Box, length, length / 2.0, 1.0 / length;
      r, r2, zmin, zmax := 0.0, 0.0, 0.0, 0.0;
    }

    /**
     * `slit` declares no constructor of its own; this is the one it is assumed
     * to have, building its box part from a side length as `box(double)` does.
     */
    constructor InitSlit(length: real)
      requires 0.0 < length
      ensures Valid() && kind == Slit && len == length
    {
      kind, len, lenHalf, lenInv := Slit, length, length / 2.0, 1.0 / length;
      r, r2, zmin, zmax := 0.0, 0.0, 0.0, 0.0;
    }

    constructor InitClutch(radius: real, bandMin: real, bandMax: real)
      requires 0.0 <= radius
      ensures Valid() && kind == Clutch && r == radius && zmin == bandMin && zmax == bandMax
    {
      kind, r, r2, zmin, zmax := Clutch, radius, radius * radius, bandMin, bandMax;
      len, lenHalf, lenInv := 0.0, 0.0, 0.0;
    }

    constructor InitCylinder(length: real, radius: real)
      requires 0.0 <= radius
      ensures Valid() && kind == Cylinder && len == length && r == radius
    {
      kind, len, r, r2 := Cylinder, length, radius, radius * radius;
      lenHalf, lenInv, zmin, zmax := 0.0, 0.0, 0.0, 0.0;
    }

    /** `collision`, as each variant defines it (a slit uses the box test). */
    predicate Collision(a: Point)
      reads this
    {
      match kind
      case Cell => a.x * a.x + a.y * a.y + a.z * a.z > r2
      case Box | Slit => Abs(a.x) > lenHalf || Abs(a.y) > lenHalf || Abs(a.z) > lenHalf
      case Clutch => (a.z < zmax && a.z > zmin) || a.x * a.x + a.y * a.y + a.z * a.z > r2
      case Cylinder => a.x * a.x + a.y * a.y > r2 || a.z < 0.0 || a.z > len
    }

    /** A cell collides exactly outside the closed ball of radius `r`; the surface is inside. */
    lemma CellCollisionIff(a: Point, sqrt: real -> real)
      requires Valid() && kind == Cell && IsSqrt(sqrt)
      ensures Collision(a) <==> r < Dist(Origin, a, sqrt)
      ensures Dist(Origin, a, sqrt) == r ==> !Collision(a)
    {
      var d := Dist(Origin, a, sqrt);
      assert d * d == a.x * a.x + a.y * a.y + a.z * a.z;
      SquareLess(r, d);
    }

    /** A box (or slit) admits exactly the closed cube of side `len`, faces included. */
    lemma BoxCollisionIff(a: Point)
      requires Valid() && IsPeriodic()
      ensures !Collision(a) <==>
        -lenHalf <= a.x <= lenHalf && -lenHalf <= a.y <= lenHalf && -lenHalf <= a.z <= lenHalf
    {
    }

    /**
     * A clutch collides everywhere strictly inside the band, whatever x and y;
     * elsewhere, including on the band's two planes, exactly outside the ball.
     */
    lemma ClutchCollisionIff(a: Point, sqrt: real -> real)
      requires Valid() && kind == Clutch && IsSqrt(sqrt)
      ensures zmin < a.z < zmax ==> Collision(a)
      ensures !(zmin < a.z < zmax) ==> (Collision(a) <==> r < Dist(Origin, a, sqrt))
      ensures (a.z == zmin || a.z == zmax) ==> (Collision(a) <==> r < Dist(Origin, a, sqrt))
    {
      var d := Dist(Origin, a, sqrt);
      assert d * d == a.x * a.x + a.y * a.y + a.z * a.z;
      SquareLess(r, d);
    }

    /**
     * A cylinder collides exactly when the point is farther than `r` from the z
     * axis, or its z lies outside [0, len].
     */
    lemma CylinderCollisionIff(a: Point, sqrt: real -> real)
      requires Valid() && kind == Cylinder && IsSqrt(sqrt)
      ensures Collision(a) <==> r < Dist(Point(0.0, 0.0, a.z), a, sqrt) || a.z < 0.0 || len < a.z
    {
      var d := Dist(Point(0.0, 0.0, a.z), a, sqrt);
      assert d * d == a.x * a.x + a.y * a.y;
      SquareLess(r, d);
    }

    /** The point `boundary` leaves behind: folded per axis in a box, in x and y in a slit, unchanged otherwise. */
    function BoundaryImage(a: Point): Point
      requires Valid()
      reads this
    {
      match kind
      case Box => Point(BoxFold(len, lenHalf, a.x), BoxFold(len, lenHalf, a.y), BoxFold(len, lenHalf, a.z))
      case Slit => Point(SlitFold(len, lenInv, a.x), SlitFold(len, lenInv, a.y), a.z)
      case Cell | Clutch | Cylinder => a
    }

    /** `boundary(a)`: applies the boundary conditions of this container to `a` in place. */
    method Boundary(a: PointRef)
      requires Valid()
      modifies a
      ensures a.Value() == BoundaryImage(old(a.Value()))
    {
      match kind
      case Box => BoxBoundary(a);
      case Slit => SlitBoundary(a);
      case Cell | Clutch | Cylinder =>
    }

    /** `box::boundary`: each axis beyond a face is folded back by whole box lengths. */
    method BoxBoundary(a: PointRef)
      requires Valid() && kind == Box
      modifies a
      ensures a.Value() == BoundaryImage(old(a.Value()))
    {
      if Abs(a.x) > lenHalf { a.x := BoxShift(len, a.x); }
      if Abs(a.y) > lenHalf { a.y := BoxShift(len, a.y); }
      if Abs(a.z) > lenHalf { a.z := BoxShift(len, a.z); }
    }

    /** `slit::boundary`: x and y are always folded, z is left alone. */
    method SlitBoundary(a: PointRef)
      requires Valid() && kind == Slit
      modifies a
      ensures a.Value() == BoundaryImage(old(a.Value()))
    {
      a.x := SlitFold(len, lenInv, a.x);
      a.y := SlitFold(len, lenInv, a.y);
    }

    /**
     * In a box, `boundary` moves each coordinate only when it is beyond a face,
     * and then by a whole number of box lengths; afterwards there is no collision.
     */
    lemma BoxBoundaryIntoCell(a: Point)
      requires Valid() && kind == Box
      ensures !Collision(BoundaryImage(a))
      ensures Abs(a.x) <= lenHalf ==> BoundaryImage(a).x == a.x
      ensures Abs(a.y) <= lenHalf ==> BoundaryImage(a).y == a.y
      ensures Abs(a.z) <= lenHalf ==> BoundaryImage(a).z == a.z
      ensures IsIntegral((a.x - BoundaryImage(a).x) / len)
      ensures IsIntegral((a.y - BoundaryImage(a).y) / len)
      ensures IsIntegral((a.z - BoundaryImage(a).z) / len)
    {
      BoxFoldIntoCell(len, lenHalf, a.x);
      BoxFoldIntoCell(len, lenHalf, a.y);
      BoxFoldIntoCell(len, lenHalf, a.z);
    }

    /** Box boundary conditions applied twice are applied once; a point that does not collide is not moved. */
    lemma BoxBoundaryIdempotent(a: Point)
      requires Valid() && kind == Box
      ensures BoundaryImage(BoundaryImage(a)) == BoundaryImage(a)
      ensures !Collision(a) ==> BoundaryImage(a) == a
    {
      BoxFoldIdempotent(len, lenHalf, a.x);
      BoxFoldIdempotent(len, lenHalf, a.y);
      BoxFoldIdempotent(len, lenHalf, a.z);
    }

    /** In a slit, `boundary` never touches z and leaves |x| and |y| at most len/2. */
    lemma SlitBoundaryIntoCell(a: Point)
      requires Valid() && kind == Slit
      ensures BoundaryImage(a).z == a.z
      ensures Abs(BoundaryImage(a).x) <= lenHalf && Abs(BoundaryImage(a).y) <= lenHalf
      ensures IsIntegral((a.x - BoundaryImage(a).x) / len)
      ensures IsIntegral((a.y - BoundaryImage(a).y) / len)
      ensures Collision(BoundaryImage(a)) <==> Abs(a.z) > lenHalf
    {
      SlitFoldIntoCell(len, lenInv, a.x);
      SlitFoldIntoCell(len, lenInv, a.y);
    }

    /** Strictly inside the slab's periodic cell, slit boundary conditions change nothing. */
    lemma SlitBoundaryKeepsInterior(a: Point)
      requires Valid() && kind == Slit
      requires Abs(a.x) < lenHalf && Abs(a.y) < lenHalf
      ensures BoundaryImage(a) == a
    {
      SlitFoldKeepsInterior(len, lenInv, a.x);
      SlitFoldKeepsInterior(len, lenInv, a.y);
    }

    /**
     * Slit boundary conditions are not idempotent: a point with x == -len/2 is
     * sent to x == len/2, and the next application sends it back.
     */
    lemma SlitBoundaryNotIdempotent(a: Point)
      requires Valid() && kind == Slit
      requires a.x == -lenHalf && Abs(a.y) < lenHalf
      ensures BoundaryImage(a) == a.(x := lenHalf)
      ensures BoundaryImage(BoundaryImage(a)) == a
      ensures BoundaryImage(BoundaryImage(a)) != BoundaryImage(a)
    {
      SlitFoldFlipsOnFace(len, lenInv);
      SlitFoldKeepsInterior(len, lenInv, a.y);
    }

    /** The point `scale` leaves behind: multiplied by `newlen / len` in a box or slit, unchanged otherwise. */
    function ScaleImage(a: Point, newlen: real): Point
      requires Valid()
      reads this
    {
      if IsPeriodic() then Scaled(a, newlen / len) else a
    }

    /** `scale(a, newlen)`: rescales `a` in place for a box of side `newlen`. */
    method Scale(a: PointRef, newlen: real)
      requires Valid()
      modifies a
      ensures a.Value() == ScaleImage(old(a.Value()), newlen)
    {
      if IsPeriodic() {
        var f := newlen / len;
        a.x, a.y, a.z := a.x * f, a.y * f, a.z * f;
      }
    }

    /** Rescaling a box to its current length changes nothing. */
    lemma ScaleToOwnLength(a: Point)
      requires Valid() && IsPeriodic()
      ensures ScaleImage(a, len) == a
    {
      assert len / len == 1.0;
      ScaledLaws(a, 1.0, 1.0);
    }

    /** A point inside the box of side `len` is rescaled into the box of side `newlen`. */
    lemma ScaleKeepsInside(a: Point, newlen: real)
      requires Valid() && IsPeriodic()
      requires 0.0 < newlen && !Collision(a)
      ensures Abs(ScaleImage(a, newlen).x) <= newlen / 2.0
      ensures Abs(ScaleImage(a, newlen).y) <= newlen / 2.0
      ensures Abs(ScaleImage(a, newlen).z) <= newlen / 2.0
    {
      ScaledIntoBox(len, newlen, a);
    }

    /** The base `scale` and `boundary` change nothing for a non-periodic container. */
    lemma DefaultsChangeNothing(a: Point, newlen: real)
      requires Valid() && !IsPeriodic()
      ensures ScaleImage(a, newlen) == a && BoundaryImage(a) == a
    {
    }

    /** The base `setvolume`: it does nothing. */
    method SetVolume(v: real)
      requires !IsPeriodic()
      ensures unchanged(this)
    {
    }

    /** The base `sqdist`: the plain squared Euclidean distance. */
    function SqDist(a: Point, b: Point): (d: real)
      requires !IsPeriodic()
      reads this
      ensures d == (a.x - b.x) * (a.x - b.x) + (a.y - b.y) * (a.y - b.y) + (a.z - b.z) * (a.z - b.z)
      ensures d == 0.0 <==> a == b
    {
      SqDistZero(a, b);
      Points.SqDist(a, b)
    }

    /** The base `dist`: the Euclidean distance, the non-negative root of `SqDist`. */
    function Dist(a: Point, b: Point, sqrt: real -> real): (d: real)
      requires !IsPeriodic() && IsSqrt(sqrt)
      reads this
      ensures 0.0 <= d && d * d == SqDist(a, b)
      ensures d == 0.0 <==> a == b
    {
      Points.Dist(a, b, sqrt)
    }
  }

  lemma ScaledIntoBox(len: real, newlen: real, a: Point)
    requires 0.0 < len && 0.0 < newlen
    requires Abs(a.x) <= len / 2.0 && Abs(a.y) <= len / 2.0 && Abs(a.z) <= len / 2.0
    ensures var s := Scaled(a, newlen / len);
      Abs(s.x) <= newlen / 2.0 && Abs(s.y) <= newlen / 2.0 && Abs(s.z) <= newlen / 2.0
  {
    var f := newlen / len;
    var s := Scaled(a, f);
    ScaleHalf(len, newlen, f, a.x, s.x);
    ScaleHalf(len, newlen, f, a.y, s.y);
    ScaleHalf(len, newlen, f, a.z, s.z);
  }

  lemma ScaleHalf(len: real, newlen: real, f: real, u: real, v: real)
    requires 0.0 < len && 0.0 < newlen && f == newlen / len
    requires Abs(u) <= len / 2.0 && v == u * f
    ensures Abs(v) <= newlen / 2.0
  {
    ScaleBound(u, len / 2.0, f);
    assert (len / 2.0) * f == newlen / 2.0;
  }
}
