/** Complete point addition and doubling in projective coordinates on y^2 = x^3 + a*x + b, after
    Renes, Costello and Batina: one version for every a, one for a = -3 and one for a = 0.
    Coordinates are field elements, represented as in PrimeField. */
module PointArithmetic {

  datatype Point = Point(x: int, y: int, z: int)

  datatype AffinePoint = AffinePoint(x: int, y: int, infinity: bool)

  const IDENTITY := Point(0, 1, 0)

  function Double(x: int): int {
    x + x
  }

  // ----- any a

  function Add(a: int, b: int, lhs: Point, rhs: Point): Point {
    var b3 := 3 * b;
    var t0 := lhs.x * rhs.x;
    var t1 := lhs.y * rhs.y;
    var t2 := lhs.z * rhs.z;
    var t3 := lhs.x + lhs.y;
    var t4 := rhs.x + rhs.y;
    var t3 := t3 * t4;
    var t4 := t0 + t1;
    var t3 := t3 - t4;
    var t4 := lhs.x + lhs.z;
    var t5 := rhs.x + rhs.z;
    var t4 := t4 * t5;
    var t5 := t0 + t2;
    var t4 := t4 - t5;
    var t5 := lhs.y + lhs.z;
    var x3 := rhs.y + rhs.z;
    var t5 := t5 * x3;
    var x3 := t1 + t2;
    var t5 := t5 - x3;
    var z3 := a * t4;
    var x3 := b3 * t2;
    var z3 := x3 + z3;
    var x3 := t1 - z3;
    var z3 := t1 + z3;
    var y3 := x3 * z3;
    var t1 := t0 + t0;
    var t1 := t1 + t0;
    var t2 := a * t2;
    var t4 := b3 * t4;
    var t1 := t1 + t2;
    var t2 := t0 - t2;
    var t2 := a * t2;
    var t4 := t4 + t2;
    var t0 := t1 * t4;
    var y3 := y3 + t0;
    var t0 := t5 * t4;
    var x3 := t3 * x3;
    var x3 := x3 - t0;
    var t0 := t3 * t1;
    var z3 := t5 * z3;
    var z3 := z3 + t0;
    Point(x3, y3, z3)
  }

  function AddMixed(a: int, b: int, lhs: Point, rhs: AffinePoint): Point {
    var b3 := b * 3;
    var t0 := lhs.x * rhs.x;
    var t1 := lhs.y * rhs.y;
    var t3 := rhs.x + rhs.y;
    var t4 := lhs.x + lhs.y;
    var t3 := t3 * t4;
    var t4 := t0 + t1;
    var t3 := t3 - t4;
    var t4 := rhs.x * lhs.z;
    var t4 := t4 + lhs.x;
    var t5 := rhs.y * lhs.z;
    var t5 := t5 + lhs.y;
    var z3 := a * t4;
    var x3 := b3 * lhs.z;
    var z3 := x3 + z3;
    var x3 := t1 - z3;
    var z3 := t1 + z3;
    var y3 := x3 * z3;
    var t1 := t0 + t0;
    var t1 := t1 + t0;
    var t2 := a * lhs.z;
    var t4 := b3 * t4;
    var t1 := t1 + t2;
    var t2 := t0 - t2;
    var t2 := a * t2;
    var t4 := t4 + t2;
    var t0 := t1 * t4;
    var y3 := y3 + t0;
    var t0 := t5 * t4;
    var x3 := t3 * x3;
    var x3 := x3 - t0;
    var t0 := t3 * t1;
    var z3 := t5 * z3;
    var z3 := z3 + t0;
    if rhs.infinity then lhs else Point(x3, y3, z3)
  }

  function DoublePoint(a: int, b: int, point: Point): Point {
    var b3 := b * 3;
    var t0 := point.x * point.x;
    var t1 := point.y * point.y;
    var t2 := point.z * point.z;
    var t3 := point.x * point.y;
    var t3 := t3 + t3;
    var z3 := point.x * point.z;
    var z3 := z3 + z3;
    var x3 := a * z3;
    var y3 := b3 * t2;
    var y3 := x3 + y3;
    var x3 := t1 - y3;
    var y3 := t1 + y3;
    var y3 := x3 * y3;
    var x3 := t3 * x3;
    var z3 := b3 * z3;
    var t2 := a * t2;
    var t3 := t0 - t2;
    var t3 := a * t3;
    var t3 := t3 + z3;
    var z3 := t0 + t0;
    var t0 := z3 + t0;
    var t0 := t0 + t2;
    var t0 := t0 * t3;
    var y3 := y3 + t0;
    var t2 := point.y * point.z;
    var t2 := t2 + t2;
    var t0 := t2 * t3;
    var x3 := x3 - t0;
    var z3 := t2 * t1;
    var z3 := z3 + z3;
    var z3 := z3 + z3;
    Point(x3, y3, z3)
  }

  // ----- a = -3

  function AddMinusThree(b: int, lhs: Point, rhs: Point): Point {
    var xx := lhs.x * rhs.x;
    var yy := lhs.y * rhs.y;
    var zz := lhs.z * rhs.z;
    var xyPairs := (lhs.x + lhs.y) * (rhs.x + rhs.y) - (xx + yy);
    var yzPairs := (lhs.y + lhs.z) * (rhs.y + rhs.z) - (yy + zz);
    var xzPairs := (lhs.x + lhs.z) * (rhs.x + rhs.z) - (xx + zz);
    var bzzPart := xzPairs - b * zz;
    var bzz3Part := Double(bzzPart) + bzzPart;
    var yyMBzz3 := yy - bzz3Part;
    var yyPBzz3 := yy + bzz3Part;
    var zz3 := Double(zz) + zz;
    var bxzPart := b * xzPairs - (zz3 + xx);
    var bxz3Part := Double(bxzPart) + bxzPart;
    var xx3MZz3 := Double(xx) + xx - zz3;
    Point(yyPBzz3 * xyPairs - yzPairs * bxz3Part,
          yyPBzz3 * yyMBzz3 + xx3MZz3 * bxz3Part,
          yyMBzz3 * yzPairs + xyPairs * xx3MZz3)
  }

  function AddMixedMinusThree(b: int, lhs: Point, rhs: AffinePoint): Point {
    var xx := lhs.x * rhs.x;
    var yy := lhs.y * rhs.y;
    var xyPairs := (lhs.x + lhs.y) * (rhs.x + rhs.y) - (xx + yy);
    var yzPairs := rhs.y * lhs.z + lhs.y;
    var xzPairs := rhs.x * lhs.z + lhs.x;
    var bzPart := xzPairs - b * lhs.z;
    var bz3Part := Double(bzPart) + bzPart;
    var yyMBzz3 := yy - bz3Part;
    var yyPBzz3 := yy + bz3Part;
    var z3 := Double(lhs.z) + lhs.z;
    var bxzPart := b * xzPairs - (z3 + xx);
    var bxz3Part := Double(bxzPart) + bxzPart;
    var xx3MZz3 := Double(xx) + xx - z3;
    if rhs.infinity then lhs
    else Point(yyPBzz3 * xyPairs - yzPairs * bxz3Part,
               yyPBzz3 * yyMBzz3 + xx3MZz3 * bxz3Part,
               yyMBzz3 * yzPairs + xyPairs * xx3MZz3)
  }

  function DoubleMinusThree(b: int, point: Point): Point {
    var xx := point.x * point.x;
    var yy := point.y * point.y;
    var zz := point.z * point.z;
    var xy2 := Double(point.x * point.y);
    var xz2 := Double(point.x * point.z);
    var bzzPart := b * zz - xz2;
    var bzz3Part := Double(bzzPart) + bzzPart;
    var yyMBzz3 := yy - bzz3Part;
    var yyPBzz3 := yy + bzz3Part;
    var yFrag := yyPBzz3 * yyMBzz3;
    var xFrag := yyMBzz3 * xy2;
    var zz3 := Double(zz) + zz;
    var bxz2Part := b * xz2 - (zz3 + xx);
    var bxz6Part := Double(bxz2Part) + bxz2Part;
    var xx3MZz3 := Double(xx) + xx - zz3;
    var y := yFrag + xx3MZz3 * bxz6Part;
    var yz2 := Double(point.y * point.z);
    var x := xFrag - bxz6Part * yz2;
    var z := Double(Double(yz2 * yy));
    Point(x, y, z)
  }

  // ----- a = 0

  function AddZero(b: int, lhs: Point, rhs: Point): Point {
    var b3 := 3 * b;
    var t0 := lhs.x * rhs.x;
    var t1 := lhs.y * rhs.y;
    var t2 := lhs.z * rhs.z;
    var t3 := lhs.x + lhs.y;
    var t4 := rhs.x + rhs.y;
    var t3 := t3 * t4;
    var t4 := t0 + t1;
    var t3 := t3 - t4;
    var t4 := lhs.y + lhs.z;
    var x3 := rhs.y + rhs.z;
    var t4 := t4 * x3;
    var x3 := t1 + t2;
    var t4 := t4 - x3;
    var x3 := lhs.x + lhs.z;
    var y3 := rhs.x + rhs.z;
    var x3 := x3 * y3;
    var y3 := t0 + t2;
    var y3 := x3 - y3;
    var x3 := Double(t0);
    var t0 := x3 + t0;
    var t2 := b3 * t2;
    var z3 := t1 + t2;
    var t1 := t1 - t2;
    var y3 := b3 * y3;
    var x3 := t4 * y3;
    var t2 := t3 * t1;
    var x3 := t2 - x3;
    var y3 := y3 * t0;
    var t1 := t1 * z3;
    var y3 := t1 + y3;
    var t0 := t0 * t3;
    var z3 := z3 * t4;
    var z3 := z3 + t0;
    Point(x3, y3, z3)
  }

  function AddMixedZero(b: int, lhs: Point, rhs: AffinePoint): Point {
    var b3 := b * 3;
    var t0 := lhs.x * rhs.x;
    var t1 := lhs.y * rhs.y;
    var t3 := rhs.x + rhs.y;
    var t4 := lhs.x + lhs.y;
    var t3 := t3 * t4;
    var t4 := t0 + t1;
    var t3 := t3 - t4;
    var t4 := rhs.y * lhs.z;
    var t4 := t4 + lhs.y;
    var y3 := rhs.x * lhs.z;
    var y3 := y3 + lhs.x;
    var x3 := Double(t0);
    var t0 := x3 + t0;
    var t2 := b3 * lhs.z;
    var z3 := t1 + t2;
    var t1 := t1 - t2;
    var y3 := b3 * y3;
    var x3 := t4 * y3;
    var t2 := t3 * t1;
    var x3 := t2 - x3;
    var y3 := y3 * t0;
    var t1 := t1 * z3;
    var y3 := t1 + y3;
    var t0 := t0 * t3;
    var z3 := z3 * t4;
    var z3 := z3 + t0;
    if rhs.infinity then lhs else Point(x3, y3, z3)
  }

  function DoubleZero(b: int, point: Point): Point {
    var b3 := b * 3;
    var t0 := point.y * point.y;
    var z3 := Double(t0);
    var z3 := Double(z3);
    var z3 := Double(z3);
    var t1 := point.y * point.z;
    var t2 := point.z * point.z;
    var t2 := b3 * t2;
    var x3 := t2 * z3;
    var y3 := t0 + t2;
    var z3 := t1 * z3;
    var t1 := Double(t2);
    var t2 := t1 + t2;
    var t0 := t0 - t2;
    var y3 := t0 * y3;
    var y3 := x3 + y3;
    var t1 := point.x * point.y;
    var x3 := t0 * t1;
    var x3 := Double(x3);
    Point(x3, y3, z3)
  }

  // ----- one closed form for all nine

  /** The coordinates of the sum from the symmetric products of the operands' coordinates:
      xx = x1*x2, ..., xy = x1*y2 + x2*y1, ... */
  function Formula(a: int, b: int, xx: int, yy: int, zz: int, xy: int, yz: int, xz: int): Point {
    var w := 3 * b * zz + a * xz;
    var s := 3 * xx + a * zz;
    var t := 3 * b * xz + a * (xx - a * zz);
    Point(xy * (yy - w) - yz * t, (yy - w) * (yy + w) + s * t, yz * (yy + w) + xy * s)
  }

  function FormulaFor(a: int, b: int, p: Point, q: Point): Point {
    Formula(a, b, p.x * q.x, p.y * q.y, p.z * q.z, p.x * q.y + q.x * p.y, p.y * q.z + q.y * p.z, p.x * q.z + q.x * p.z)
  }

  lemma CrossProduct(u: int, v: int, s: int, t: int)
    ensures (u + v) * (s + t) - (u * s + v * t) == u * t + s * v
  {
  }

  lemma AddIsFormula(a: int, b: int, p: Point, q: Point)
    ensures Add(a, b, p, q) == FormulaFor(a, b, p, q)
  {
    CrossProduct(p.x, p.y, q.x, q.y);
    CrossProduct(p.x, p.z, q.x, q.z);
    CrossProduct(p.y, p.z, q.y, q.z);
  }

  lemma AddMinusThreeIsFormula(b: int, p: Point, q: Point)
    ensures AddMinusThree(b, p, q) == FormulaFor(-3, b, p, q)
  {
    CrossProduct(p.x, p.y, q.x, q.y);
    CrossProduct(p.x, p.z, q.x, q.z);
    CrossProduct(p.y, p.z, q.y, q.z);
    MinusThreeCore(b, p.x * q.x, p.y * q.y, p.z * q.z, p.x * q.y + q.x * p.y, p.y * q.z + q.y * p.z,
                   p.x * q.z + q.x * p.z);
  }

  lemma MinusThreeCore(b: int, xx: int, yy: int, zz: int, xy: int, yz: int, xz: int)
    ensures
      var bzz3 := Double(xz - b * zz) + (xz - b * zz);
      var zz3 := Double(zz) + zz;
      var bxz3 := Double(b * xz - (zz3 + xx)) + (b * xz - (zz3 + xx));
      var xx3 := Double(xx) + xx - zz3;
      Formula(-3, b, xx, yy, zz, xy, yz, xz)
      == Point((yy + bzz3) * xy - yz * bxz3, (yy + bzz3) * (yy - bzz3) + xx3 * bxz3, (yy - bzz3) * yz + xy * xx3)
  {
  }

  lemma AddZeroIsFormula(b: int, p: Point, q: Point)
    ensures AddZero(b, p, q) == FormulaFor(0, b, p, q)
  {
    CrossProduct(p.x, p.y, q.x, q.y);
    CrossProduct(p.x, p.z, q.x, q.z);
    CrossProduct(p.y, p.z, q.y, q.z);
  }
}
