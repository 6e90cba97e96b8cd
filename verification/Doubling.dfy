/** Doubling is adding a point to itself, coordinate for coordinate on the curve, and never fails. */
module Doubling {
  import opened PrimeField
  import opened PointArithmetic
  import opened GroupLaw
  import opened CompleteAddition

  function Defect(a: int, b: int, q: Point): int {
    q.y * q.y * q.z - q.x * q.x * q.x - a * (q.x * q.z * q.z) - b * (q.z * q.z * q.z)
  }

  ghost predicate OnProjectiveCurve(p: Prime, a: int, b: int, q: Point) {
    Cong(p, Defect(a, b, q), 0)
  }

  ghost predicate SameCoordinates(p: Prime, q: Point, r: Point) {
    Cong(p, q.x, r.x) && Cong(p, q.y, r.y) && Cong(p, q.z, r.z)
  }

  /** Doubling differs from adding a point to itself by a multiple of the curve equation. */
  lemma DoubleDefect(a: int, b: int, q: Point)
    ensures
      var d, s := DoublePoint(a, b, q), Add(a, b, q, q);
      d.x == s.x && d.y == s.y && d.z - s.z == 6 * q.y * Defect(a, b, q)
  {
    AddIsFormula(a, b, q, q);
    assert q.x * q.y + q.x * q.y == 2 * (q.x * q.y);
    DoubleZ(a, b, q.x, q.y, q.z);
  }

  lemma DoubleZ(a: int, b: int, x: int, y: int, z: int)
    ensures
      var w, s := 3 * b * (z * z) + a * (2 * (x * z)), 3 * (x * x) + a * (z * z);
      8 * (y * z * (y * y)) - (2 * (y * z) * (y * y + w) + 2 * (x * y) * s) == 6 * y * Defect(a, b, Point(x, y, z))
  {
    var w, s := 3 * b * (z * z) + a * (2 * (x * z)), 3 * (x * x) + a * (z * z);
    DoubleZTerms(a, b, x, z);
    PullOut(y, z, y * y, w, x, s);
    DoubleZSum(y, z * (y * y), y * y * z, z * w, x * s, b * (z * z * z), a * (x * z * z), x * x * x,
               Defect(a, b, Point(x, y, z)));
  }

  lemma DoubleZTerms(a: int, b: int, x: int, z: int)
    ensures z * (3 * b * (z * z) + a * (2 * (x * z))) == 3 * (b * (z * z * z)) + 2 * (a * (x * z * z))
    ensures x * (3 * (x * x) + a * (z * z)) == 3 * (x * x * x) + a * (x * z * z)
  {
  }

  lemma DoubleZSum(y: int, zyy: int, yyz: int, zw: int, xs: int, bzzz: int, axzz: int, xxx: int, defect: int)
    requires zyy == yyz && zw == 3 * bzzz + 2 * axzz && xs == 3 * xxx + axzz && defect == yyz - xxx - axzz - bzzz
    ensures 2 * y * (4 * zyy - (zyy + zw) - xs) == 6 * y * defect
  {
    assert 4 * zyy - (zyy + zw) - xs == 3 * defect;
  }

  lemma PullOut(y: int, z: int, q: int, w: int, x: int, s: int)
    ensures 8 * (y * z * q) - (2 * (y * z) * (q + w) + 2 * (x * y) * s)
            == 2 * y * (4 * (z * q) - (z * q + z * w) - x * s)
  {
  }

  lemma DoubleIsAdd(p: Prime, a: int, b: int, q: Point)
    requires OnProjectiveCurve(p, a, b, q)
    ensures SameCoordinates(p, DoublePoint(a, b, q), Add(a, b, q, q))
  {
    var d, s := DoublePoint(a, b, q), Add(a, b, q, q);
    DoubleDefect(a, b, q);
    MultipleOfZero(p, Defect(a, b, q), 6 * q.y);
    CongRefl(p, d.x);
    CongRefl(p, d.y);
  }

  /** The doubling for a = -3 is the generic one; the one for a = 0 differs by the curve equation. */
  lemma DoubleFamilies(b: int, q: Point)
    ensures DoubleMinusThree(b, q) == DoublePoint(-3, b, q)
    ensures
      var d, s := DoubleZero(b, q), DoublePoint(0, b, q);
      d.x == s.x && d.z == s.z && d.y - s.y == 18 * (b * q.z) * Defect(0, b, q)
  {
    MinusThreeDoubleCore(b, q.x * q.x, q.y * q.y, q.z * q.z, q.x * q.y, q.y * q.z, q.x * q.z);
    ZeroDoubleX(b, q.z * q.z, q.y * q.y, q.x * q.y, q.y * q.z, q.x * q.z, q.x, q.y, q.z);
    ZeroDoubleY(b, q.x, q.y, q.z);
  }

  lemma MinusThreeDoubleCore(b: int, xx: int, yy: int, zz: int, xy: int, yz: int, xz: int)
    ensures
      var bzz3 := Double(b * zz - Double(xz)) + (b * zz - Double(xz));
      var zz3 := Double(zz) + zz;
      var bxz6 := Double(b * Double(xz) - (zz3 + xx)) + (b * Double(xz) - (zz3 + xx));
      var w, t, s := -3 * (xz + xz) + b * 3 * zz, -3 * (xx - -3 * zz) + b * 3 * (xz + xz), xx + xx + xx + -3 * zz;
      && bzz3 == w && bxz6 == t && Double(xx) + xx - zz3 == s
  {
  }

  lemma ZeroDoubleX(b: int, zz: int, yy: int, xy: int, yz: int, xz: int, x: int, y: int, z: int)
    requires xy == x * y && yz == y * z && xz == x * z && zz == z * z
    ensures 2 * ((yy - 3 * (3 * (b * zz))) * xy) == 2 * xy * (yy - 3 * (b * zz)) - 2 * yz * (3 * (b * (2 * xz)))
  {
    assert yz * (b * xz) == b * zz * xy;
    assert 2 * yz * (3 * (b * (2 * xz))) == 12 * (yz * (b * xz));
  }

  lemma ZeroDoubleY(b: int, x: int, y: int, z: int)
    ensures
      var yy, c := y * y, 3 * (b * (z * z));
      c * (8 * yy) + (yy - 3 * c) * (yy + c) - ((yy - c) * (yy + c) + 3 * (x * x) * (3 * (b * (2 * (x * z)))))
          == 18 * (b * z) * Defect(0, b, Point(x, y, z))
  {
    var yy, c, e := y * y, 3 * (b * (z * z)), b * z;
    ZeroDoubleSquares(c, yy);
    ZeroDoubleTerms(b, x, y, z);
    ZeroDoubleSum(e, yy * z, b * (z * z * z), x * x * x);
  }

  lemma ZeroDoubleSquares(c: int, yy: int)
    ensures c * (8 * yy) + (yy - 3 * c) * (yy + c) - (yy - c) * (yy + c) == 6 * (c * yy) - 2 * (c * c)
  {
  }

  lemma ZeroDoubleTerms(b: int, x: int, y: int, z: int)
    ensures 3 * (b * (z * z)) * (y * y) == 3 * (b * z * (y * y * z))
    ensures 3 * (b * (z * z)) * (3 * (b * (z * z))) == 9 * (b * z * (b * (z * z * z)))
    ensures 3 * (x * x) * (3 * (b * (2 * (x * z)))) == 18 * (b * z * (x * x * x))
  {
  }

  lemma ZeroDoubleSum(e: int, u: int, v: int, w: int)
    ensures 6 * (3 * (e * u)) - 2 * (9 * (e * v)) - 18 * (e * w) == 18 * e * (u - w - 0 - v)
  {
  }

  lemma TripleProduct(p: Prime, u: int, v: int, w: int, c: int, u': int, v': int, w': int)
    requires Cong(p, u, c * u') && Cong(p, v, c * v') && Cong(p, w, c * w')
    ensures Cong(p, u * v * w, c * c * c * (u' * v' * w'))
  {
    ScaledProduct(p, u, c, u', v, c, v');
    ScaledProduct(p, u * v, c * c, u' * v', w, c, w');
  }

  /** Every representative of a curve point satisfies the homogeneous equation. */
  lemma RepresentativeOnCurve(p: Prime, a: int, b: int, q: Point, g: GroupPoint)
    requires IsPoint(p, a, b, g) && Represents(p, q, g)
    ensures OnProjectiveCurve(p, a, b, q)
  {
    var c, n := ScaleOf(g, q), Normal(g);
    var k := c * c * c;
    TripleProduct(p, q.y, q.y, q.z, c, n.y, n.y, n.z);
    TripleProduct(p, q.x, q.x, q.x, c, n.x, n.x, n.x);
    TripleProduct(p, q.x, q.z, q.z, c, n.x, n.z, n.z);
    TripleProduct(p, q.z, q.z, q.z, c, n.z, n.z, n.z);
    DefectCong(p, a, b, q.y * q.y * q.z, q.x * q.x * q.x, q.x * q.z * q.z, q.z * q.z * q.z,
               k, n.y * n.y * n.z, n.x * n.x * n.x, n.x * n.z * n.z, n.z * n.z * n.z);
    assert Cong(p, Defect(a, b, n), 0) by {
      if g.Finite? {
        assert Defect(a, b, n) == g.y * g.y - Cubic(a, b, g.x) - 0;
      } else {
        CongRefl(p, 0);
      }
    }
    MultipleOfZero(p, Defect(a, b, n), k);
    CongTrans(p, Defect(a, b, q), k * Defect(a, b, n), 0);
  }

  lemma DefectCong(p: Prime, a: int, b: int, s: int, t: int, u: int, v: int, k: int, s': int, t': int, u': int, v': int)
    requires Cong(p, s, k * s') && Cong(p, t, k * t') && Cong(p, u, k * u') && Cong(p, v, k * v')
    ensures Cong(p, s - t - a * u - b * v, k * (s' - t' - a * u' - b * v'))
  {
    CongAdd(p, s, k * s', t, k * t');
    LinearCong(p, a, u, k * u', b, v, k * v');
    CongAdd(p, s - t, k * s' - k * t', a * u + b * v, a * (k * u') + b * (k * v'));
    assert k * (s' - t' - a * u' - b * v') == k * s' - k * t' - (a * (k * u') + b * (k * v')) by {
      assert a * (k * u') == k * (a * u') && b * (k * v') == k * (b * v');
    }
  }

  lemma OwnDifference(p: Prime, a: int, b: int, g: GroupPoint)
    requires p > 2 && IsPoint(p, a, b, g)
    ensures Difference(p, a, b, g, g) == Infinity
  {
    if g.Finite? {
      CongRefl(p, g.x);
      CongRefl(p, g.y);
      assert -(-g.y) == g.y;
    }
  }

  lemma SameCoordinatesRepresent(p: Prime, q: Point, r: Point, g: GroupPoint)
    requires SameCoordinates(p, q, r) && Represents(p, r, g)
    ensures Represents(p, q, g)
  {
    DistinctResidues(p, 1, 0);
    RepresentsScaled(p, q, 1, r, g);
  }

  /** All three doublings yield a representative of the point added to itself, on every nonsingular curve,
      points of order two included. */
  lemma DoubleIsGroupLaw(p: Prime, a: int, b: int, q: Point, g: GroupPoint)
    requires p > 2 && Nonsingular(p, a, b) && IsPoint(p, a, b, g) && Represents(p, q, g)
    ensures Represents(p, DoublePoint(a, b, q), Sum(p, a, b, g, g))
    ensures a == -3 ==> Represents(p, DoubleMinusThree(b, q), Sum(p, a, b, g, g))
    ensures a == 0 ==> Represents(p, DoubleZero(b, q), Sum(p, a, b, g, g))
  {
    RepresentativeOnCurve(p, a, b, q, g);
    DoubleIsAdd(p, a, b, q);
    OwnDifference(p, a, b, g);
    AddRepresentsIff(p, a, b, q, g, q, g);
    SameCoordinatesRepresent(p, DoublePoint(a, b, q), Add(a, b, q, q), Sum(p, a, b, g, g));
    DoubleFamilies(b, q);
    if a == 0 {
      DoubleZeroIsDouble(p, b, q);
      SameCoordinatesRepresent(p, DoubleZero(b, q), DoublePoint(0, b, q), Sum(p, a, b, g, g));
    }
  }

  lemma DoubleZeroIsDouble(p: Prime, b: int, q: Point)
    requires OnProjectiveCurve(p, 0, b, q)
    ensures SameCoordinates(p, DoubleZero(b, q), DoublePoint(0, b, q))
  {
    var d := DoublePoint(0, b, q);
    DoubleFamilies(b, q);
    MultipleOfZero(p, Defect(0, b, q), 18 * (b * q.z));
    CongRefl(p, d.x);
    CongRefl(p, d.z);
  }
}
