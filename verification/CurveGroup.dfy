/** The scalar multiplications over the crate's own point formulas.

    The points of a nonsingular curve, with reduced coordinates, form a commutative group under the
    chord-and-tangent sum.  On curves without points of order two, as all curves of odd order are, the crate's
    operations implement it on projective coordinates. */
module CurveGroup {
  import opened PrimeField
  import opened PointArithmetic
  import opened GroupLaw
  import opened CompleteAddition
  import opened Doubling
  import opened PointOperations
  import opened SumLaws
  import opened Associativity
  import opened AbelianGroup
  import opened Radix16
  import LinearCombination
  import BasepointTable

  // ----- the group of points

  function Canonical(p: Prime, g: GroupPoint): GroupPoint {
    if g.Finite? then Finite(g.x % p, g.y % p) else Infinity
  }

  ghost predicate IsCanonical(p: Prime, a: int, b: int, g: GroupPoint) {
    IsPoint(p, a, b, g) && Canonical(p, g) == g
  }

  ghost function CanonicalSum(p: Prime, a: int, b: int, g: GroupPoint, h: GroupPoint): GroupPoint
    requires p > 2
  {
    if IsPoint(p, a, b, g) && IsPoint(p, a, b, h) then Canonical(p, Sum(p, a, b, g, h)) else Infinity
  }

  ghost function PointsOf(p: Prime, a: int, b: int): Group<GroupPoint>
    requires p > 2
  {
    Group((g: GroupPoint) => IsCanonical(p, a, b, g), Infinity,
          (g: GroupPoint, h: GroupPoint) => CanonicalSum(p, a, b, g, h),
          (g: GroupPoint) => Canonical(p, Opposed(g)))
  }

  // ----- congruent coordinates

  lemma ReducedTwice(p: Prime, x: int)
    ensures Cong(p, x % p, x) && Cong(p, x, x % p) && x % p % p == x % p
  {
    Reduced(p, x);
    CongSym(p, x % p, x);
    ReducingIsHarmless(p, x % p, x);
  }

  lemma CanonicalIsSame(p: Prime, g: GroupPoint)
    ensures SamePoint(p, Canonical(p, g), g) && SamePoint(p, g, Canonical(p, g))
    ensures Canonical(p, Canonical(p, g)) == Canonical(p, g)
  {
    if g.Finite? {
      ReducedTwice(p, g.x);
      ReducedTwice(p, g.y);
    }
  }

  lemma SameIsCanonical(p: Prime, g: GroupPoint, h: GroupPoint)
    requires SamePoint(p, g, h)
    ensures Canonical(p, g) == Canonical(p, h)
  {
    if g.Finite? {
      ReducingIsHarmless(p, g.x, h.x);
      ReducingIsHarmless(p, g.y, h.y);
    }
  }

  lemma OwnOpposite(p: Prime, a: int, b: int, g: GroupPoint)
    requires p > 2 && IsCanonical(p, a, b, g)
    ensures IsCanonical(p, a, b, Canonical(p, Opposed(g)))
    ensures CanonicalSum(p, a, b, g, Canonical(p, Opposed(g))) == Infinity
  {
    OpposedIsPoint(p, a, b, g);
    CanonicalIsSame(p, Opposed(g));
    SameIsPoint(p, a, b, Opposed(g), Canonical(p, Opposed(g)));
    CanonicalIsSame(p, g);
    OwnDifference(p, a, b, g);
    SumRespects(p, a, b, g, Opposed(g), g, Canonical(p, Opposed(g)));
  }

  lemma SumIsCanonical(p: Prime, a: int, b: int, g: GroupPoint, h: GroupPoint)
    requires p > 2 && IsPoint(p, a, b, g) && IsPoint(p, a, b, h)
    ensures IsCanonical(p, a, b, CanonicalSum(p, a, b, g, h))
  {
    SumIsPoint(p, a, b, g, h);
    CanonicalIsSame(p, Sum(p, a, b, g, h));
    SameIsPoint(p, a, b, Sum(p, a, b, g, h), CanonicalSum(p, a, b, g, h));
  }

  /** A sum of sums needs no reduction in between. */
  lemma LeftSum(p: Prime, a: int, b: int, g: GroupPoint, h: GroupPoint, k: GroupPoint)
    requires p > 2 && IsPoint(p, a, b, g) && IsPoint(p, a, b, h) && IsPoint(p, a, b, k)
    ensures IsPoint(p, a, b, Sum(p, a, b, g, h))
    ensures CanonicalSum(p, a, b, CanonicalSum(p, a, b, g, h), k) == CanonicalSum(p, a, b, Sum(p, a, b, g, h), k)
  {
    var s := Sum(p, a, b, g, h);
    SumIsPoint(p, a, b, g, h);
    CanonicalIsSame(p, s);
    CanonicalIsSame(p, k);
    SamePointRefl(p, k);
    SumRespects(p, a, b, s, k, Canonical(p, s), k);
    SameIsCanonical(p, Sum(p, a, b, s, k), Sum(p, a, b, Canonical(p, s), k));
  }

  lemma CanonicalCommutes(p: Prime, a: int, b: int, g: GroupPoint, h: GroupPoint)
    requires p > 2 && IsPoint(p, a, b, g) && IsPoint(p, a, b, h)
    ensures CanonicalSum(p, a, b, g, h) == CanonicalSum(p, a, b, h, g)
  {
    SumCommutes(p, a, b, g, h);
    SameIsCanonical(p, Sum(p, a, b, g, h), Sum(p, a, b, h, g));
  }

  lemma CanonicalAssociates(p: Prime, a: int, b: int, g: GroupPoint, h: GroupPoint, k: GroupPoint)
    requires p > 2 && Nonsingular(p, a, b)
    requires IsPoint(p, a, b, g) && IsPoint(p, a, b, h) && IsPoint(p, a, b, k)
    ensures CanonicalSum(p, a, b, CanonicalSum(p, a, b, g, h), k)
         == CanonicalSum(p, a, b, g, CanonicalSum(p, a, b, h, k))
  {
    var s, t := Sum(p, a, b, g, h), Sum(p, a, b, h, k);
    LeftSum(p, a, b, g, h, k);
    LeftSum(p, a, b, h, k, g);
    SumIsCanonical(p, a, b, h, k);
    CanonicalCommutes(p, a, b, g, CanonicalSum(p, a, b, h, k));
    CanonicalCommutes(p, a, b, g, t);
    SumAssociates(p, a, b, g, h, k);
    SameIsCanonical(p, Sum(p, a, b, s, k), Sum(p, a, b, g, t));
  }

  /** The points of a nonsingular curve are a commutative group. */
  lemma PointsAreGroup(p: Prime, a: int, b: int)
    requires p > 2 && Nonsingular(p, a, b)
    ensures Lawful(PointsOf(p, a, b))
  {
    var group := PointsOf(p, a, b);
    forall g, h, k ensures LawsAt(group, g, h, k) {
      if group.carrier(g) && group.carrier(h) && group.carrier(k) {
        SumIsCanonical(p, a, b, g, h);
        OwnOpposite(p, a, b, g);
        CanonicalCommutes(p, a, b, g, h);
        CanonicalAssociates(p, a, b, g, h, k);
      }
    }
  }

  // ----- the crate's operations

  /** The three implementations of point arithmetic. */
  datatype Family = Generic | MinusThree | Zero

  predicate Fits(family: Family, a: int) {
    (family.MinusThree? ==> a == -3) && (family.Zero? ==> a == 0)
  }

  function OpsOf(family: Family, a: int, b: int): Ops<Point> {
    match family
    case Generic => Ops(IDENTITY, (s: Point, t: Point) => Add(a, b, s, t), (s: Point) => DoublePoint(a, b, s), Negate)
    case MinusThree =>
      Ops(IDENTITY, (s: Point, t: Point) => AddMinusThree(b, s, t), (s: Point) => DoubleMinusThree(b, s), Negate)
    case Zero => Ops(IDENTITY, (s: Point, t: Point) => AddZero(b, s, t), (s: Point) => DoubleZero(b, s), Negate)
  }

  ghost function ProjectiveModel(p: Prime, a: int, b: int): Model<Point, GroupPoint>
    requires p > 2
  {
    Model(PointsOf(p, a, b), (q: Point, g: GroupPoint) => Represents(p, q, g))
  }

  lemma RepresentsSame(p: Prime, q: Point, g: GroupPoint, h: GroupPoint)
    requires Represents(p, q, g) && SamePoint(p, g, h)
    ensures Represents(p, q, h)
  {
    if g.Finite? {
      CongScale(p, g.x, h.x, q.z);
      CongScale(p, g.y, h.y, q.z);
      CongTrans(p, q.x, q.z * g.x, q.z * h.x);
      CongTrans(p, q.y, q.z * g.y, q.z * h.y);
    }
  }

  lemma NormalIs(p: Prime, g: GroupPoint)
    ensures Represents(p, Normal(g), g)
  {
    DistinctResidues(p, 1, 0);
    CongRefl(p, 0);
    CongRefl(p, 1);
    if g.Finite? {
      CongRefl(p, g.x);
      CongRefl(p, g.y);
      assert 1 * g.x == g.x && 1 * g.y == g.y;
    }
  }

  lemma RepresentsCanonical(p: Prime, q: Point, g: GroupPoint)
    requires Represents(p, q, g)
    ensures Represents(p, q, Canonical(p, g))
  {
    CanonicalIsSame(p, g);
    RepresentsSame(p, q, g, Canonical(p, g));
  }

  lemma OperationsRepresent(p: Prime, family: Family, a: int, b: int, s: Point, g: GroupPoint, t: Point, h: GroupPoint)
    requires p > 2 && NoTwoTorsion(p, a, b) && Fits(family, a)
    requires IsPoint(p, a, b, g) && IsPoint(p, a, b, h) && Represents(p, s, g) && Represents(p, t, h)
    ensures Represents(p, OpsOf(family, a, b).add(s, t), CanonicalSum(p, a, b, g, h))
    ensures Represents(p, OpsOf(family, a, b).double(s), CanonicalSum(p, a, b, g, g))
    ensures Represents(p, OpsOf(family, a, b).neg(s), Canonical(p, Opposed(g)))
  {
    var ops := OpsOf(family, a, b);
    AddIsGroupLaw(p, a, b, s, g, t, h);
    NoPointHasOrderTwo(p, a, b, g);
    DoubleIsGroupLaw(p, a, b, s, g);
    NegateRepresents(p, s, g);
    RepresentsCanonical(p, ops.add(s, t), Sum(p, a, b, g, h));
    RepresentsCanonical(p, ops.double(s), Sum(p, a, b, g, g));
    RepresentsCanonical(p, ops.neg(s), Opposed(g));
  }

  /** All three families implement the group of points. */
  lemma OperationsImplement(p: Prime, family: Family, a: int, b: int)
    requires p > 2 && NoTwoTorsion(p, a, b) && Fits(family, a)
    ensures Implements(OpsOf(family, a, b), ProjectiveModel(p, a, b))
  {
    var ops, m := OpsOf(family, a, b), ProjectiveModel(p, a, b);
    NoPointHasOrderTwo(p, a, b, Infinity);
    PointsAreGroup(p, a, b);
    NormalIs(p, Infinity);
    forall s: Point, x: GroupPoint, t: Point, y: GroupPoint ensures ImplementsAt(ops, m, s, x, t, y) {
      if Is(m, s, x) && Is(m, t, y) {
        OperationsRepresent(p, family, a, b, s, x, t, y);
      }
    }
  }

  // ----- scalar multiplication of projective points

  /** The linear combination of projective points represents the linear combination of their points. */
  method LincombPoints(family: Family, a: int, b: int, points: seq<Point>, scalars: seq<seq<u8>>, n: nat, vartime: bool,
                       ghost p: Prime, ghost gs: seq<GroupPoint>)
      returns (q: Point)
    requires p > 2 && NoTwoTorsion(p, a, b) && Fits(family, a)
    requires |points| == |scalars| == |gs| > 0 && forall j :: 0 <= j < |scalars| ==> n <= |scalars[j]|
    requires forall j :: 0 <= j < |gs| ==> IsCanonical(p, a, b, gs[j]) && Represents(p, points[j], gs[j])
    ensures Represents(p, q, Combination(PointsOf(p, a, b), gs, LinearCombination.Values(scalars, n), |gs|))
  {
    ghost var m := ProjectiveModel(p, a, b);
    OperationsImplement(p, family, a, b);
    assert forall j :: 0 <= j < |gs| ==> Is(m, points[j], gs[j]);
    q := LinearCombination.Lincomb(OpsOf(family, a, b), points, scalars, n, vartime, m, gs);
  }

  /** Multiplying the generator by table or by the generic loop yields equal points. */
  method MulGenerator(family: Family, a: int, b: int, generator: Point, scalar: seq<u8>, n: nat, vartime: bool,
                      ghost p: Prime, ghost g: GroupPoint)
      returns (fixed: Point, variable: Point)
    requires p > 2 && NoTwoTorsion(p, a, b) && Fits(family, a) && n <= |scalar|
    requires IsCanonical(p, a, b, g) && Represents(p, generator, g)
    ensures Represents(p, fixed, Times(PointsOf(p, a, b), LowValue(scalar, n), g))
    ensures Represents(p, variable, Times(PointsOf(p, a, b), LowValue(scalar, n), g))
    ensures CtEq(p, fixed, variable)
  {
    ghost var m := ProjectiveModel(p, a, b);
    OperationsImplement(p, family, a, b);
    assert Is(m, generator, g);
    fixed, variable := BasepointTable.MulAgrees(OpsOf(family, a, b), generator, scalar, n, vartime, m, g);
    ghost var product := Times(PointsOf(p, a, b), LowValue(scalar, n), g);
    SamePointRefl(p, product);
    CtEqDecides(p, fixed, product, variable, product);
  }
}
