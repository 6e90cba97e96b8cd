/** Evaluation of a round univariate, given by its values at 0..7, at a challenge. */
module Barycentric {
  import opened PrimeField
  import opened Sums
  import opened Polynomials
  import opened BatchInversion
  import opened Results

  const BATCHED_RELATION_PARTIAL_LENGTH := 8

  /** The Lagrange denominators (i - 0)...(i - 7), the factor i - i left out. */
  const LAGRANGE_DENOMINATORS: seq<int> := [-5040, 720, -240, 144, -144, 240, -720, 5040]

  /** The table the verifier ships. */
  const BARY_BYTES: seq<int> := [
    0x30644e72e131a029b85045b68181585d2833e84879b9709143e1f593efffec51,
    0x00000000000000000000000000000000000000000000000000000000000002d0,
    0x30644e72e131a029b85045b68181585d2833e84879b9709143e1f593efffff11,
    0x0000000000000000000000000000000000000000000000000000000000000090,
    0x30644e72e131a029b85045b68181585d2833e84879b9709143e1f593efffff71,
    0x00000000000000000000000000000000000000000000000000000000000000f0,
    0x30644e72e131a029b85045b68181585d2833e84879b9709143e1f593effffd31,
    0x00000000000000000000000000000000000000000000000000000000000013b0
  ]

  /** The product of x - base, ..., x - (base+3), the factor x - skip left out. */
  function Half(x: int, skip: int, base: int): int {
    (if skip == base then 1 else x - base) * (if skip == base + 1 then 1 else x - (base + 1))
    * (if skip == base + 2 then 1 else x - (base + 2)) * (if skip == base + 3 then 1 else x - (base + 3))
  }

  /** (x - 0)...(x - 7), the factor x - skip left out. */
  function Without(x: int, skip: int): int {
    Half(x, skip, 0) * Half(x, skip, 4)
  }

  /** The shipped table is the table of Lagrange denominators in BN254's field. */
  lemma ShippedWeightsAreLagrangeDenominators(i: int)
    requires 0 <= i < 8
    ensures LAGRANGE_DENOMINATORS[i] == Without(i, i)
    ensures BARY_BYTES[i] % BN254_ORDER == LAGRANGE_DENOMINATORS[i] % BN254_ORDER
    ensures 0 <= BARY_BYTES[i] < BN254_ORDER
  {
  }

  // 5040 / LAGRANGE_DENOMINATORS[i]: the signed binomial coefficients of order 7
  const W: seq<int> := [-1, 7, -21, 35, -35, 21, -7, 1]

  lemma CubicHalves(x: int)
    ensures -Half(x, 0, 0) + 7 * Half(x, 1, 0) - 21 * Half(x, 2, 0) + 35 * Half(x, 3, 0)
      == 20 * (x * x * x) - 50 * (x * x) + 38 * x + 6
    ensures -35 * Half(x, 4, 4) + 21 * Half(x, 5, 4) - 7 * Half(x, 6, 4) + Half(x, 7, 4)
      == -20 * (x * x * x) + 370 * (x * x) - 2278 * x + 4682
    ensures Half(x, 8, 0) == x * x * x * x - 6 * (x * x * x) + 11 * (x * x) - 6 * x
    ensures Half(x, 8, 4) == x * x * x * x - 22 * (x * x * x) + 179 * (x * x) - 638 * x + 840
  {
  }

  lemma HalvesCombine(x: int, a: int, b: int, a': int, b': int)
    requires a == x * x * x * x - 6 * (x * x * x) + 11 * (x * x) - 6 * x
    requires b == x * x * x * x - 22 * (x * x * x) + 179 * (x * x) - 638 * x + 840
    requires a' == 20 * (x * x * x) - 50 * (x * x) + 38 * x + 6
    requires b' == -20 * (x * x * x) + 370 * (x * x) - 2278 * x + 4682
    ensures a' * b + a * b' == 5040
  {
  }

  lemma BasisSumsToOne(x: int)
    ensures -Without(x, 0) + 7 * Without(x, 1) - 21 * Without(x, 2) + 35 * Without(x, 3)
      - 35 * Without(x, 4) + 21 * Without(x, 5) - 7 * Without(x, 6) + Without(x, 7) == 5040
  {
    var a, b := Half(x, 8, 0), Half(x, 8, 4);
    var a', b' := -Half(x, 0, 0) + 7 * Half(x, 1, 0) - 21 * Half(x, 2, 0) + 35 * Half(x, 3, 0),
      -35 * Half(x, 4, 4) + 21 * Half(x, 5, 4) - 7 * Half(x, 6, 4) + Half(x, 7, 4);
    assert a' * b + a * b' == 5040 by {
      CubicHalves(x);
      HalvesCombine(x, a, b, a', b');
    }
    Distribute(a, b, Half(x, 0, 0), Half(x, 1, 0), Half(x, 2, 0), Half(x, 3, 0),
               Half(x, 4, 4), Half(x, 5, 4), Half(x, 6, 4), Half(x, 7, 4));
  }

  lemma Distribute(a: int, b: int, a0: int, a1: int, a2: int, a3: int, b0: int, b1: int, b2: int, b3: int)
    ensures -(a0 * b) + 7 * (a1 * b) - 21 * (a2 * b) + 35 * (a3 * b) - 35 * (a * b0) + 21 * (a * b1) - 7 * (a * b2)
            + a * b3
      == (-a0 + 7 * a1 - 21 * a2 + 35 * a3) * b + a * (-35 * b0 + 21 * b1 - 7 * b2 + b3)
  {
  }

  // ----- the Lagrange form of a polynomial of degree below 8

  /** The sum over i < n of W[i] * Without(x, i) * ys[i]; for n == 8, 5040 times the interpolant at x. */
  function LagrangeSum(ys: seq<int>, x: int, n: nat): int
    requires n <= |ys| && n <= 8
  {
    if n == 0 then 0 else LagrangeSum(ys, x, n - 1) + W[n - 1] * Without(x, n - 1) * ys[n - 1]
  }

  /** The full product, and the factor that Without leaves out. */
  function Nodes(x: int): int {
    Half(x, 8, 0) * Half(x, 8, 4)
  }

  lemma HalfTimesFactor(x: int, skip: int, base: int)
    requires base <= skip < base + 4
    ensures Half(x, skip, base) * (x - skip) == Half(x, base + 4, base) == Half(x, base - 1, base)
  {
    var a, b, c, d := x - base, x - (base + 1), x - (base + 2), x - (base + 3);
    if skip == base {
      assert Half(x, skip, base) == b * c * d;
    } else if skip == base + 1 {
      assert Half(x, skip, base) == a * c * d;
    } else if skip == base + 2 {
      assert Half(x, skip, base) == a * b * d;
    } else {
      assert Half(x, skip, base) == a * b * c;
    }
    assert a * b * c * d == (b * c * d) * a == (a * c * d) * b == (a * b * d) * c;
  }

  lemma FullHalf(x: int, s: int, t: int, base: int)
    requires !(base <= s < base + 4) && !(base <= t < base + 4)
    ensures Half(x, s, base) == Half(x, t, base)
  {
  }

  lemma WithoutTimesFactor(x: int, i: int)
    requires 0 <= i < 8
    ensures Without(x, i) * (x - i) == Nodes(x)
  {
    if i < 4 {
      HalfTimesFactor(x, i, 0);
      FullHalf(x, 4, 8, 0);
      FullHalf(x, i, 8, 4);
      Rearrange(Half(x, i, 0), Half(x, i, 4), x - i);
    } else {
      HalfTimesFactor(x, i, 4);
      FullHalf(x, i, 8, 0);
      Rearrange(Half(x, i, 4), Half(x, i, 0), x - i);
    }
  }

  lemma Rearrange(a: int, b: int, c: int)
    ensures a * b * c == a * c * b
  {
  }

  function Tail(f: seq<int>): seq<int> {
    if f == [] then [] else f[1..]
  }

  function Head(f: seq<int>): int {
    if f == [] then 0 else f[0]
  }

  /** Evaluation of a polynomial with at most seven coefficients, written out. */
  lemma EvalSeven(f: seq<int>, x: int)
    requires |f| <= 7
    ensures
      var f1 := Tail(f);
      var f2 := Tail(f1);
      var f3 := Tail(f2);
      var f4 := Tail(f3);
      var f5 := Tail(f4);
      Eval(f, x) == Head(f)
          + x * (Head(f1) + x * (Head(f2) + x * (Head(f3) + x * (Head(f4) + x * (Head(f5) + x * Head(Tail(f5)))))))
  {
    var f1 := Tail(f);
    var f2 := Tail(f1);
    var f3 := Tail(f2);
    var f4 := Tail(f3);
    var f5 := Tail(f4);
    var f6 := Tail(f5);
    assert Eval(f6, x) == Head(f6);
    assert Eval(f5, x) == Head(f5) + x * Eval(f6, x);
    assert Eval(f4, x) == Head(f4) + x * Eval(f5, x);
    assert Eval(f3, x) == Head(f3) + x * Eval(f4, x);
    assert Eval(f2, x) == Head(f2) + x * Eval(f3, x);
    assert Eval(f1, x) == Head(f1) + x * Eval(f2, x);
    assert Eval(f, x) == Head(f) + x * Eval(f1, x);
  }

  /** The seventh difference of a polynomial of degree below seven vanishes. */
  lemma SeventhDifference(f: seq<int>)
    requires |f| <= 7
    ensures -Eval(f, 0) + 7 * Eval(f, 1) - 21 * Eval(f, 2) + 35 * Eval(f, 3)
      - 35 * Eval(f, 4) + 21 * Eval(f, 5) - 7 * Eval(f, 6) + Eval(f, 7) == 0
  {
    EvalSeven(f, 0);
    EvalSeven(f, 1);
    EvalSeven(f, 2);
    EvalSeven(f, 3);
    EvalSeven(f, 4);
    EvalSeven(f, 5);
    EvalSeven(f, 6);
    EvalSeven(f, 7);
  }

  /** W[i] * Without(x, i) * f(i), with f(i) split as f(x) plus a multiple of i - x. */
  lemma LagrangeTerm(f: seq<int>, x: int, i: int, w: int)
    requires 0 <= i < 8
    ensures w * Without(x, i) * Eval(f, i) == Eval(f, x) * (w * Without(x, i))
            - Nodes(x) * (w * Eval(Quotient(f, x), i))
  {
    EvalQuotient(f, x, i);
    WithoutTimesFactor(x, i);
    assert i - x == -(x - i);
    Split(w, Without(x, i), Eval(f, i), Eval(f, x), Eval(Quotient(f, x), i), x - i, Nodes(x));
  }

  lemma Split(w: int, o: int, y: int, v: int, q: int, d: int, n: int)
    requires q * -d == y - v && o * d == n
    ensures w * o * y == v * (w * o) - n * (w * q)
  {
    assert w * o * (v - q * d) == v * (w * o) - (o * d) * (w * q);
  }

  /** Lagrange interpolation on 0..7, exact over the integers. */
  lemma LagrangeForm(f: seq<int>, ys: seq<int>, x: int)
    requires |f| <= 8 && |ys| == 8
    requires forall i :: 0 <= i < 8 ==> ys[i] == Eval(f, i)
    ensures LagrangeSum(ys, x, 8) == 5040 * Eval(f, x)
  {
    var q, v, n := Quotient(f, x), Eval(f, x), Nodes(x);
    EvalQuotient(f, x, x);
    SumUnfolds(ys, x);
    LagrangeTerm(f, x, 0, -1);
    LagrangeTerm(f, x, 1, 7);
    LagrangeTerm(f, x, 2, -21);
    LagrangeTerm(f, x, 3, 35);
    LagrangeTerm(f, x, 4, -35);
    LagrangeTerm(f, x, 5, 21);
    LagrangeTerm(f, x, 6, -7);
    LagrangeTerm(f, x, 7, 1);
    SeventhDifference(q);
    BasisSumsToOne(x);
    Collect(v, n, Without(x, 0), Without(x, 1), Without(x, 2), Without(x, 3), Without(x, 4), Without(x, 5),
            Without(x, 6), Without(x, 7), Eval(q, 0), Eval(q, 1), Eval(q, 2), Eval(q, 3), Eval(q, 4), Eval(q, 5),
            Eval(q, 6), Eval(q, 7));
  }

  lemma SumUnfolds(ys: seq<int>, x: int)
    requires |ys| == 8
    ensures LagrangeSum(ys, x, 8) == -1 * Without(x, 0) * ys[0] + 7 * Without(x, 1) * ys[1]
            + -21 * Without(x, 2) * ys[2]
      + 35 * Without(x, 3) * ys[3] + -35 * Without(x, 4) * ys[4] + 21 * Without(x, 5) * ys[5]
      + -7 * Without(x, 6) * ys[6] + 1 * Without(x, 7) * ys[7]
  {
    assert LagrangeSum(ys, x, 0) == 0;
    assert LagrangeSum(ys, x, 1) == LagrangeSum(ys, x, 0) + -1 * Without(x, 0) * ys[0];
    assert LagrangeSum(ys, x, 2) == LagrangeSum(ys, x, 1) + 7 * Without(x, 1) * ys[1];
    assert LagrangeSum(ys, x, 3) == LagrangeSum(ys, x, 2) + -21 * Without(x, 2) * ys[2];
    assert LagrangeSum(ys, x, 4) == LagrangeSum(ys, x, 3) + 35 * Without(x, 3) * ys[3];
    assert LagrangeSum(ys, x, 5) == LagrangeSum(ys, x, 4) + -35 * Without(x, 4) * ys[4];
    assert LagrangeSum(ys, x, 6) == LagrangeSum(ys, x, 5) + 21 * Without(x, 5) * ys[5];
    assert LagrangeSum(ys, x, 7) == LagrangeSum(ys, x, 6) + -7 * Without(x, 6) * ys[6];
    assert LagrangeSum(ys, x, 8) == LagrangeSum(ys, x, 7) + 1 * Without(x, 7) * ys[7];
  }

  lemma Collect(v: int, n: int, o0: int, o1: int, o2: int, o3: int, o4: int, o5: int, o6: int, o7: int,
                q0: int, q1: int, q2: int, q3: int, q4: int, q5: int, q6: int, q7: int)
    requires -o0 + 7 * o1 - 21 * o2 + 35 * o3 - 35 * o4 + 21 * o5 - 7 * o6 + o7 == 5040
    requires -q0 + 7 * q1 - 21 * q2 + 35 * q3 - 35 * q4 + 21 * q5 - 7 * q6 + q7 == 0
    ensures (v * (-1 * o0) - n * (-1 * q0)) + (v * (7 * o1) - n * (7 * q1)) + (v * (-21 * o2) - n * (-21 * q2))
      + (v * (35 * o3) - n * (35 * q3)) + (v * (-35 * o4) - n * (-35 * q4)) + (v * (21 * o5) - n * (21 * q5))
      + (v * (-7 * o6) - n * (-7 * q6)) + (v * (1 * o7) - n * (1 * q7)) == 5040 * v
  {
    var o := -o0 + 7 * o1 - 21 * o2 + 35 * o3 - 35 * o4 + 21 * o5 - 7 * o6 + o7;
    var q := -q0 + 7 * q1 - 21 * q2 + 35 * q3 - 35 * q4 + 21 * q5 - 7 * q6 + q7;
    assert v * o - n * q == 5040 * v;
  }

  // ----- the verifier's evaluation

  /** (x - 0)...(x - (n-1)) */
  function Monomials(x: int, n: nat): int {
    if n == 0 then 1 else Monomials(x, n - 1) * (x - (n - 1))
  }

  lemma MonomialsAreNodes(x: int)
    ensures Monomials(x, 8) == Nodes(x)
  {
    var a := x * (x - 1) * (x - 2) * (x - 3);
    assert Monomials(x, 1) == Monomials(x, 0) * x == x;
    assert Monomials(x, 2) == Monomials(x, 1) * (x - 1);
    assert Monomials(x, 3) == Monomials(x, 2) * (x - 2);
    assert Monomials(x, 4) == Monomials(x, 3) * (x - 3) == a;
    assert Monomials(x, 5) == a * (x - 4);
    assert Monomials(x, 6) == a * (x - 4) * (x - 5);
    assert Monomials(x, 7) == a * (x - 4) * (x - 5) * (x - 6);
    assert Monomials(x, 8) == a * (x - 4) * (x - 5) * (x - 6) * (x - 7);
    assert Half(x, 8, 0) == a && Half(x, 8, 4) == (x - 4) * (x - 5) * (x - 6) * (x - 7);
    Regroup(a, x - 4, x - 5, x - 6, x - 7);
  }

  lemma Regroup(a: int, b: int, c: int, d: int, e: int)
    ensures a * b * c * d * e == a * (b * c * d * e)
  {
  }

  lemma SmallNonzero(p: Prime)
    requires p > 7
    ensures !Cong(p, 5040, 0)
    ensures forall i :: 0 <= i < 8 ==> !Cong(p, LAGRANGE_DENOMINATORS[i], 0)
  {
    forall i | 0 <= i < 8 ensures !Cong(p, LAGRANGE_DENOMINATORS[i], 0) {
      if Cong(p, LAGRANGE_DENOMINATORS[i], 0) {
        CongScale(p, LAGRANGE_DENOMINATORS[i], 0, W[i]);
        assert W[i] * LAGRANGE_DENOMINATORS[i] == 5040;
        FactorsOf5040(p);
      }
    }
    FactorsOf5040(p);
  }

  lemma FactorsOf5040(p: Prime)
    requires p > 7
    ensures !Cong(p, 5040, 0)
  {
    if Cong(p, 5040, 0) {
      DistinctResidues(p, 2, 0);
      DistinctResidues(p, 3, 0);
      DistinctResidues(p, 5, 0);
      DistinctResidues(p, 7, 0);
      NoZeroDivisors(p, 720, 7);
      NoZeroDivisors(p, 144, 5);
      NoZeroDivisors(p, 48, 3);
      NoZeroDivisors(p, 16, 3);
      NoZeroDivisors(p, 8, 2);
      NoZeroDivisors(p, 4, 2);
      NoZeroDivisors(p, 2, 2);
    }
  }

  lemma TermScaled(p: Prime, x: int, i: int, inv: int)
    requires 0 <= i < 8
    requires Cong(p, LAGRANGE_DENOMINATORS[i] * (x - i) * inv, 1)
    ensures Cong(p, 5040 * Nodes(x) * inv, W[i] * Without(x, i))
  {
    WithoutTimesFactor(x, i);
    var d, w, o := LAGRANGE_DENOMINATORS[i], W[i], Without(x, i);
    CongScale(p, d * (x - i) * inv, 1, w * o);
    assert w * d == 5040;
    calc {
      5040 * Nodes(x) * inv;
      w * d * (o * (x - i)) * inv;
      { Shuffle(w, d, o, x - i, inv); }
      w * o * (d * (x - i) * inv);
    }
  }

  lemma Shuffle(w: int, d: int, o: int, e: int, inv: int)
    ensures w * d * (o * e) * inv == w * o * (d * e * inv)
  {
  }

  /** Scaled by 5040, the verifier's dot product is the Lagrange sum. */
  lemma {:induction false} DotIsLagrangeSum(p: Prime, ys: seq<int>, zs: seq<int>, inv: seq<int>, x: int, n: nat)
    requires |ys| == |zs| == |inv| == 8 && n <= 8
    requires forall i :: 0 <= i < 8 ==> Cong(p, zs[i], ys[i])
    requires forall i :: 0 <= i < 8 ==> Cong(p, LAGRANGE_DENOMINATORS[i] * (x - i) * inv[i], 1)
    ensures Cong(p, 5040 * Nodes(x) * Dot(ys, inv, n), LagrangeSum(zs, x, n))
  {
    if n == 0 {
      CongRefl(p, 0);
    } else {
      var i := n - 1;
      DotIsLagrangeSum(p, ys, zs, inv, x, i);
      TermScaled(p, x, i, inv[i]);
      CongSym(p, zs[i], ys[i]);
      CongMul(p, 5040 * Nodes(x) * inv[i], W[i] * Without(x, i), ys[i], zs[i]);
      CongAdd(p, 5040 * Nodes(x) * Dot(ys, inv, i), LagrangeSum(zs, x, i), 5040 * Nodes(x) * inv[i] * ys[i],
              W[i] * Without(x, i) * zs[i]);
      Expand(5040 * Nodes(x), Dot(ys, inv, i), ys[i], inv[i]);
    }
  }

  lemma Expand(b: int, s: int, y: int, inv: int)
    ensures b * (s + y * inv) == b * s + b * inv * y
  {
  }

  lemma Associate(a: int, b: int, c: int)
    ensures a * b * c == a * (b * c)
  {
  }

  lemma BarycentricIsExact(p: Prime, f: seq<int>, ys: seq<int>, inv: seq<int>, x: int)
    requires p > 7 && |ys| == |inv| == 8 && Through(p, f, ys)
    requires forall i :: 0 <= i < 8 ==> Cong(p, LAGRANGE_DENOMINATORS[i] * (x - i) * inv[i], 1)
    ensures Cong(p, Nodes(x) * Dot(ys, inv, 8), Eval(f, x))
  {
    var zs := [Eval(f, 0), Eval(f, 1), Eval(f, 2), Eval(f, 3), Eval(f, 4), Eval(f, 5), Eval(f, 6), Eval(f, 7)];
    LagrangeForm(f, zs, x);
    DotIsLagrangeSum(p, ys, zs, inv, x, 8);
    Associate(5040, Nodes(x), Dot(ys, inv, 8));
    SmallNonzero(p);
    Cancel(p, 5040, Nodes(x) * Dot(ys, inv, 8), Eval(f, x));
  }

  lemma DenominatorNonzero(p: Prime, x: int, j: int)
    requires p > 7 && 0 <= j < 8 && !Cong(p, x, j)
    ensures !Cong(p, LAGRANGE_DENOMINATORS[j] * (x - j), 0)
  {
    SmallNonzero(p);
    if Cong(p, LAGRANGE_DENOMINATORS[j] * (x - j), 0) {
      NoZeroDivisors(p, LAGRANGE_DENOMINATORS[j], x - j);
    }
  }

  /** The product of all x - i, and the eight denominators. */
  method BarycentricDenominators(p: Prime, x: int) returns (bPoly: int, denoms: seq<int>)
    requires p > 7 && forall j :: 0 <= j < 8 ==> !Cong(p, x, j)
    ensures bPoly == Nodes(x) && |denoms| == 8
    ensures forall j :: 0 <= j < 8 ==> denoms[j] == LAGRANGE_DENOMINATORS[j] * (x - j)
    ensures AllNonzero(p, denoms)
  {
    denoms := [];
    bPoly := 1;
    for i := 0 to 8
      invariant |denoms| == i && bPoly == Monomials(x, i)
      invariant forall j :: 0 <= j < i ==> denoms[j] == LAGRANGE_DENOMINATORS[j] * (x - j)
    {
      var diff := x - i;
      bPoly := bPoly * diff;
      denoms := denoms + [LAGRANGE_DENOMINATORS[i] * diff];
    }
    MonomialsAreNodes(x);
    forall j | 0 <= j < 8 ensures !Cong(p, denoms[j], 0) {
      DenominatorNonzero(p, x, j);
    }
  }

  /** Evaluates at the challenge the polynomial of degree below 8 that takes the values ys at 0..7; never fails. */
  method ComputeNextTargetSum(p: Prime, ys: seq<int>, x: int) returns (r: Result<int>)
    requires p > 7 && |ys| == BATCHED_RELATION_PARTIAL_LENGTH
    ensures r.Ok? && Cong(p, r.value, Eval(Interpolant(p, ys), x))
  {
    var f := Interpolant(p, ys);
    for i := 0 to 8
      invariant forall j :: 0 <= j < i ==> !Cong(p, x, j)
    {
      if Cong(p, x, i) {
        EvalCong(p, f, x, i);
        CongTrans(p, Eval(f, x), Eval(f, i), ys[i]);
        CongSym(p, Eval(f, x), ys[i]);
        return Ok(ys[i]);
      }
    }
    var bPoly, denoms := BarycentricDenominators(p, x);
    var invDenoms := new int[8];
    var ok := BatchInverse(p, denoms, invDenoms);
    if !ok {
      return Err("sumcheck: barycentric denominator is zero");
    }
    var acc := 0;
    for i := 0 to 8
      invariant acc == Dot(ys, invDenoms[..], i)
    {
      acc := acc + ys[i] * invDenoms[i];
    }
    forall i | 0 <= i < 8 ensures Cong(p, LAGRANGE_DENOMINATORS[i] * (x - i) * invDenoms[i], 1) {
      assert InverseAt(p, denoms, invDenoms[..], i);
    }
    BarycentricIsExact(p, f, ys, invDenoms[..], x);
    return Ok(bPoly * acc);
  }
}
