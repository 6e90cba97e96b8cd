/** The simplified Shallue-van de Woestijne-Ulas map in straight-line form (section 6.6.2 and
    Appendix F.2 of RFC 9380) for fields with p = 3 mod 4. */
module Osswu {
  import opened PrimeField
  import opened Sums
  import opened Fermat
  import opened GroupLaw

  datatype Params = Params(c1: nat, c2: int, mapA: int, mapB: int, z: int)

  /** The numerator of g(n / d) = (n/d)^3 + A*(n/d) + B over d^3. */
  function Numerator(a: int, b: int, n: int, d: int): int {
    (n * n + a * (d * d)) * n + b * (d * d * d)
  }

  ghost predicate HasRoot(p: Prime, u: int, v: int) {
    exists s :: Cong(p, s * s * v, u)
  }

  /** The conditions of section 6.6.2 of RFC 9380 that the map relies on. */
  ghost predicate ValidParams(p: Prime, params: Params) {
    && p % 4 == 3
    && params.c1 == (p - 3) / 4
    && Cong(p, params.c2 * params.c2, -params.z)
    && !Cong(p, params.mapA, 0)
    && !Cong(p, params.z, 0)
    && HasRoot(p, Numerator(params.mapA, params.mapB, params.mapB, params.mapA * params.z),
               params.mapA * params.z * (params.mapA * params.z) * (params.mapA * params.z))
  }

  function Sgn0(p: Prime, a: int): bool {
    a % p % 2 == 1
  }

  function SqrtRatio3mod4(p: Prime, params: Params, u: int, v: int): (bool, int) {
    var tv1 := v * v;
    var tv2 := u * v;
    var tv1 := tv1 * tv2;
    var y1 := Pow(tv1, params.c1);
    var y1 := y1 * tv2;
    var y2 := y1 * params.c2;
    var tv3 := y1 * y1;
    var tv3 := tv3 * v;
    var isQr := Cong(p, tv3, u);
    var y := if isQr then y1 else y2;
    (isQr, y)
  }

  function Tv4(p: Prime, params: Params, tv2: int): int {
    var tv4 := if !Cong(p, tv2, 0) then -tv2 else params.z;
    params.mapA * tv4
  }

  function Map(p: Prime, params: Params, u: int): (int, int)
    requires ValidParams(p, params)
  {
    var tv1 := u * u;
    var tv1 := params.z * tv1;
    var tv2 := tv1 * tv1;
    var tv2 := tv2 + tv1;
    var tv3 := tv2 + 1;
    var tv3 := params.mapB * tv3;
    var tv4 := if !Cong(p, tv2, 0) then -tv2 else params.z;
    var tv4 := params.mapA * tv4;
    var tv2 := tv3 * tv3;
    var tv6 := tv4 * tv4;
    var tv5 := params.mapA * tv6;
    var tv2 := tv2 + tv5;
    var tv2 := tv2 * tv3;
    var tv6 := tv6 * tv4;
    var tv5 := params.mapB * tv6;
    var tv2 := tv2 + tv5;
    var x := tv1 * tv3;
    var (isGx1Square, y1) := SqrtRatio3mod4(p, params, tv2, tv6);
    var y := tv1 * u;
    var y := y * y1;
    var x := if isGx1Square then tv3 else x;
    var y := if isGx1Square then y1 else y;
    var e1 := Sgn0(p, u) == Sgn0(p, y);
    var y := if e1 then y else -y;
    Tv4Nonzero(p, params, params.z * (u * u) * (params.z * (u * u)) + params.z * (u * u));
    var x := x * Inv(p, tv4);
    (x, y)
  }

  lemma Tv4Nonzero(p: Prime, params: Params, tv2: int)
    requires ValidParams(p, params)
    ensures !Cong(p, Tv4(p, params, tv2), 0)
  {
    var t := if !Cong(p, tv2, 0) then -tv2 else params.z;
    NegatedZero(p, tv2);
    if Cong(p, params.mapA * t, 0) {
      NoZeroDivisors(p, params.mapA, t);
      assert false;
    }
  }

  // ----- square roots of ratios

  lemma {:induction false} PowMul(a: int, b: int, n: nat)
    ensures Pow(a * b, n) == Pow(a, n) * Pow(b, n)
  {
    if n > 0 {
      PowMul(a, b, n - 1);
      PairUp(Pow(a, n - 1), Pow(b, n - 1), a, b);
    }
  }

  lemma PairUp(q: int, r: int, a: int, b: int)
    ensures q * r * (a * b) == q * a * (r * b)
  {
  }

  lemma {:induction false} PowAdd(a: int, m: nat, n: nat)
    ensures Pow(a, m + n) == Pow(a, m) * Pow(a, n)
  {
    if n > 0 {
      PowAdd(a, m, n - 1);
      assert Pow(a, m) * Pow(a, n - 1) * a == Pow(a, m) * (Pow(a, n - 1) * a);
    }
  }

  lemma {:induction false} PowCong(p: Prime, a: int, b: int, n: nat)
    requires Cong(p, a, b)
    ensures Cong(p, Pow(a, n), Pow(b, n))
  {
    if n == 0 {
      CongRefl(p, 1);
    } else {
      PowCong(p, a, b, n - 1);
      CongMul(p, Pow(a, n - 1), Pow(b, n - 1), a, b);
    }
  }

  /** The quadratic character of w, as the exponent c1 exposes it. */
  function Character(params: Params, w: int): int {
    Pow(w, params.c1) * Pow(w, params.c1) * w
  }

  lemma CharacterIsPow(p: Prime, params: Params, w: int)
    requires ValidParams(p, params)
    ensures Character(params, w) == Pow(w, (p - 1) / 2)
    ensures Character(params, w) * Character(params, w) == Pow(w, p - 1)
  {
    var h := (p - 1) / 2;
    assert h == params.c1 + params.c1 + 1 && p - 1 == h + h;
    PowAdd(w, params.c1, params.c1);
    PowAdd(w, h, h);
  }

  lemma CharacterIsSign(p: Prime, params: Params, w: int)
    requires ValidParams(p, params) && !Cong(p, w, 0)
    ensures Cong(p, Character(params, w), 1) || Cong(p, Character(params, w), -1)
  {
    var c := Character(params, w);
    CharacterIsPow(p, params, w);
    FermatLittle(p, w);
    assert (c - 1) * (c + 1) == c * c - 1;
    NoZeroDivisors(p, c - 1, c + 1);
  }

  /** y1^2 * v == u * character(u * v^3) */
  lemma FirstRoot(params: Params, u: int, v: int)
    ensures
      var w := v * v * (u * v);
      var y1 := Pow(w, params.c1) * (u * v);
      y1 * y1 * v == Character(params, w) * u
  {
    var w := v * v * (u * v);
    var q := Pow(w, params.c1);
    FirstRootTerms(q, u, v);
  }

  lemma FirstRootTerms(q: int, u: int, v: int)
    ensures q * (u * v) * (q * (u * v)) * v == q * q * (v * v * (u * v)) * u
  {
  }

  /** A root of u/v when there is one, and then isQr holds; otherwise a root of Z*u/v. */
  lemma SqrtRatioIsRoot(p: Prime, params: Params, u: int, v: int)
    requires ValidParams(p, params) && !Cong(p, v, 0)
    ensures
      var (isQr, y) := SqrtRatio3mod4(p, params, u, v);
      && (isQr <==> HasRoot(p, u, v))
      && Cong(p, y * y * v, if isQr then u else params.z * u)
  {
    var w := v * v * (u * v);
    var c, y1 := Character(params, w), Pow(w, params.c1) * (u * v);
    FirstRoot(params, u, v);
    if Cong(p, y1 * y1 * v, u) {
    } else {
      if Cong(p, w, 0) {
        ZeroRatio(p, u, v, c);
        assert false;
      }
      CharacterIsSign(p, params, w);
      if Cong(p, c, 1) {
        CongScale(p, c, 1, u);
        assert false;
      }
      SecondRoot(p, params, c, u, y1, v);
      if HasRoot(p, u, v) {
        var s :| Cong(p, s * s * v, u);
        SquareCharacter(p, params, s, u, v);
        CongScale(p, c, 1, u);
        assert false;
      }
    }
  }

  lemma ZeroRatio(p: Prime, u: int, v: int, c: int)
    requires Cong(p, v * v * (u * v), 0) && !Cong(p, v, 0)
    ensures Cong(p, c * u, u)
  {
    NoZeroDivisors(p, v * v, u * v);
    if Cong(p, v * v, 0) {
      NoZeroDivisors(p, v, v);
    }
    NoZeroDivisors(p, u, v);
    MultipleOfZero(p, u, c);
    CongSym(p, u, 0);
    CongTrans(p, c * u, 0, u);
  }

  lemma SecondRoot(p: Prime, params: Params, c: int, u: int, y1: int, v: int)
    requires ValidParams(p, params) && Cong(p, c, -1) && y1 * y1 * v == c * u
    ensures
      var y2 := y1 * params.c2;
      Cong(p, y2 * y2 * v, params.z * u)
  {
    var c2, y2 := params.c2, y1 * params.c2;
    CongMul(p, c2 * c2, -params.z, c, -1);
    CongScale(p, c2 * c2 * c, -params.z * -1, u);
    assert y2 * y2 * v == c2 * c2 * (y1 * y1 * v);
    assert c2 * c2 * (c * u) == c2 * c2 * c * u;
  }

  /** u * v^3 is a square when u / v is. */
  lemma SquareCharacter(p: Prime, params: Params, s: int, u: int, v: int)
    requires ValidParams(p, params) && Cong(p, s * s * v, u) && !Cong(p, v * v * (u * v), 0)
    ensures Cong(p, Character(params, v * v * (u * v)), 1)
  {
    var w, r, h := v * v * (u * v), s * (v * v), (p - 1) / 2;
    CongScale(p, s * s * v, u, v * v * v);
    assert s * s * v * (v * v * v) == r * r;
    assert u * (v * v * v) == w;
    if Cong(p, r, 0) {
      MultipleOfZero(p, r, r);
      CongSym(p, r * r, w);
      CongTrans(p, w, r * r, 0);
      assert false;
    }
    PowCong(p, r * r, w, h);
    PowMul(r, r, h);
    CharacterIsPow(p, params, r);
    FermatLittle(p, r);
    CharacterIsPow(p, params, w);
    CongSym(p, Pow(r * r, h), Pow(w, h));
    CongTrans(p, Pow(w, h), Pow(r, p - 1), 1);
  }

  // ----- the map lands on the curve

  /** The numerator of g at t*n, for a denominator d: t^3 times the numerator at n. */
  lemma SecondCandidate(a: int, b: int, t: int, n: int, d: int)
    requires n == b * (t * t + t + 1) && d == a * -(t * t + t)
    ensures Numerator(a, b, t * n, d) == t * t * t * Numerator(a, b, n, d)
  {
    var q, k := t * t + t, a * b;
    var m := q + 1;
    assert a * n == k * m && b * d == -(k * q);
    SecondCandidateTerms(a, b, t, n, d);
    assert a * n * q + b * d * m == 0;
  }

  lemma SecondCandidateTerms(a: int, b: int, t: int, n: int, d: int)
    ensures Numerator(a, b, t * n, d) - t * t * t * Numerator(a, b, n, d)
            == d * d * ((1 - t) * (a * n * (t * t + t) + b * d * (t * t + t + 1)))
  {
    ExpandNumerator(a, b, n, d);
    ExpandNumerator(a, b, t * n, d);
    var c, e, f := t * t * t, a * n, b * d;
    CubesPair(t, n);
    assert a * (t * n) == t * e;
    FactorOneMinus(t, e, f);
    GatherCubes(c, n * n * n, d * d, e, f, t * e);
  }

  lemma ExpandNumerator(a: int, b: int, n: int, d: int)
    ensures Numerator(a, b, n, d) == n * n * n + d * d * (a * n) + d * d * (b * d)
  {
    assert a * (d * d) * n == d * d * (a * n);
    assert b * (d * d * d) == d * d * (b * d);
  }

  lemma FactorOneMinus(t: int, e: int, f: int)
    ensures (1 - t) * (e * (t * t + t) + f * (t * t + t + 1)) == t * e - t * t * t * e + f - t * t * t * f
  {
  }

  lemma GatherCubes(c: int, nnn: int, dd: int, e: int, f: int, te: int)
    ensures c * nnn + dd * te + dd * f - c * (nnn + dd * e + dd * f) == dd * (te - c * e + f - c * f)
  {
  }

  lemma NumeratorCong(p: Prime, a: int, b: int, n: int, d: int, n': int, d': int)
    requires Cong(p, n, n') && Cong(p, d, d')
    ensures Cong(p, Numerator(a, b, n, d), Numerator(a, b, n', d'))
  {
    CongMul(p, n, n', n, n');
    CongMul(p, d, d', d, d');
    CongMul(p, d * d, d' * d', d, d');
    CongScale(p, d * d, d' * d', a);
    CongAdd(p, n * n, n' * n', a * (d * d), a * (d' * d'));
    CongMul(p, n * n + a * (d * d), n' * n' + a * (d' * d'), n, n');
    CongScale(p, d * d * d, d' * d' * d', b);
    CongAdd(p, (n * n + a * (d * d)) * n, (n' * n' + a * (d' * d')) * n', b * (d * d * d), b * (d' * d' * d'));
  }

  /** y^2 * d^3 equal to the numerator at n is the curve equation at n / d. */
  lemma DividedOut(p: Prime, a: int, b: int, n: int, d: int, y: int)
    requires !Cong(p, d, 0) && Cong(p, y * y * (d * d * d), Numerator(a, b, n, d))
    ensures OnCurve(p, a, b, n * Inv(p, d), y)
  {
    var i := Inv(p, d);
    var e, x := d * i, n * i;
    var k := i * i * i;
    CongScale(p, y * y * (d * d * d), Numerator(a, b, n, d), k);
    CongMul(p, e, 1, e, 1);
    CongMul(p, e * e, 1, e, 1);
    CongScale(p, e * e * e, 1, y * y);
    CubesPair(d, i);
    assert y * y * (d * d * d) * k == y * y * (e * e * e);
    CongSym(p, y * y * (e * e * e), y * y);
    CongTrans(p, y * y, y * y * (e * e * e), Numerator(a, b, n, d) * k);
    NumeratorDivided(a, b, n, d, i);
    CongScale(p, e * e, 1, a * x);
    CongScale(p, e * e * e, 1, b);
    CongRefl(p, x * x * x);
    CongAdd(p, x * x * x, x * x * x, a * x * (e * e), a * x);
    CongAdd(p, x * x * x + a * x * (e * e), x * x * x + a * x, b * (e * e * e), b);
    CongTrans(p, y * y, x * x * x + a * x * (e * e) + b * (e * e * e), Cubic(a, b, x));
  }

  lemma CubesPair(d: int, i: int)
    ensures d * d * d * (i * i * i) == d * i * (d * i) * (d * i)
  {
  }

  lemma NumeratorDivided(a: int, b: int, n: int, d: int, i: int)
    ensures
      var e, x := d * i, n * i;
      Numerator(a, b, n, d) * (i * i * i) == x * x * x + a * x * (e * e) + b * (e * e * e)
  {
    CubesPair(n, i);
    CubesPair(d, i);
    MixedCubes(n, d, i);
    var k := i * i * i;
    assert Numerator(a, b, n, d) * k == n * n * n * k + a * (d * d * n * k) + b * (d * d * d * k);
  }

  lemma MixedCubes(n: int, d: int, i: int)
    ensures d * d * n * (i * i * i) == n * i * (d * i * (d * i))
  {
  }

  /** The first candidate's numerator and denominator, and the intermediate t = Z*u^2. */
  function T(params: Params, u: int): int {
    params.z * (u * u)
  }

  function N(params: Params, u: int): int {
    params.mapB * (T(params, u) * T(params, u) + T(params, u) + 1)
  }

  function D(p: Prime, params: Params, u: int): int {
    Tv4(p, params, T(params, u) * T(params, u) + T(params, u))
  }

  function FirstNumerator(p: Prime, params: Params, u: int): int {
    Numerator(params.mapA, params.mapB, N(params, u), D(p, params, u))
  }

  function Root(p: Prime, params: Params, u: int): (bool, int) {
    var d := D(p, params, u);
    SqrtRatio3mod4(p, params, FirstNumerator(p, params, u), d * d * d)
  }

  function WithSignOf(p: Prime, u: int, y: int): int {
    if Sgn0(p, u) == Sgn0(p, y) then y else -y
  }

  /** The straight-line code in terms of these. */
  lemma MapParts(p: Prime, params: Params, u: int)
    requires ValidParams(p, params)
    ensures !Cong(p, D(p, params, u), 0)
    ensures
      var t, n, d, r := T(params, u), N(params, u), D(p, params, u), Root(p, params, u);
      Map(p, params, u)
      == if r.0 then (n * Inv(p, d), WithSignOf(p, u, r.1)) else (t * n * Inv(p, d), WithSignOf(p, u, t * u * r.1))
  {
    Tv4Nonzero(p, params, T(params, u) * T(params, u) + T(params, u));
  }

  /** What the square root of g / v promises. */
  ghost predicate IsRootOf(p: Prime, z: int, r: (bool, int), g: int, v: int) {
    (r.0 <==> HasRoot(p, g, v)) && Cong(p, r.1 * r.1 * v, if r.0 then g else z * g)
  }

  function Cube(d: int): int {
    d * d * d
  }

  lemma RootIsRoot(p: Prime, params: Params, u: int)
    requires ValidParams(p, params)
    ensures IsRootOf(p, params.z, Root(p, params, u), FirstNumerator(p, params, u), Cube(D(p, params, u)))
  {
    var d := D(p, params, u);
    Tv4Nonzero(p, params, T(params, u) * T(params, u) + T(params, u));
    CubeNonzero(p, d);
    SqrtRatioIsRoot(p, params, FirstNumerator(p, params, u), Cube(d));
  }

  lemma CubeNonzero(p: Prime, d: int)
    requires !Cong(p, d, 0)
    ensures !Cong(p, Cube(d), 0)
  {
    if Cong(p, Cube(d), 0) {
      NoZeroDivisors(p, d * d, d);
      NoZeroDivisors(p, d, d);
      assert false;
    }
  }

  lemma FirstCandidateOnCurve(p: Prime, a: int, b: int, z: int, n: int, d: int, r: (bool, int))
    requires !Cong(p, d, 0) && IsRootOf(p, z, r, Numerator(a, b, n, d), Cube(d)) && r.0
    ensures OnCurve(p, a, b, n * Inv(p, d), r.1)
  {
    DividedOut(p, a, b, n, d, r.1);
  }

  /** In the exceptional case g(B / (Z*A)) is a square, so the first candidate is taken. */
  lemma ExceptionalCaseHasRoot(p: Prime, a: int, b: int, q: int, d: int, n: int)
    requires Cong(p, q, 0) && n == b * (q + 1) && HasRoot(p, Numerator(a, b, b, d), Cube(d))
    ensures HasRoot(p, Numerator(a, b, n, d), Cube(d))
  {
    CongRefl(p, 1);
    CongAdd(p, q, 0, 1, 1);
    CongScale(p, q + 1, 1, b);
    assert b * 1 == b;
    CongRefl(p, d);
    NumeratorCong(p, a, b, n, d, b, d);
    var s :| Cong(p, s * s * Cube(d), Numerator(a, b, b, d));
    CongSym(p, Numerator(a, b, n, d), Numerator(a, b, b, d));
    CongTrans(p, s * s * Cube(d), Numerator(a, b, b, d), Numerator(a, b, n, d));
  }

  lemma SecondCandidateOnCurve(p: Prime, a: int, b: int, z: int, u: int, t: int, n: int, d: int, r: (bool, int))
    requires t == z * (u * u) && n == b * (t * t + t + 1) && d == a * -(t * t + t)
    requires !Cong(p, d, 0) && IsRootOf(p, z, r, Numerator(a, b, n, d), Cube(d)) && !r.0
    ensures OnCurve(p, a, b, t * n * Inv(p, d), t * u * r.1)
  {
    var g, y1, v := Numerator(a, b, n, d), r.1, Cube(d);
    CongScale(p, y1 * y1 * v, z * g, t * t * (u * u));
    SecondRootScaled(z, u, y1, v, g, t);
    SecondCandidate(a, b, t, n, d);
    DividedOut(p, a, b, t * n, d, t * u * y1);
  }

  lemma SecondRootScaled(z: int, u: int, y1: int, v: int, g: int, t: int)
    requires t == z * (u * u)
    ensures t * t * (u * u) * (y1 * y1 * v) == t * u * y1 * (t * u * y1) * v
    ensures t * t * (u * u) * (z * g) == t * t * t * g
  {
    assert u * u * (z * g) == z * (u * u) * g;
    assert t * t * (u * u) * (z * g) == t * t * (u * u * (z * g));
    assert t * t * (t * g) == t * t * t * g;
  }

  // ----- signs

  lemma ResidueOf(p: Prime, x: int, r: int)
    requires 0 <= r < p && Cong(p, x, r)
    ensures x % p == r
  {
    Reduced(p, x);
    CongTrans(p, x % p, x, r);
    if x % p != r {
      DistinctResidues(p, x % p, r);
    }
  }

  lemma ResidueOfNegation(p: Prime, y: int)
    requires !Cong(p, y, 0)
    ensures -y % p == p - y % p
  {
    Reduced(p, y);
    CongSym(p, y % p, y);
    CongIntro(p, 0, p, -1);
    CongAdd(p, 0, p, y, y % p);
    ResidueOf(p, -y, p - y % p);
  }

  /** An odd modulus: negation flips the parity of every nonzero residue. */
  lemma SignFlips(p: Prime, y: int)
    requires p % 2 == 1 && !Cong(p, y, 0)
    ensures Sgn0(p, -y) == !Sgn0(p, y)
  {
    ResidueOfNegation(p, y);
    ParityFlips(p, y % p);
  }

  lemma ParityFlips(p: int, r: int)
    requires p % 2 == 1
    ensures (p - r) % 2 == 1 <==> r % 2 != 1
  {
  }

  lemma NegatedOnCurve(p: Prime, a: int, b: int, x: int, y: int)
    requires OnCurve(p, a, b, x, y)
    ensures OnCurve(p, a, b, x, -y)
  {
    assert -y * -y == y * y;
  }

  // ----- main results

  lemma SignedOnCurve(p: Prime, params: Params, u: int, x: int, y: int)
    requires ValidParams(p, params) && OnCurve(p, params.mapA, params.mapB, x, y)
    ensures
      var w := WithSignOf(p, u, y);
      OnCurve(p, params.mapA, params.mapB, x, w) && (Cong(p, w, 0) || Sgn0(p, w) == Sgn0(p, u))
  {
    NegatedOnCurve(p, params.mapA, params.mapB, x, y);
    SignMatches(p, u, y);
  }

  lemma Odd(p: int)
    requires p % 4 == 3
    ensures p % 2 == 1
  {
    var q := p / 4;
    assert p == 2 * (2 * q + 1) + 1;
    OddForm(2 * q + 1);
  }

  lemma OddForm(k: int)
    ensures (2 * k + 1) % 2 == 1
  {
  }

  lemma SignMatches(p: Prime, u: int, y: int)
    requires p % 4 == 3
    ensures
      var w := WithSignOf(p, u, y);
      Cong(p, w, 0) || Sgn0(p, w) == Sgn0(p, u)
  {
    Odd(p);
    NegatedZero(p, y);
    if !Cong(p, y, 0) {
      SignFlips(p, y);
    }
  }

  /** One of the two candidates, with the sign still open. */
  ghost function Candidate(p: Prime, params: Params, u: int): (int, int)
    requires !Cong(p, D(p, params, u), 0)
  {
    var t, n, d, r := T(params, u), N(params, u), D(p, params, u), Root(p, params, u);
    if r.0 then (n * Inv(p, d), r.1) else (t * n * Inv(p, d), t * u * r.1)
  }

  lemma MapSigns(p: Prime, params: Params, u: int)
    requires ValidParams(p, params)
    ensures !Cong(p, D(p, params, u), 0)
    ensures
      var c := Candidate(p, params, u);
      Map(p, params, u) == (c.0, WithSignOf(p, u, c.1))
  {
    MapParts(p, params, u);
  }

  lemma CandidateOnCurve(p: Prime, params: Params, u: int)
    requires ValidParams(p, params) && !Cong(p, D(p, params, u), 0)
    ensures
      var c := Candidate(p, params, u);
      OnCurve(p, params.mapA, params.mapB, c.0, c.1)
  {
    var a, b, z, t, n, d, r := params.mapA, params.mapB, params.z, T(params, u), N(params, u), D(p, params, u),
        Root(p, params, u);
    RootIsRoot(p, params, u);
    if r.0 {
      FirstCandidateOnCurve(p, a, b, z, n, d, r);
    } else {
      if Cong(p, t * t + t, 0) {
        ExceptionalCaseHasRoot(p, a, b, t * t + t, d, n);
      }
      SecondCandidateOnCurve(p, a, b, z, u, t, n, d, r);
    }
  }

  /** The map is total and lands on the curve; y is odd exactly when u is, both reduced, unless y is 0. */
  lemma MapLandsOnCurve(p: Prime, params: Params, u: int)
    requires ValidParams(p, params)
    ensures
      var (x, y) := Map(p, params, u);
      && Cong(p, y * y, x * x * x + params.mapA * x + params.mapB)
      && (Cong(p, y, 0) || y % p % 2 == u % p % 2)
  {
    MapSigns(p, params, u);
    CandidateOnCurve(p, params, u);
    var c := Candidate(p, params, u);
    SignedOnCurve(p, params, u, c.0, c.1);
  }

  // ----- the map against its definition

  ghost predicate IsSquare(p: Prime, w: int) {
    exists s :: Cong(p, s * s, w)
  }

  /** The first candidate of section 6.6.2 of RFC 9380, with t = Z*u^2: A*x1 is -B*(1 + 1/(t^2 + t)), or B/Z
      where t^2 + t is zero. */
  ghost predicate IsFirstCandidate(p: Prime, params: Params, u: int, x1: int) {
    var t := params.z * (u * u);
    && (!Cong(p, t * t + t, 0) ==> Cong(p, params.mapA * x1 * (t * t + t), -params.mapB * (t * t + t + 1)))
    && (Cong(p, t * t + t, 0) ==> Cong(p, params.mapA * x1 * params.z, params.mapB))
  }

  /** (n/d)^3 + A*(n/d) + B times d^3 is the numerator. */
  lemma NumeratorIsCubic(p: Prime, a: int, b: int, n: int, d: int)
    requires !Cong(p, d, 0)
    ensures Cong(p, Cubic(a, b, n * Inv(p, d)) * Cube(d), Numerator(a, b, n, d))
  {
    var i := Inv(p, d);
    var e, x := d * i, n * i;
    CongMul(p, e, 1, e, 1);
    CongMul(p, e * e, 1, e, 1);
    NumeratorDivided(a, b, n, d, i);
    CongScale(p, e * e, 1, a * x);
    CongScale(p, e * e * e, 1, b);
    CongRefl(p, x * x * x);
    CongAdd(p, x * x * x, x * x * x, a * x * (e * e), a * x);
    CongAdd(p, x * x * x + a * x * (e * e), x * x * x + a * x, b * (e * e * e), b);
    CongScale(p, Numerator(a, b, n, d) * (i * i * i), Cubic(a, b, x), Cube(d));
    CongScale(p, e * e * e, 1, Numerator(a, b, n, d));
    CubesPair(d, i);
    assert Numerator(a, b, n, d) * (i * i * i) * Cube(d) == Numerator(a, b, n, d) * (e * e * e) by {
      Regroup(Numerator(a, b, n, d), i * i * i, Cube(d));
    }
    CongSym(p, Numerator(a, b, n, d) * (i * i * i) * Cube(d), Cubic(a, b, x) * Cube(d));
    CongTrans(p, Cubic(a, b, x) * Cube(d), Numerator(a, b, n, d) * (e * e * e), Numerator(a, b, n, d));
  }

  lemma Regroup(g: int, k: int, c: int)
    ensures g * k * c == g * (c * k)
  {
  }

  /** The ratio whose root the code takes is g at the first candidate. */
  lemma RootIffSquare(p: Prime, a: int, b: int, n: int, d: int)
    requires !Cong(p, d, 0)
    ensures HasRoot(p, Numerator(a, b, n, d), Cube(d)) <==> IsSquare(p, Cubic(a, b, n * Inv(p, d)))
  {
    var g, x := Numerator(a, b, n, d), n * Inv(p, d);
    if HasRoot(p, g, Cube(d)) {
      var s :| Cong(p, s * s * Cube(d), g);
      DividedOut(p, a, b, n, d, s);
    }
    if IsSquare(p, Cubic(a, b, x)) {
      var s :| Cong(p, s * s, Cubic(a, b, x));
      CongScale(p, s * s, Cubic(a, b, x), Cube(d));
      NumeratorIsCubic(p, a, b, n, d);
      CongTrans(p, s * s * Cube(d), Cubic(a, b, x) * Cube(d), g);
    }
  }

  lemma FirstIsCandidate(p: Prime, params: Params, u: int)
    requires ValidParams(p, params) && !Cong(p, D(p, params, u), 0)
    ensures IsFirstCandidate(p, params, u, N(params, u) * Inv(p, D(p, params, u)))
  {
    var t, n, d := T(params, u), N(params, u), D(p, params, u);
    var q, i := t * t + t, Inv(p, d);
    CongScale(p, d * i, 1, n);
    if Cong(p, q, 0) {
      ExceptionalCandidate(p, params, n, d, i, q);
    } else {
      NegatedProduct(params.mapA, n, i, q);
      CongScale(p, n * (d * i), n * 1, -1);
      assert -(n * 1) == -params.mapB * (q + 1);
    }
  }

  lemma ExceptionalCandidate(p: Prime, params: Params, n: int, d: int, i: int, q: int)
    requires d == params.mapA * params.z && n == params.mapB * (q + 1) && Cong(p, q, 0)
    requires Cong(p, n * (d * i), n * 1)
    ensures Cong(p, params.mapA * (n * i) * params.z, params.mapB)
  {
    var a, b, z := params.mapA, params.mapB, params.z;
    CongRefl(p, 1);
    CongAdd(p, q, 0, 1, 1);
    CongScale(p, q + 1, 1, b);
    CongTrans(p, n * (d * i), n, b);
    Rotate(a, z, n, i);
  }

  lemma Rotate(a: int, z: int, n: int, i: int)
    ensures n * (a * z * i) == a * (n * i) * z
  {
  }

  lemma NegatedProduct(a: int, n: int, i: int, q: int)
    ensures a * (n * i) * q == -1 * (n * (a * -q * i))
  {
  }

  lemma ChosenBySquare(p: Prime, a: int, b: int, z: int, n: int, d: int, r: (bool, int))
    requires !Cong(p, d, 0) && IsRootOf(p, z, r, Numerator(a, b, n, d), Cube(d))
    ensures r.0 <==> IsSquare(p, Cubic(a, b, n * Inv(p, d)))
  {
    RootIffSquare(p, a, b, n, d);
  }

  lemma Scaled(t: int, n: int, i: int)
    ensures t * n * i == t * (n * i)
  {
  }

  lemma CandidateBySquare(p: Prime, params: Params, u: int, x1: int)
    requires ValidParams(p, params) && !Cong(p, D(p, params, u), 0)
    requires x1 == N(params, u) * Inv(p, D(p, params, u))
    ensures Candidate(p, params, u).0
            == if IsSquare(p, Cubic(params.mapA, params.mapB, x1)) then x1 else T(params, u) * x1
  {
    var n, d := N(params, u), D(p, params, u);
    RootIsRoot(p, params, u);
    ChosenBySquare(p, params.mapA, params.mapB, params.z, n, d, Root(p, params, u));
    Scaled(T(params, u), n, Inv(p, d));
  }

  /** The map of section 6.6.2 of RFC 9380: x is the first candidate x1 where g(x1) is a square and Z*u^2*x1
      otherwise.  With the curve equation and the sign of y this leaves one point. */
  lemma MapIsSswu(p: Prime, params: Params, u: int) returns (x1: int)
    requires ValidParams(p, params)
    ensures IsFirstCandidate(p, params, u, x1)
    ensures Map(p, params, u).0 == if IsSquare(p, x1 * x1 * x1 + params.mapA * x1 + params.mapB) then x1
                                   else params.z * (u * u) * x1
  {
    MapSigns(p, params, u);
    FirstIsCandidate(p, params, u);
    x1 := N(params, u) * Inv(p, D(p, params, u));
    CandidateBySquare(p, params, u, x1);
  }

  lemma CandidateIsOdd(p: Prime, params: Params, u: int)
    requires !Cong(p, D(p, params, u), 0)
    ensures D(p, params, -u) == D(p, params, u)
    ensures
      var c, c' := Candidate(p, params, u), Candidate(p, params, -u);
      c'.0 == c.0 && (c'.1 == c.1 || c'.1 == -c.1)
  {
    assert -u * -u == u * u;
    assert T(params, -u) == T(params, u);
    NegatedFactor(T(params, u), u, Root(p, params, u).1);
  }

  lemma NegatedFactor(t: int, u: int, y: int)
    ensures t * -u * y == -(t * u * y)
  {
  }

  lemma SignedIsOdd(p: Prime, params: Params, u: int)
    requires p % 4 == 3 && !Cong(p, u, 0) && !Cong(p, D(p, params, u), 0)
    ensures D(p, params, -u) == D(p, params, u)
    ensures
      var c, c' := Candidate(p, params, u), Candidate(p, params, -u);
      c'.0 == c.0 && Cong(p, WithSignOf(p, -u, c'.1), -WithSignOf(p, u, c.1))
  {
    Odd(p);
    CandidateIsOdd(p, params, u);
    SignFlips(p, u);
    OppositeSigns(p, u, Candidate(p, params, u).1, Candidate(p, params, -u).1);
  }

  /** Negating the input negates the point. */
  lemma MapIsOdd(p: Prime, params: Params, u: int)
    requires ValidParams(p, params) && !Cong(p, u, 0)
    ensures
      var (x, y), (x', y') := Map(p, params, u), Map(p, params, -u);
      x' == x && Cong(p, y', -y)
  {
    MapSigns(p, params, u);
    MapSigns(p, params, -u);
    SignedIsOdd(p, params, u);
  }

  lemma OppositeSigns(p: Prime, u: int, y: int, y': int)
    requires p % 2 == 1 && Sgn0(p, -u) == !Sgn0(p, u) && (y' == y || y' == -y)
    ensures Cong(p, WithSignOf(p, -u, y'), -WithSignOf(p, u, y))
  {
    CongRefl(p, y);
    CongRefl(p, -y);
    NegatedZero(p, y);
    if Cong(p, y, 0) {
      CongSym(p, y, 0);
      CongSym(p, -y, 0);
      CongTrans(p, y, 0, -y);
      CongTrans(p, -y, 0, y);
    } else {
      SignFlips(p, y);
    }
  }
}
