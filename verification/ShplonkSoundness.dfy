/** Soundness of the Shplonk batch: whatever quotient was committed to, a false opening claim makes the
    verifier's combination vanish at few challenges z only. */
module ShplonkSoundness {
  import opened PrimeField
  import opened Sums
  import opened Polynomials
  import opened Shplonk

  /** f is claimed to take `value` at `point`; its weight in the batch. */
  datatype Claim = Claim(f: seq<int>, point: int, value: int, weight: int)

  ghost predicate IsTrue(p: Prime, c: Claim) {
    Cong(p, Eval(c.f, c.point), c.value)
  }

  /** The rational combination at z, with inverses of z - point: q(z) - sum of weight * inv * (f(z) - value). */
  function Combined(q: seq<int>, claims: seq<Claim>, inv: seq<int>, z: int, n: nat): int
    requires n <= |claims| && n <= |inv|
  {
    if n == 0 then Eval(q, z)
    else
      Combined(q, claims, inv, z, n - 1)
      - claims[n - 1].weight * inv[n - 1] * (Eval(claims[n - 1].f, z) - claims[n - 1].value)
  }

  ghost predicate InvertsPoints(p: Prime, claims: seq<Claim>, inv: seq<int>, z: int) {
    |inv| == |claims| && forall i :: 0 <= i < |claims| ==> Cong(p, (z - claims[i].point) * inv[i], 1)
  }

  // ----- clearing the denominators

  /** (X - a) * g */
  function TimesLinear(g: seq<int>, a: int): seq<int> {
    Add([0] + g, Scale(-a, g))
  }

  lemma EvalTimesLinear(g: seq<int>, a: int, x: int)
    ensures Eval(TimesLinear(g, a), x) == (x - a) * Eval(g, x)
    ensures |TimesLinear(g, a)| == |g| + 1
  {
    EvalScale(-a, g, x);
    EvalAdd([0] + g, Scale(-a, g), x);
    assert ([0] + g)[1..] == g;
    assert (x - a) * Eval(g, x) == x * Eval(g, x) + -a * Eval(g, x);
  }

  /** The product of x - point over the first n claims. */
  function RootsAt(claims: seq<Claim>, x: int, n: nat): int
    requires n <= |claims|
  {
    if n == 0 then 1 else RootsAt(claims, x, n - 1) * (x - claims[n - 1].point)
  }

  function TimesRoots(g: seq<int>, claims: seq<Claim>, n: nat): seq<int>
    requires n <= |claims|
  {
    if n == 0 then g else TimesLinear(TimesRoots(g, claims, n - 1), claims[n - 1].point)
  }

  lemma {:induction false} EvalTimesRoots(g: seq<int>, claims: seq<Claim>, n: nat, x: int)
    requires n <= |claims|
    ensures Eval(TimesRoots(g, claims, n), x) == RootsAt(claims, x, n) * Eval(g, x)
    ensures |TimesRoots(g, claims, n)| == |g| + n
  {
    if n > 0 {
      EvalTimesRoots(g, claims, n - 1, x);
      EvalTimesLinear(TimesRoots(g, claims, n - 1), claims[n - 1].point, x);
      var e, r, v := x - claims[n - 1].point, RootsAt(claims, x, n - 1), Eval(g, x);
      Regroup(e, r, v);
    }
  }

  lemma Regroup(e: int, r: int, v: int)
    ensures e * (r * v) == r * e * v
  {
  }

  function Residual(c: Claim): seq<int> {
    Add(c.f, [-c.value])
  }

  lemma EvalResidual(c: Claim, x: int)
    ensures Eval(Residual(c), x) == Eval(c.f, x) - c.value
    ensures |Residual(c)| == if |c.f| == 0 then 1 else |c.f|
  {
    EvalAdd(c.f, [-c.value], x);
    assert [-c.value][1..] == [] && Eval([-c.value], x) == -c.value + x * 0;
  }

  /** The combination times the product of all X - point: a polynomial. */
  function Cleared(q: seq<int>, claims: seq<Claim>, n: nat): seq<int>
    requires n <= |claims|
  {
    if n == 0 then q
    else
      Add(TimesLinear(Cleared(q, claims, n - 1), claims[n - 1].point),
          Scale(-claims[n - 1].weight, TimesRoots(Residual(claims[n - 1]), claims, n - 1)))
  }

  lemma ClearedStep(q: seq<int>, claims: seq<Claim>, n: nat, x: int)
    requires n < |claims|
    ensures Eval(Cleared(q, claims, n + 1), x) == (x - claims[n].point) * Eval(Cleared(q, claims, n), x)
        + -claims[n].weight * (RootsAt(claims, x, n) * (Eval(claims[n].f, x) - claims[n].value))
  {
    var c := claims[n];
    var g, h := TimesLinear(Cleared(q, claims, n), c.point), TimesRoots(Residual(c), claims, n);
    EvalTimesLinear(Cleared(q, claims, n), c.point, x);
    EvalTimesRoots(Residual(c), claims, n, x);
    EvalResidual(c, x);
    EvalScale(-c.weight, h, x);
    EvalAdd(g, Scale(-c.weight, h), x);
    NextCleared(Eval(g, x), (x - c.point) * Eval(Cleared(q, claims, n), x), -c.weight, Eval(h, x),
                RootsAt(claims, x, n) * (Eval(c.f, x) - c.value), Eval(Cleared(q, claims, n + 1), x));
  }

  lemma NextCleared(g: int, g': int, w: int, h: int, h': int, whole: int)
    requires g == g' && h == h' && whole == g + w * h
    ensures whole == g' + w * h'
  {
  }

  lemma ClearedStepLength(q: seq<int>, claims: seq<Claim>, n: nat)
    requires n < |claims|
    ensures
      var (g, h) := (|Cleared(q, claims, n)| + 1, |Residual(claims[n])| + n);
      |Cleared(q, claims, n + 1)| == if g <= h then h else g
  {
    var c := claims[n];
    var g, h := TimesLinear(Cleared(q, claims, n), c.point), TimesRoots(Residual(c), claims, n);
    EvalTimesLinear(Cleared(q, claims, n), c.point, 0);
    EvalTimesRoots(Residual(c), claims, n, 0);
    EvalScale(-c.weight, h, 0);
    EvalAdd(g, Scale(-c.weight, h), 0);
  }

  lemma {:induction false} ClearedLength(q: seq<int>, claims: seq<Claim>, m: nat, n: nat)
    requires n <= |claims| && 0 < m && |q| <= m && forall i :: 0 <= i < |claims| ==> |claims[i].f| <= m
    ensures |Cleared(q, claims, n)| <= m + n
  {
    if n > 0 {
      ClearedLength(q, claims, m, n - 1);
      ClearedStepLength(q, claims, n - 1);
      EvalResidual(claims[n - 1], 0);
    }
  }

  /** Off the points, clearing multiplies the combination by a nonzero product. */
  ghost predicate ClearsAt(p: Prime, q: seq<int>, claims: seq<Claim>, inv: seq<int>, z: int, n: nat)
    requires n <= |claims| && n <= |inv|
  {
    Cong(p, Eval(Cleared(q, claims, n), z), RootsAt(claims, z, n) * Combined(q, claims, inv, z, n))
  }

  lemma ClearsNext(p: Prime, q: seq<int>, claims: seq<Claim>, inv: seq<int>, z: int, n: nat)
    requires n < |claims| && n < |inv| && ClearsAt(p, q, claims, inv, z, n)
             && Cong(p, (z - claims[n].point) * inv[n], 1)
    ensures ClearsAt(p, q, claims, inv, z, n + 1)
  {
    ClearedStep(q, claims, n, z);
    ClearOne(p, z - claims[n].point, inv[n], Eval(Cleared(q, claims, n), z), RootsAt(claims, z, n),
             Combined(q, claims, inv, z, n), claims[n].weight, Eval(claims[n].f, z) - claims[n].value,
             Eval(Cleared(q, claims, n + 1), z), RootsAt(claims, z, n + 1), Combined(q, claims, inv, z, n + 1));
  }

  lemma ClearedIsMultiple(p: Prime, q: seq<int>, claims: seq<Claim>, inv: seq<int>, z: int)
    requires InvertsPoints(p, claims, inv, z)
    ensures ClearsAt(p, q, claims, inv, z, |claims|)
  {
    CongRefl(p, Eval(q, z));
    var n := 0;
    while n < |claims|
      invariant 0 <= n <= |claims| && ClearsAt(p, q, claims, inv, z, n)
    {
      ClearsNext(p, q, claims, inv, z, n);
      n := n + 1;
    }
  }

  lemma ClearOne(p: Prime, e: int, i: int, cleared: int, r: int, combined: int, w: int, d: int, cleared': int, r': int,
                 combined': int)
    requires Cong(p, cleared, r * combined) && Cong(p, e * i, 1)
    requires cleared' == e * cleared + -w * (r * d) && r' == r * e && combined' == combined - w * i * d
    ensures Cong(p, cleared', r' * combined')
  {
    CongScale(p, cleared, r * combined, e);
    CongScale(p, e * i, 1, r * w * d);
    CongSym(p, r * w * d * (e * i), r * w * d * 1);
    CongAdd(p, e * cleared, e * (r * combined), r * w * d, r * w * d * (e * i));
    ClearOneTerms(e, i, r, combined, w, d);
  }

  lemma ClearOneTerms(e: int, i: int, r: int, combined: int, w: int, d: int)
    ensures e * (r * combined) - r * w * d * (e * i) == r * e * (combined - w * i * d)
    ensures r * w * d * 1 == w * (r * d) && -w * (r * d) == -(r * w * d)
  {
    assert r * w * d * (e * i) == r * e * (w * i * d);
    assert e * (r * combined) == r * e * combined;
    assert r * e * (combined - w * i * d) == r * e * combined - r * e * (w * i * d);
  }

  // ----- a false claim survives at its own point

  ghost predicate DistinctPoints(p: Prime, claims: seq<Claim>) {
    forall i, j :: 0 <= i < |claims| && 0 <= j < |claims| && i != j ==> Apart(p, claims[i], claims[j])
  }

  ghost predicate Apart(p: Prime, c: Claim, d: Claim) {
    !Cong(p, c.point - d.point, 0)
  }

  lemma {:induction false} RootsNonzero(p: Prime, claims: seq<Claim>, i: nat, n: nat)
    requires DistinctPoints(p, claims) && n <= i < |claims|
    ensures !Cong(p, RootsAt(claims, claims[i].point, n), 0)
  {
    if n == 0 {
      DistinctResidues(p, 1, 0);
    } else {
      RootsNonzero(p, claims, i, n - 1);
      assert Apart(p, claims[i], claims[n - 1]);
      ZeroProduct(p, RootsAt(claims, claims[i].point, n - 1), claims[i].point - claims[n - 1].point);
    }
  }

  lemma {:induction false} RootsZero(claims: seq<Claim>, i: nat, n: nat)
    requires i < n <= |claims|
    ensures RootsAt(claims, claims[i].point, n) == 0
  {
    if i < n - 1 {
      RootsZero(claims, i, n - 1);
    }
  }

  lemma OwnTermOnly(p: Prime, q: seq<int>, claims: seq<Claim>, i: nat)
    requires DistinctPoints(p, claims) && i < |claims|
    requires !IsTrue(p, claims[i]) && !Cong(p, claims[i].weight, 0)
    ensures Survives(p, q, claims, claims[i].point, i + 1)
  {
    var c, x := claims[i], claims[i].point;
    ClearedStep(q, claims, i, x);
    RootsNonzero(p, claims, i, i);
    OwnTermNonzero(p, 0, Eval(Cleared(q, claims, i), x), c.weight, RootsAt(claims, x, i), Eval(c.f, x), c.value,
                   Eval(Cleared(q, claims, i + 1), x));
  }

  lemma OwnTermNonzero(p: Prime, e: int, cleared: int, w: int, r: int, f: int, v: int, whole: int)
    requires e == 0 && whole == e * cleared + -w * (r * (f - v))
    requires !Cong(p, w, 0) && !Cong(p, r, 0) && !Cong(p, f, v)
    ensures !Cong(p, whole, 0)
  {
    ZeroProduct(p, r, f - v);
    ZeroProduct(p, w, r * (f - v));
    NegatedZero(p, w * (r * (f - v)));
    assert whole == -(w * (r * (f - v)));
  }

  lemma OtherTermVanishes(p: Prime, e: int, cleared: int, w: int, r: int, d: int, whole: int)
    requires r == 0 && whole == e * cleared + -w * (r * d)
    requires !Cong(p, e, 0) && !Cong(p, cleared, 0)
    ensures !Cong(p, whole, 0)
  {
    ZeroProduct(p, e, cleared);
    assert r * d == 0;
  }

  ghost predicate Survives(p: Prime, q: seq<int>, claims: seq<Claim>, x: int, n: nat)
    requires n <= |claims|
  {
    !Cong(p, Eval(Cleared(q, claims, n), x), 0)
  }

  ghost predicate IsClearedAt(q: seq<int>, claims: seq<Claim>, x: int, values: seq<int>, k: nat)
    requires |values| == |claims| + 1 && k <= |claims|
  {
    values[k] == Eval(Cleared(q, claims, k), x)
  }

  /** The cleared combination of the first 0, 1, 2, ... claims at x. */
  ghost function ClearedValues(q: seq<int>, claims: seq<Claim>, x: int): (s: seq<int>)
    ensures |s| == |claims| + 1 && forall k :: 0 <= k <= |claims| ==> IsClearedAt(q, claims, x, s, k)
  {
    seq(|claims| + 1, k requires 0 <= k <= |claims| => Eval(Cleared(q, claims, k), x))
  }

  lemma LaterTerm(p: Prime, q: seq<int>, claims: seq<Claim>, i: nat, n: nat, values: seq<int>)
    requires DistinctPoints(p, claims) && i < n < |claims| && |values| == |claims| + 1
    requires IsClearedAt(q, claims, claims[i].point, values, n)
             && IsClearedAt(q, claims, claims[i].point, values, n + 1)
    requires !Cong(p, values[n], 0)
    ensures !Cong(p, values[n + 1], 0)
  {
    var x, c := claims[i].point, claims[n];
    ClearedStep(q, claims, n, x);
    RootsZero(claims, i, n);
    assert Apart(p, claims[i], c);
    OtherTermVanishes(p, x - c.point, values[n], c.weight, RootsAt(claims, x, n), Eval(c.f, x) - c.value,
                      values[n + 1]);
  }

  /** From the false claim on, the cleared combination is nonzero at its point. */
  lemma {:induction false} LaterTerms(p: Prime, q: seq<int>, claims: seq<Claim>, i: nat, n: nat, values: seq<int>)
    requires DistinctPoints(p, claims) && i < n <= |claims| && |values| == |claims| + 1
    requires forall k :: 0 <= k <= |claims| ==> IsClearedAt(q, claims, claims[i].point, values, k)
    requires !Cong(p, values[i + 1], 0)
    ensures !Cong(p, values[n], 0)
    decreases n
  {
    if i + 1 < n {
      LaterTerms(p, q, claims, i, n - 1, values);
      LaterTerm(p, q, claims, i, n - 1, values);
    }
  }

  lemma FalseClaimSurvives(p: Prime, q: seq<int>, claims: seq<Claim>, i: nat)
    requires DistinctPoints(p, claims) && i < |claims|
    requires !IsTrue(p, claims[i]) && !Cong(p, claims[i].weight, 0)
    ensures Survives(p, q, claims, claims[i].point, |claims|)
  {
    var values := ClearedValues(q, claims, claims[i].point);
    OwnTermOnly(p, q, claims, i);
    assert IsClearedAt(q, claims, claims[i].point, values, i + 1);
    LaterTerms(p, q, claims, i, |claims|, values);
    assert IsClearedAt(q, claims, claims[i].point, values, |claims|);
  }

  /** The verifier's combination vanishes at z, for some inverses of the denominators. */
  ghost predicate Passes(p: Prime, q: seq<int>, claims: seq<Claim>, z: int) {
    exists inv :: InvertsPoints(p, claims, inv, z) && Cong(p, Combined(q, claims, inv, z, |claims|), 0)
  }

  lemma PassingIsRoot(p: Prime, q: seq<int>, claims: seq<Claim>, z: int)
    requires Passes(p, q, claims, z)
    ensures Cong(p, Eval(Cleared(q, claims, |claims|), z), 0)
  {
    var inv :| InvertsPoints(p, claims, inv, z) && Cong(p, Combined(q, claims, inv, z, |claims|), 0);
    ClearedIsMultiple(p, q, claims, inv, z);
    var r, c := RootsAt(claims, z, |claims|), Combined(q, claims, inv, z, |claims|);
    CongScale(p, c, 0, r);
    CongTrans(p, Eval(Cleared(q, claims, |claims|), z), r * c, 0);
  }

  /** One false claim among distinct points: fewer than m + n challenges pass, for a quotient and
      polynomials of at most m coefficients, whatever the quotient is. */
  lemma FalseClaimIsCaught(p: Prime, q: seq<int>, claims: seq<Claim>, m: nat, i: nat, passing: set<int>)
    requires DistinctPoints(p, claims) && i < |claims|
    requires !IsTrue(p, claims[i]) && !Cong(p, claims[i].weight, 0)
    requires 0 < m && |q| <= m && forall k :: 0 <= k < |claims| ==> |claims[k].f| <= m
    requires forall z :: z in passing ==> 0 <= z < p && Passes(p, q, claims, z)
    ensures |passing| < m + |claims|
  {
    var g := Cleared(q, claims, |claims|);
    FalseClaimSurvives(p, q, claims, i);
    if IsZero(p, g) {
      EvalOfZero(p, g, claims[i].point);
      assert false;
    }
    ClearedLength(q, claims, m, |claims|);
    PassingAreRoots(p, q, claims, passing);
    RootsAreFew(p, g, passing);
  }

  lemma PassingAreRoots(p: Prime, q: seq<int>, claims: seq<Claim>, passing: set<int>)
    requires forall z :: z in passing ==> 0 <= z < p && Passes(p, q, claims, z)
    ensures forall z :: z in passing ==> 0 <= z < p && Cong(p, Eval(Cleared(q, claims, |claims|), z), 0)
  {
    forall z | z in passing ensures Cong(p, Eval(Cleared(q, claims, |claims|), z), 0) {
      PassingIsRoot(p, q, claims, z);
    }
  }

  // ----- the verifier's own batch

  /** The claims of n rounds in the verifier's order: at points[j], then at -points[j]. */
  function RoundClaims(nu: int, points: seq<int>, plus: seq<seq<int>>, minus: seq<seq<int>>, posValues: seq<int>,
                       negValues: seq<int>, n: nat): (s: seq<Claim>)
    requires n <= |points| == |plus| == |minus| && n <= |posValues| && n <= |negValues|
    ensures |s| == 2 * n
  {
    if n == 0 then []
    else
      var j := n - 1;
      RoundClaims(nu, points, plus, minus, posValues, negValues, j)
      + [Claim(plus[j], points[j], posValues[j], Pow(nu * nu, j)),
         Claim(minus[j], -points[j], negValues[j], Pow(nu * nu, j) * nu)]
  }

  function RoundInverses(pos: seq<int>, neg: seq<int>, n: nat): (s: seq<int>)
    requires n <= |pos| == |neg|
    ensures |s| == 2 * n
  {
    if n == 0 then [] else RoundInverses(pos, neg, n - 1) + [pos[n - 1], neg[n - 1]]
  }

  lemma {:induction false} CombinedPrefix(q: seq<int>, claims: seq<Claim>, more: seq<Claim>, inv: seq<int>,
                                          rest: seq<int>, z: int, n: nat)
    requires n <= |claims| && n <= |inv|
    ensures Combined(q, claims + more, inv + rest, z, n) == Combined(q, claims, inv, z, n)
  {
    if n > 0 {
      CombinedPrefix(q, claims, more, inv, rest, z, n - 1);
    }
  }

  /** The combination is the one the verifier assembles: quotient - weighted polynomials + constant term. */
  lemma {:induction false} CombinedIsBatch(q: seq<int>, nu: int, points: seq<int>, pos: seq<int>, neg: seq<int>,
                                           plus: seq<seq<int>>, minus: seq<seq<int>>, posValues: seq<int>,
                                           negValues: seq<int>, z: int, n: nat)
    requires n <= |points| == |plus| == |minus| == |pos| == |neg| && n <= |posValues| && n <= |negValues|
    ensures Combined(q, RoundClaims(nu, points, plus, minus, posValues, negValues, n), RoundInverses(pos, neg, n), z,
                     2 * n)
      == Eval(q, z) - Eval(WeightedPolys(nu, pos, neg, plus, minus, n), z)
          + ConstantTerm(nu, pos, neg, posValues, negValues, n)
  {
    if n > 0 {
      var j := n - 1;
      CombinedIsBatch(q, nu, points, pos, neg, plus, minus, posValues, negValues, z, j);
      WeightedPolysStep(nu, pos, neg, plus, minus, j, z);
      var c, i := RoundClaims(nu, points, plus, minus, posValues, negValues, j), RoundInverses(pos, neg, j);
      var d := [Claim(plus[j], points[j], posValues[j], Pow(nu * nu, j)),
                Claim(minus[j], -points[j], negValues[j], Pow(nu * nu, j) * nu)];
      CombinedPrefix(q, c, d, i, [pos[j], neg[j]], z, 2 * j);
      TwoMore(q, c + d, i + [pos[j], neg[j]], z, 2 * j);
      assert (c + d)[2 * j] == d[0] && (c + d)[2 * j + 1] == d[1];
      RoundTerms(Pow(nu * nu, j), nu, pos[j], neg[j], Eval(plus[j], z), Eval(minus[j], z), posValues[j], negValues[j]);
    }
  }

  lemma TwoMore(q: seq<int>, claims: seq<Claim>, inv: seq<int>, z: int, n: nat)
    requires n + 2 <= |claims| && n + 2 <= |inv|
    ensures Combined(q, claims, inv, z, n + 2) == Combined(q, claims, inv, z, n)
      - claims[n].weight * inv[n] * (Eval(claims[n].f, z) - claims[n].value)
      - claims[n + 1].weight * inv[n + 1] * (Eval(claims[n + 1].f, z) - claims[n + 1].value)
  {
  }

  lemma RoundTerms(v: int, nu: int, a: int, b: int, f: int, g: int, x: int, y: int)
    ensures v * a * (f - x) + v * nu * b * (g - y) == v * a * f + v * nu * b * g - (y * (v * nu * b) + x * (v * a))
  {
  }

  /** The challenges z, off the points, at which an opening of n rounds passes for some inverses. */
  ghost predicate BatchPasses(p: Prime, q: seq<int>, nu: int, points: seq<int>, plus: seq<seq<int>>,
                              minus: seq<seq<int>>, posValues: seq<int>, negValues: seq<int>, z: int)
    requires |points| == |plus| == |minus| <= |posValues| && |points| <= |negValues|
  {
    exists pos, neg :: Inverts(p, z, points, pos, neg)
      && Cong(p, Eval(q, z) - Eval(WeightedPolys(nu, pos, neg, plus, minus, |points|), z)
              + ConstantTerm(nu, pos, neg, posValues, negValues, |points|), 0)
  }

  /** The 2n points are pairwise different. */
  ghost predicate SignedPointsApart(p: Prime, points: seq<int>) {
    forall i, j :: 0 <= i < |points| && 0 <= j < |points| ==> ApartAt(p, points, i, j)
  }

  ghost predicate ApartAt(p: Prime, points: seq<int>, i: nat, j: nat)
    requires i < |points| && j < |points|
  {
    (i != j ==> !Cong(p, points[i] - points[j], 0)) && !Cong(p, points[i] + points[j], 0)
  }

  lemma {:induction false} RoundClaimAt(nu: int, points: seq<int>, plus: seq<seq<int>>, minus: seq<seq<int>>,
                                        posValues: seq<int>, negValues: seq<int>, n: nat, j: nat)
    requires j < n <= |points| == |plus| == |minus| && n <= |posValues| && n <= |negValues|
    ensures
      var s := RoundClaims(nu, points, plus, minus, posValues, negValues, n);
      && s[2 * j] == Claim(plus[j], points[j], posValues[j], Pow(nu * nu, j))
      && s[2 * j + 1] == Claim(minus[j], -points[j], negValues[j], Pow(nu * nu, j) * nu)
  {
    if j < n - 1 {
      RoundClaimAt(nu, points, plus, minus, posValues, negValues, n - 1, j);
    }
  }

  lemma {:induction false} RoundInverseAt(pos: seq<int>, neg: seq<int>, n: nat, j: nat)
    requires j < n <= |pos| == |neg|
    ensures RoundInverses(pos, neg, n)[2 * j] == pos[j] && RoundInverses(pos, neg, n)[2 * j + 1] == neg[j]
  {
    if j < n - 1 {
      RoundInverseAt(pos, neg, n - 1, j);
    }
  }

  lemma Halves(i: nat)
    ensures i == 2 * (i / 2) || i == 2 * (i / 2) + 1
  {
  }

  lemma RoundPointsApart(p: Prime, nu: int, points: seq<int>, plus: seq<seq<int>>, minus: seq<seq<int>>,
                         posValues: seq<int>, negValues: seq<int>)
    requires |points| == |plus| == |minus| <= |posValues| && |points| <= |negValues| && SignedPointsApart(p, points)
    ensures DistinctPoints(p, RoundClaims(nu, points, plus, minus, posValues, negValues, |points|))
  {
    var s := RoundClaims(nu, points, plus, minus, posValues, negValues, |points|);
    forall i, j | 0 <= i < |s| && 0 <= j < |s| && i != j ensures Apart(p, s[i], s[j]) {
      Halves(i);
      Halves(j);
      RoundClaimAt(nu, points, plus, minus, posValues, negValues, |points|, i / 2);
      RoundClaimAt(nu, points, plus, minus, posValues, negValues, |points|, j / 2);
      assert ApartAt(p, points, i / 2, j / 2);
      var a, b := points[i / 2], points[j / 2];
      NegatedZero(p, a - b);
      NegatedZero(p, a + b);
      assert -a - b == -(a + b) && -a - -b == -(a - b) && a - -b == a + b;
    }
  }

  lemma {:induction false} PowNonzero(p: Prime, b: int, n: nat)
    requires !Cong(p, b, 0)
    ensures !Cong(p, Pow(b, n), 0)
  {
    if n == 0 {
      DistinctResidues(p, 1, 0);
    } else {
      PowNonzero(p, b, n - 1);
      ZeroProduct(p, Pow(b, n - 1), b);
    }
  }

  lemma RoundInversesInvert(p: Prime, nu: int, points: seq<int>, pos: seq<int>, neg: seq<int>, plus: seq<seq<int>>,
                            minus: seq<seq<int>>, posValues: seq<int>, negValues: seq<int>, z: int)
    requires |points| == |plus| == |minus| <= |posValues| && |points| <= |negValues|
    requires Inverts(p, z, points, pos, neg)
    ensures InvertsPoints(p, RoundClaims(nu, points, plus, minus, posValues, negValues, |points|),
                          RoundInverses(pos, neg, |points|), z)
  {
    var n := |points|;
    var s, inv := RoundClaims(nu, points, plus, minus, posValues, negValues, n), RoundInverses(pos, neg, n);
    forall i | 0 <= i < |s| ensures Cong(p, (z - s[i].point) * inv[i], 1) {
      Halves(i);
      RoundClaimAt(nu, points, plus, minus, posValues, negValues, n, i / 2);
      RoundInverseAt(pos, neg, n, i / 2);
      assert z - -points[i / 2] == z + points[i / 2];
    }
  }

  lemma PassingBatch(p: Prime, q: seq<int>, nu: int, points: seq<int>, plus: seq<seq<int>>, minus: seq<seq<int>>,
                     posValues: seq<int>, negValues: seq<int>, z: int)
    requires |points| == |plus| == |minus| <= |posValues| && |points| <= |negValues|
    requires BatchPasses(p, q, nu, points, plus, minus, posValues, negValues, z)
    ensures Passes(p, q, RoundClaims(nu, points, plus, minus, posValues, negValues, |points|), z)
  {
    var n := |points|;
    var pos, neg :| Inverts(p, z, points, pos, neg)
      && Cong(p, Eval(q, z) - Eval(WeightedPolys(nu, pos, neg, plus, minus, n), z)
              + ConstantTerm(nu, pos, neg, posValues, negValues, n), 0);
    var s, inv := RoundClaims(nu, points, plus, minus, posValues, negValues, n), RoundInverses(pos, neg, n);
    RoundInversesInvert(p, nu, points, pos, neg, plus, minus, posValues, negValues, z);
    CombinedIsBatch(q, nu, points, pos, neg, plus, minus, posValues, negValues, z, n);
    assert InvertsPoints(p, s, inv, z) && Cong(p, Combined(q, s, inv, z, |s|), 0);
  }

  /** An opening with a false claim passes at fewer than m + 2n challenges z, whatever quotient was committed
      to before z was drawn; m bounds the number of coefficients. */
  lemma FalseOpeningIsCaught(p: Prime, q: seq<int>, nu: int, points: seq<int>, plus: seq<seq<int>>,
                             minus: seq<seq<int>>, posValues: seq<int>, negValues: seq<int>, m: nat, passing: set<int>)
    requires |points| == |plus| == |minus| <= |posValues| && |points| <= |negValues|
    requires !Cong(p, nu, 0) && SignedPointsApart(p, points)
    requires !ClaimsHold(p, points, plus, minus, posValues, negValues)
    requires 0 < m && |q| <= m && forall j :: 0 <= j < |points| ==> |plus[j]| <= m && |minus[j]| <= m
    requires forall z :: z in passing ==> 0 <= z < p && BatchPasses(p, q, nu, points, plus, minus, posValues, negValues,
                                                                    z)
    ensures |passing| < m + 2 * |points|
  {
    var n, s := |points|, RoundClaims(nu, points, plus, minus, posValues, negValues, |points|);
    var j :| 0 <= j < n && !ClaimHolds(p, points[j], plus[j], minus[j], posValues[j], negValues[j]);
    RoundPointsApart(p, nu, points, plus, minus, posValues, negValues);
    RoundClaimAt(nu, points, plus, minus, posValues, negValues, n, j);
    ZeroProduct(p, nu, nu);
    PowNonzero(p, nu * nu, j);
    ZeroProduct(p, Pow(nu * nu, j), nu);
    forall k | 0 <= k < |s| ensures |s[k].f| <= m {
      Halves(k);
      RoundClaimAt(nu, points, plus, minus, posValues, negValues, n, k / 2);
    }
    forall z | z in passing ensures Passes(p, q, s, z) {
      PassingBatch(p, q, nu, points, plus, minus, posValues, negValues, z);
    }
    if IsTrue(p, s[2 * j]) && IsTrue(p, s[2 * j + 1]) {
      CongSym(p, Eval(plus[j], points[j]), posValues[j]);
      CongSym(p, Eval(minus[j], -points[j]), negValues[j]);
      assert false;
    }
    FalseClaimIsCaught(p, q, s, m, if IsTrue(p, s[2 * j]) then 2 * j + 1 else 2 * j, passing);
  }
}
