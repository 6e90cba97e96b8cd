/** Gemini folding: a multilinear evaluation as a chain of univariate folds. */
module Gemini {
  import opened PrimeField
  import opened Sums
  import opened Polynomials

  /** Neighbouring coefficients a[2i], a[2i+1] become (1 - u) * a[2i] + u * a[2i+1]. */
  function Fold(a: seq<int>, u: int): (f: seq<int>)
    requires |a| % 2 == 0
    ensures |f| == |a| / 2
  {
    if a == [] then [] else [(1 - u) * a[0] + u * a[1]] + Fold(a[2..], u)
  }

  lemma {:induction false} FoldElement(a: seq<int>, u: int, i: nat)
    requires |a| % 2 == 0 && 2 * i < |a|
    ensures Fold(a, u)[i] == (1 - u) * a[2 * i] + u * a[2 * i + 1]
    decreases i
  {
    if i > 0 {
      FoldElement(a[2..], u, i - 1);
    }
  }

  /** The j-th fold polynomial. */
  function FoldAt(a: seq<int>, us: seq<int>, n: nat, j: nat): (f: seq<int>)
    requires |a| == Pow2(n) && j <= n <= |us|
    ensures |f| == Pow2(n - j)
  {
    if j == 0 then a else Fold(FoldAt(a, us, n, j - 1), us[j - 1])
  }

  /** r raised to 2^j */
  function SquareChain(r: int, j: nat): int {
    if j == 0 then r else SquareChain(r, j - 1) * SquareChain(r, j - 1)
  }

  lemma EvalPair(a: seq<int>, x: int)
    requires |a| >= 2
    ensures Eval(a, x) == a[0] + x * a[1] + x * x * Eval(a[2..], x)
  {
    assert a[1..][1..] == a[2..];
    var t := Eval(a[2..], x);
    assert Eval(a[1..], x) == a[1] + x * t;
    Distribute(x, a[1], t);
  }

  lemma Distribute(x: int, a: int, t: int)
    ensures x * (a + x * t) == x * a + x * x * t
  {
  }

  lemma EvalPairNegated(a: seq<int>, r: int)
    requires |a| >= 2
    ensures Eval(a, -r) == a[0] - r * a[1] + r * r * Eval(a[2..], -r)
  {
    EvalPair(a, -r);
    assert -r * a[1] == -(r * a[1]);
    assert -r * -r == r * r;
  }

  lemma FoldPair(a: seq<int>, u: int, y: int)
    requires a != [] && |a| % 2 == 0
    ensures Eval(Fold(a, u), y) == (1 - u) * a[0] + u * a[1] + y * Eval(Fold(a[2..], u), y)
  {
    assert Fold(a, u)[1..] == Fold(a[2..], u);
  }

  /** A fold at r^2, from the values at r and at -r. */
  lemma {:induction false} FoldAtSquare(a: seq<int>, u: int, r: int)
    requires |a| % 2 == 0
    ensures 2 * r * Eval(Fold(a, u), r * r) == Eval(a, r) * (r * (1 - u) + u) + Eval(a, -r) * (r * (1 - u) - u)
  {
    if a == [] {
      FoldGlue(0, 0, u, r, 0, 0, 0, Eval(a, r), Eval(a, -r), Eval(Fold(a, u), r * r));
    } else {
      var t := a[2..];
      FoldAtSquare(t, u, r);
      assert Fold(a, u)[1..] == Fold(t, u);
      EvalPair(a, r);
      EvalPairNegated(a, r);
      FoldPair(a, u, r * r);
      FoldGlue(a[0], a[1], u, r, Eval(t, r), Eval(t, -r), Eval(Fold(t, u), r * r), Eval(a, r), Eval(a, -r),
               Eval(Fold(a, u), r * r));
    }
  }

  lemma FoldGlue(a0: int, a1: int, u: int, r: int, tp: int, tm: int, ft: int, ap: int, am: int, fa: int)
    requires 2 * r * ft == tp * (r * (1 - u) + u) + tm * (r * (1 - u) - u)
    requires ap == a0 + r * a1 + r * r * tp && am == a0 - r * a1 + r * r * tm
    requires fa == (1 - u) * a0 + u * a1 + r * r * ft
    ensures 2 * r * fa == ap * (r * (1 - u) + u) + am * (r * (1 - u) - u)
  {
    var d, e := r * (1 - u) + u, r * (1 - u) - u;
    FoldStepIdentity(a0, a1, u, r, r * r, d, e, tp, tm, ft);
    Replace(ap, a0 + r * a1 + r * r * tp, d);
    Replace(am, a0 - r * a1 + r * r * tm, e);
    Replace(fa, (1 - u) * a0 + u * a1 + r * r * ft, 2 * r);
  }

  lemma Replace(x: int, y: int, c: int)
    requires x == y
    ensures x * c == y * c && c * x == c * y
  {
  }

  lemma FoldStepIdentity(a0: int, a1: int, u: int, r: int, s: int, d: int, e: int, tp: int, tm: int, ft: int)
    requires 2 * r * ft == tp * d + tm * e
    requires d == r * (1 - u) + u && e == r * (1 - u) - u
    ensures 2 * r * ((1 - u) * a0 + u * a1 + s * ft) == (a0 + r * a1 + s * tp) * d + (a0 - r * a1 + s * tm) * e
  {
    SumAndDifference(a0, r * a1, s * tp, s * tm, d, e);
    assert s * tp * d + s * tm * e == s * (tp * d + tm * e);
    assert d + e == 2 * (r * (1 - u)) && d - e == 2 * u;
    TwiceR(r, 1 - u, a0, u, a1, s, ft);
  }

  lemma SumAndDifference(a: int, b: int, x: int, y: int, d: int, e: int)
    ensures (a + b + x) * d + (a - b + y) * e == a * (d + e) + b * (d - e) + (x * d + y * e)
  {
  }

  lemma TwiceR(r: int, v: int, a0: int, u: int, a1: int, s: int, ft: int)
    ensures a0 * (2 * (r * v)) + r * a1 * (2 * u) + s * (2 * r * ft) == 2 * r * (v * a0 + u * a1 + s * ft)
  {
  }

  /** One step of the verifier's recovery: the value at r from the fold at r^2 and the value at -r. */
  lemma RecoverPositive(p: Prime, a: seq<int>, u: int, r: int, cur: int, neg: int, inv: int)
    requires |a| % 2 == 0
    requires Cong(p, cur, Eval(Fold(a, u), r * r)) && Cong(p, neg, Eval(a, -r))
    requires Cong(p, (r * (1 - u) + u) * inv, 1)
    ensures Cong(p, (r * cur * 2 - neg * (r * (1 - u) - u)) * inv, Eval(a, r))
  {
    FoldAtSquare(a, u, r);
    SolveForPositive(p, r, cur, Eval(Fold(a, u), r * r), neg, Eval(a, -r), r * (1 - u) + u, r * (1 - u) - u, Eval(a, r),
                     inv);
  }

  lemma SolveForPositive(p: Prime, r: int, cur: int, f: int, neg: int, n: int, d: int, e: int, v: int, inv: int)
    requires Cong(p, cur, f) && Cong(p, neg, n) && Cong(p, d * inv, 1)
    requires 2 * r * f == v * d + n * e
    ensures Cong(p, (r * cur * 2 - neg * e) * inv, v)
  {
    CongScale(p, cur, f, 2 * r);
    CongScale(p, neg, n, e);
    CongAdd(p, 2 * r * cur, 2 * r * f, neg * e, n * e);
    CongScale(p, 2 * r * cur - neg * e, v * d, inv);
    CongScale(p, d * inv, 1, v);
    assert v * d * inv == v * (d * inv);
    CongTrans(p, (2 * r * cur - neg * e) * inv, v * d * inv, v);
    assert 2 * r * cur == r * cur * 2;
  }

  // ----- multilinear evaluation

  /** The weight of index i at us: the product over its bits, lowest first, of u or 1 - u. */
  function EqWeight(i: nat, us: seq<int>): int {
    if us == [] then 1 else (if i % 2 == 1 then us[0] else 1 - us[0]) * EqWeight(i / 2, us[1..])
  }

  function WeightedFrom(a: seq<int>, us: seq<int>, k: nat): int {
    if a == [] then 0 else a[0] * EqWeight(k, us) + WeightedFrom(a[1..], us, k + 1)
  }

  /** The multilinear polynomial with values a on the hypercube, at us. */
  function MultilinearAt(a: seq<int>, us: seq<int>): int {
    WeightedFrom(a, us, 0)
  }

  lemma WeightedPair(a: seq<int>, us: seq<int>, k: nat)
    requires |a| >= 2
    ensures WeightedFrom(a, us, k) == a[0] * EqWeight(k, us)
            + (a[1] * EqWeight(k + 1, us) + WeightedFrom(a[2..], us, k + 2))
  {
    assert a[1..][1..] == a[2..];
  }

  lemma LowestBit(us: seq<int>, k: nat)
    requires us != []
    ensures EqWeight(2 * k, us) == (1 - us[0]) * EqWeight(k, us[1..])
    ensures EqWeight(2 * k + 1, us) == us[0] * EqWeight(k, us[1..])
  {
    assert (2 * k + 1) / 2 == k;
  }

  lemma {:induction false} FoldKeepsWeight(a: seq<int>, us: seq<int>, k: nat)
    requires |a| % 2 == 0 && us != []
    ensures WeightedFrom(a, us, 2 * k) == WeightedFrom(Fold(a, us[0]), us[1..], k)
  {
    if a != [] {
      FoldKeepsWeight(a[2..], us, k + 1);
      assert Fold(a, us[0])[1..] == Fold(a[2..], us[0]);
      WeightedPair(a, us, 2 * k);
      LowestBit(us, k);
      FoldedWeight(a[0], a[1], us[0], EqWeight(k, us[1..]));
    }
  }

  lemma FoldedWeight(a0: int, a1: int, u: int, w: int)
    ensures a0 * ((1 - u) * w) + a1 * (u * w) == ((1 - u) * a0 + u * a1) * w
  {
  }

  lemma OneFoldKeepsValue(a: seq<int>, us: seq<int>, n: nat, j: nat)
    requires |a| == Pow2(n) && j < n == |us|
    ensures MultilinearAt(FoldAt(a, us, n, j), us[j..]) == MultilinearAt(FoldAt(a, us, n, j + 1), us[j + 1..])
  {
    var f, vs := FoldAt(a, us, n, j), us[j..];
    assert vs[0] == us[j] && vs[1..] == us[j + 1..];
    assert Pow2(n - j) == 2 * Pow2(n - j - 1);
    FoldKeepsWeight(f, vs, 0);
  }

  lemma {:induction false} FoldsKeepValue(a: seq<int>, us: seq<int>, n: nat, j: nat)
    requires |a| == Pow2(n) && j <= n == |us|
    ensures MultilinearAt(FoldAt(a, us, n, j), us[j..]) == MultilinearAt(FoldAt(a, us, n, n), us[n..])
    decreases n - j
  {
    if j < n {
      OneFoldKeepsValue(a, us, n, j);
      FoldsKeepValue(a, us, n, j + 1);
    }
  }

  /** The last fold is the constant multilinear evaluation. */
  lemma LastFold(a: seq<int>, us: seq<int>, n: nat, x: int)
    requires |a| == Pow2(n) && n == |us|
    ensures Eval(FoldAt(a, us, n, n), x) == MultilinearAt(a, us)
  {
    FoldsKeepValue(a, us, n, 0);
    assert us[0..] == us;
    ConstantValue(FoldAt(a, us, n, n), us[n..], x);
  }

  lemma ConstantValue(f: seq<int>, vs: seq<int>, x: int)
    requires |f| == 1 && vs == []
    ensures Eval(f, x) == MultilinearAt(f, vs)
  {
    assert WeightedFrom(f[1..], [], 1) == 0;
    assert Eval(f[1..], x) == 0;
  }

  lemma {:induction false} WeightedAdd(a: seq<int>, b: seq<int>, us: seq<int>, k: nat)
    requires |a| == |b|
    ensures WeightedFrom(Add(a, b), us, k) == WeightedFrom(a, us, k) + WeightedFrom(b, us, k)
  {
    if a != [] {
      WeightedAdd(a[1..], b[1..], us, k + 1);
      assert Add(a, b)[1..] == Add(a[1..], b[1..]);
      assert (a[0] + b[0]) * EqWeight(k, us) == a[0] * EqWeight(k, us) + b[0] * EqWeight(k, us);
    }
  }

  lemma {:induction false} WeightedScale(c: int, a: seq<int>, us: seq<int>, k: nat)
    ensures WeightedFrom(Scale(c, a), us, k) == c * WeightedFrom(a, us, k)
  {
    if a != [] {
      WeightedScale(c, a[1..], us, k + 1);
      assert Scale(c, a)[1..] == Scale(c, a[1..]);
      ScaledTerm(c, a[0], EqWeight(k, us), WeightedFrom(a[1..], us, k + 1));
    }
  }

  lemma ScaledTerm(c: int, x: int, w: int, t: int)
    ensures c * x * w + c * t == c * (x * w + t)
  {
  }
}
