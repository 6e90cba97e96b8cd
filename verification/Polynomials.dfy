/** Univariate polynomials as coefficient sequences, lowest degree first.  Evaluation is exact over the
    integers; the field enters only through `Cong`. */
module Polynomials {
  import opened PrimeField

  function Eval(f: seq<int>, x: int): int {
    if f == [] then 0 else f[0] + x * Eval(f[1..], x)
  }

  function Add(f: seq<int>, g: seq<int>): seq<int> {
    if f == [] then g
    else if g == [] then f
    else [f[0] + g[0]] + Add(f[1..], g[1..])
  }

  function Scale(c: int, f: seq<int>): seq<int> {
    if f == [] then [] else [c * f[0]] + Scale(c, f[1..])
  }

  /** Synthetic division: the quotient of f(X) - f(a) by X - a. */
  function Quotient(f: seq<int>, a: int): seq<int> {
    if |f| <= 1 then [] else [Eval(f[1..], a)] + Quotient(f[1..], a)
  }

  lemma {:induction false} EvalAdd(f: seq<int>, g: seq<int>, x: int)
    ensures Eval(Add(f, g), x) == Eval(f, x) + Eval(g, x)
    ensures |Add(f, g)| == if |f| <= |g| then |g| else |f|
  {
    if f != [] && g != [] {
      EvalAdd(f[1..], g[1..], x);
      var t := Add(f[1..], g[1..]);
      assert Add(f, g)[1..] == t;
      assert x * Eval(t, x) == x * Eval(f[1..], x) + x * Eval(g[1..], x);
    }
  }

  lemma {:induction false} EvalScale(c: int, f: seq<int>, x: int)
    ensures Eval(Scale(c, f), x) == c * Eval(f, x)
    ensures |Scale(c, f)| == |f|
  {
    if f != [] {
      EvalScale(c, f[1..], x);
      assert Scale(c, f)[1..] == Scale(c, f[1..]);
      calc {
        c * f[0] + x * Eval(Scale(c, f[1..]), x);
        c * f[0] + x * (c * Eval(f[1..], x));
        c * (f[0] + x * Eval(f[1..], x));
      }
    }
  }

  /** The quotient is exact for every x. */
  lemma {:induction false} EvalQuotient(f: seq<int>, a: int, x: int)
    ensures Eval(Quotient(f, a), x) * (x - a) == Eval(f, x) - Eval(f, a)
    ensures |Quotient(f, a)| == if f == [] then 0 else |f| - 1
  {
    if |f| == 1 {
      assert f[1..] == [];
    } else if |f| > 1 {
      var g := f[1..];
      EvalQuotient(g, a, x);
      var q := Eval(Quotient(g, a), x);
      assert Quotient(f, a)[1..] == Quotient(g, a);
      calc {
        Eval(Quotient(f, a), x) * (x - a);
        (Eval(g, a) + x * q) * (x - a);
        Eval(g, a) * (x - a) + x * (q * (x - a));
        Eval(g, a) * (x - a) + x * (Eval(g, x) - Eval(g, a));
        x * Eval(g, x) - a * Eval(g, a);
      }
    }
  }

  lemma {:induction false} EvalCong(p: Prime, f: seq<int>, x: int, y: int)
    requires Cong(p, x, y)
    ensures Cong(p, Eval(f, x), Eval(f, y))
  {
    if f == [] {
      CongRefl(p, 0);
    } else {
      EvalCong(p, f[1..], x, y);
      CongMul(p, x, y, Eval(f[1..], x), Eval(f[1..], y));
      CongRefl(p, f[0]);
      CongAdd(p, f[0], f[0], x * Eval(f[1..], x), y * Eval(f[1..], y));
    }
  }

  // ----- polynomials modulo p

  ghost predicate IsZero(p: Prime, f: seq<int>) {
    forall i :: 0 <= i < |f| ==> Cong(p, f[i], 0)
  }

  lemma {:induction false} EvalOfZero(p: Prime, f: seq<int>, x: int)
    requires IsZero(p, f)
    ensures Cong(p, Eval(f, x), 0)
  {
    if f == [] {
      CongRefl(p, 0);
    } else {
      assert Cong(p, f[0], 0);
      assert IsZero(p, f[1..]) by {
        forall i | 0 <= i < |f[1..]| ensures Cong(p, f[1..][i], 0) {
          assert f[1..][i] == f[i + 1];
        }
      }
      EvalOfZero(p, f[1..], x);
      CongScale(p, Eval(f[1..], x), 0, x);
      CongAdd(p, f[0], 0, x * Eval(f[1..], x), x * 0);
    }
  }

  /** If the quotient at a vanishes and so does f(a), then f vanishes. */
  lemma {:induction false} ZeroQuotient(p: Prime, f: seq<int>, a: int)
    requires IsZero(p, Quotient(f, a)) && Cong(p, Eval(f, a), 0)
    ensures IsZero(p, f)
  {
    if f != [] {
      var g := f[1..];
      assert Cong(p, Eval(g, a), 0) by {
        if |f| == 1 {
          CongRefl(p, 0);
        } else {
          assert Quotient(f, a)[0] == Eval(g, a);
        }
      }
      CongScale(p, Eval(g, a), 0, a);
      CongAdd(p, Eval(f, a), 0, a * Eval(g, a), a * 0);
      assert Cong(p, f[0], 0);
      assert IsZero(p, Quotient(g, a)) by {
        if |f| > 1 {
          forall i | 0 <= i < |Quotient(g, a)| ensures Cong(p, Quotient(g, a)[i], 0) {
            assert Quotient(g, a)[i] == Quotient(f, a)[i + 1];
          }
        }
      }
      ZeroQuotient(p, g, a);
      forall i | 0 <= i < |f| ensures Cong(p, f[i], 0) {
        if i > 0 {
          assert f[i] == g[i - 1];
        }
      }
    }
  }

  lemma Pick<T>(s: set<T>) returns (x: T)
    requires |s| > 0
    ensures x in s
  {
    x :| x in s;
  }

  /** A polynomial that is not zero modulo p has fewer roots than coefficients. */
  lemma {:induction false} RootsAreFew(p: Prime, f: seq<int>, roots: set<int>)
    requires !IsZero(p, f)
    requires forall x :: x in roots ==> 0 <= x < p && Cong(p, Eval(f, x), 0)
    ensures |roots| < |f|
    decreases |f|
  {
    assert f != [];
    if |roots| > 0 {
      var a := Pick(roots);
      var q := Quotient(f, a);
      EvalQuotient(f, a, a);
      if IsZero(p, q) {
        ZeroQuotient(p, f, a);
        assert false;
      }
      forall x | x in roots - {a} ensures 0 <= x < p && Cong(p, Eval(q, x), 0) {
        EvalQuotient(f, a, x);
        CongAdd(p, Eval(f, x), 0, Eval(f, a), 0);
        DistinctResidues(p, x, a);
        NoZeroDivisors(p, Eval(q, x), x - a);
      }
      RootsAreFew(p, q, roots - {a});
    }
  }

  // ----- polynomials given by their values at 0, 1, 2, ...

  /** f is the polynomial of degree below |ys| that takes the value ys[i] at i. */
  ghost predicate Through(p: Prime, f: seq<int>, ys: seq<int>) {
    |f| <= |ys| && forall i :: 0 <= i < |ys| ==> Cong(p, Eval(f, i), ys[i])
  }

  /** (X - 0)(X - 1)...(X - (n-1)) as a coefficient sequence. */
  function Vanishing(n: nat): seq<int> {
    if n == 0 then [1] else Add([0] + Vanishing(n - 1), Scale(1 - n, Vanishing(n - 1)))
  }

  lemma {:induction false} EvalVanishing(n: nat, x: int)
    ensures |Vanishing(n)| == n + 1
    ensures n > 0 ==> Eval(Vanishing(n), x) == Eval(Vanishing(n - 1), x) * (x - (n - 1))
    ensures n == 0 ==> Eval(Vanishing(n), x) == 1
  {
    if n == 0 {
      assert Vanishing(0)[1..] == [];
    } else {
      var v := Vanishing(n - 1);
      EvalVanishing(n - 1, x);
      assert ([0] + v)[1..] == v;
      EvalScale(1 - n, v, x);
      EvalAdd([0] + v, Scale(1 - n, v), x);
      assert x * Eval(v, x) + (1 - n) * Eval(v, x) == Eval(v, x) * (x - (n - 1));
    }
  }

  lemma {:induction false} VanishingRoots(p: Prime, n: nat, x: int)
    requires 0 <= x
    ensures x < n ==> Eval(Vanishing(n), x) == 0
    ensures n <= x < p ==> !Cong(p, Eval(Vanishing(n), x), 0)
  {
    EvalVanishing(n, x);
    if n > 0 {
      VanishingRoots(p, n - 1, x);
      if n <= x < p {
        DistinctResidues(p, x, n - 1);
        if Cong(p, Eval(Vanishing(n), x), 0) {
          NoZeroDivisors(p, Eval(Vanishing(n - 1), x), x - (n - 1));
          assert false;
        }
      }
    } else if x < p {
      if Cong(p, 1, 0) {
        DistinctResidues(p, 1, 0);
        assert false;
      }
    }
  }

  /** Newton interpolation: any values at up to p points come from a polynomial. */
  function Interpolant(p: Prime, ys: seq<int>): (f: seq<int>)
    requires |ys| <= p
    ensures Through(p, f, ys)
  {
    if ys == [] then []
    else
      var n := |ys| - 1;
      var g := Interpolant(p, ys[..n]);
      VanishingRoots(p, n, n);
      var c := (ys[n] - Eval(g, n)) * Inv(p, Eval(Vanishing(n), n));
      var f := Add(g, Scale(c, Vanishing(n)));
      NewtonStep(p, ys, g, c, f);
      f
  }

  lemma Correction(p: Prime, g: int, y: int, w: int)
    requires !Cong(p, w, 0)
    ensures Cong(p, g + (y - g) * Inv(p, w) * w, y)
  {
    var d := y - g;
    CongScale(p, w * Inv(p, w), 1, d);
    assert d * Inv(p, w) * w == d * (w * Inv(p, w));
    CongRefl(p, g);
    CongAdd(p, g, g, d * (w * Inv(p, w)), d * 1);
  }

  lemma NewtonStep(p: Prime, ys: seq<int>, g: seq<int>, c: int, f: seq<int>)
    requires 0 < |ys| <= p
    requires Through(p, g, ys[..|ys| - 1])
    requires !Cong(p, Eval(Vanishing(|ys| - 1), |ys| - 1), 0)
    requires c == (ys[|ys| - 1] - Eval(g, |ys| - 1)) * Inv(p, Eval(Vanishing(|ys| - 1), |ys| - 1))
    requires f == Add(g, Scale(c, Vanishing(|ys| - 1)))
    ensures Through(p, f, ys)
  {
    var n := |ys| - 1;
    var v := Vanishing(n);
    EvalVanishing(n, 0);
    EvalScale(c, v, 0);
    EvalAdd(g, Scale(c, v), 0);
    forall i | 0 <= i < |ys| ensures Cong(p, Eval(f, i), ys[i]) {
      EvalScale(c, v, i);
      EvalAdd(g, Scale(c, v), i);
      VanishingRoots(p, n, i);
      if i < n {
        assert ys[..n][i] == ys[i];
        assert c * Eval(v, i) == 0;
      } else {
        Correction(p, Eval(g, n), ys[n], Eval(v, n));
      }
    }
  }

  function Range(n: nat): (s: set<int>)
    ensures |s| == n && forall i :: i in s <==> 0 <= i < n
  {
    if n == 0 then {} else Range(n - 1) + {n - 1}
  }

  /** Two such polynomials agree everywhere, so the interpolant is the only one. */
  lemma ThroughIsUnique(p: Prime, f: seq<int>, g: seq<int>, ys: seq<int>, x: int)
    requires |ys| <= p
    requires Through(p, f, ys) && Through(p, g, ys)
    ensures Cong(p, Eval(f, x), Eval(g, x))
  {
    var h := Add(f, Scale(-1, g));
    EvalScale(-1, g, x);
    EvalAdd(f, Scale(-1, g), x);
    if !IsZero(p, h) {
      var roots := Range(|ys|);
      forall i | i in roots ensures 0 <= i < p && Cong(p, Eval(h, i), 0) {
        EvalScale(-1, g, i);
        EvalAdd(f, Scale(-1, g), i);
        CongAdd(p, Eval(f, i), ys[i], Eval(g, i), ys[i]);
      }
      RootsAreFew(p, h, roots);
      assert false;
    }
    EvalOfZero(p, h, x);
  }

  /** Two polynomials that differ at one of the points 0..|ys|-1 agree at fewer than |ys| residues. */
  lemma DistinctPolynomialsAgreeRarely(p: Prime, f: seq<int>, g: seq<int>, n: nat, k: int, agree: set<int>)
    requires |f| <= n && |g| <= n
    requires !Cong(p, Eval(f, k), Eval(g, k))
    requires forall x :: x in agree ==> 0 <= x < p && Cong(p, Eval(f, x), Eval(g, x))
    ensures |agree| < n
  {
    var h := Add(f, Scale(-1, g));
    DifferenceIsNotZero(p, f, g, k);
    AgreementsAreRoots(p, f, g, agree);
    RootsAreFew(p, h, agree);
  }

  lemma DifferenceIsNotZero(p: Prime, f: seq<int>, g: seq<int>, k: int)
    requires !Cong(p, Eval(f, k), Eval(g, k))
    ensures !IsZero(p, Add(f, Scale(-1, g))) && |Add(f, Scale(-1, g))| == if |f| <= |g| then |g| else |f|
  {
    DifferenceVanishes(p, f, g, k);
    if IsZero(p, Add(f, Scale(-1, g))) {
      EvalOfZero(p, Add(f, Scale(-1, g)), k);
      assert false;
    }
  }

  lemma AgreementsAreRoots(p: Prime, f: seq<int>, g: seq<int>, agree: set<int>)
    requires forall x :: x in agree ==> 0 <= x < p && Cong(p, Eval(f, x), Eval(g, x))
    ensures forall x :: x in agree ==> 0 <= x < p && Cong(p, Eval(Add(f, Scale(-1, g)), x), 0)
  {
    forall x | x in agree ensures Cong(p, Eval(Add(f, Scale(-1, g)), x), 0) {
      DifferenceVanishes(p, f, g, x);
    }
  }

  lemma DifferenceVanishes(p: Prime, f: seq<int>, g: seq<int>, x: int)
    ensures Cong(p, Eval(Add(f, Scale(-1, g)), x), 0) <==> Cong(p, Eval(f, x), Eval(g, x))
    ensures |Add(f, Scale(-1, g))| == if |f| <= |g| then |g| else |f|
  {
    EvalScale(-1, g, x);
    EvalAdd(f, Scale(-1, g), x);
  }
}
