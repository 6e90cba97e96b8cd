/** Soundness of the folding: whatever fold polynomials were committed to, a false multilinear evaluation lets
    all fold claims hold at few challenges r only. */
module GeminiSoundness {
  import opened PrimeField
  import opened Sums
  import opened Polynomials
  import opened Gemini

  // ----- substituting a power of X

  /** f(X^2) */
  function Stretch(f: seq<int>): (s: seq<int>)
    ensures |s| == 2 * |f|
    ensures forall i :: 0 <= i < |f| ==> s[2 * i] == f[i]
  {
    if f == [] then [] else [f[0], 0] + Stretch(f[1..])
  }

  lemma {:induction false} EvalStretch(f: seq<int>, x: int)
    ensures Eval(Stretch(f), x) == Eval(f, x * x)
  {
    if f != [] {
      EvalStretch(f[1..], x);
      assert Stretch(f)[2..] == Stretch(f[1..]);
      EvalPair(Stretch(f), x);
    }
  }

  /** f(X^(2^k)) */
  function Stretched(f: seq<int>, k: nat): (s: seq<int>)
    ensures |s| == Pow2(k) * |f|
  {
    if k == 0 then f else Stretch(Stretched(f, k - 1))
  }

  lemma SquareFirst(x: int, k: nat)
    ensures SquareChain(x, k + 1) == SquareChain(x * x, k)
  {
    if k > 0 {
      SquareFirst(x, k - 1);
    }
  }

  lemma {:induction false} EvalStretched(f: seq<int>, k: nat, x: int)
    ensures Eval(Stretched(f, k), x) == Eval(f, SquareChain(x, k))
  {
    if k > 0 {
      EvalStretch(Stretched(f, k - 1), x);
      EvalStretched(f, k - 1, x * x);
      SquareFirst(x, k - 1);
    }
  }

  lemma {:induction false} StretchedNonzero(p: Prime, f: seq<int>, k: nat)
    requires !IsZero(p, f)
    ensures !IsZero(p, Stretched(f, k))
  {
    if k > 0 {
      StretchedNonzero(p, f, k - 1);
      var g := Stretched(f, k - 1);
      var i :| 0 <= i < |g| && !Cong(p, g[i], 0);
      assert Stretch(g)[2 * i] == g[i];
    }
  }

  // ----- polynomials with congruent coefficients

  ghost predicate SameAt(p: Prime, f: seq<int>, g: seq<int>, i: nat)
    requires i < |f| == |g|
  {
    Cong(p, f[i], g[i])
  }

  ghost predicate SamePoly(p: Prime, f: seq<int>, g: seq<int>) {
    |f| == |g| && forall i :: 0 <= i < |f| ==> SameAt(p, f, g, i)
  }

  lemma PairSame(p: Prime, a: int, a': int, b: int, b': int, u: int, f: int, f': int)
    requires Cong(p, a, a') && Cong(p, b, b')
    requires f == (1 - u) * a + u * b && f' == (1 - u) * a' + u * b'
    ensures Cong(p, f, f')
  {
    CongScale(p, a, a', 1 - u);
    CongScale(p, b, b', u);
    CongAdd(p, (1 - u) * a, (1 - u) * a', u * b, u * b');
  }

  lemma FoldSame(p: Prime, f: seq<int>, g: seq<int>, u: int)
    requires |f| % 2 == 0 && SamePoly(p, f, g)
    ensures SamePoly(p, Fold(f, u), Fold(g, u))
  {
    forall i | 0 <= i < |Fold(f, u)| ensures SameAt(p, Fold(f, u), Fold(g, u), i) {
      assert SameAt(p, f, g, 2 * i) && SameAt(p, f, g, 2 * i + 1);
      FoldElement(f, u, i);
      FoldElement(g, u, i);
      PairSame(p, f[2 * i], g[2 * i], f[2 * i + 1], g[2 * i + 1], u, Fold(f, u)[i], Fold(g, u)[i]);
    }
  }

  /** f folded at all of us; w coefficients are left. */
  function FoldAll(f: seq<int>, us: seq<int>, w: nat): (g: seq<int>)
    requires |f| == w * Pow2(|us|)
    ensures |g| == w
    decreases |us|
  {
    if us == [] then f
    else
      HalfLength(f, us, w);
      FoldAll(Fold(f, us[0]), us[1..], w)
  }

  lemma HalfLength(f: seq<int>, us: seq<int>, w: nat)
    requires us != [] && |f| == w * Pow2(|us|)
    ensures |f| % 2 == 0 && |Fold(f, us[0])| == w * Pow2(|us[1..]|)
  {
    Halved(w, |us| - 1);
  }

  lemma Halved(w: nat, k: nat)
    ensures w * Pow2(k + 1) == 2 * (w * Pow2(k)) && w * Pow2(k + 1) % 2 == 0
  {
    var half := w * Pow2(k);
    assert w * Pow2(k + 1) == w * (2 * Pow2(k)) == 2 * half;
  }

  lemma {:induction false} FoldAllSame(p: Prime, f: seq<int>, g: seq<int>, us: seq<int>, w: nat)
    requires |f| == w * Pow2(|us|) && SamePoly(p, f, g)
    ensures SamePoly(p, FoldAll(f, us, w), FoldAll(g, us, w))
    decreases |us|
  {
    if us != [] {
      HalfLength(f, us, w);
      FoldSame(p, f, g, us[0]);
      FoldAllSame(p, Fold(f, us[0]), Fold(g, us[0]), us[1..], w);
    }
  }

  // ----- a chain of folds

  /** Polynomial j has w * 2^(n-j) coefficients; the last one stands for the claimed evaluation. */
  ghost predicate IsChain(chain: seq<seq<int>>, n: nat, w: nat) {
    |chain| == n + 1 && forall j :: 0 <= j <= n ==> |chain[j]| == w * Pow2(n - j)
  }

  lemma ChainStep(chain: seq<seq<int>>, n: nat, w: nat, j: nat)
    requires IsChain(chain, n, w) && j < n
    ensures |chain[j]| % 2 == 0 && |chain[j]| == 2 * |chain[j + 1]|
    ensures |chain[j + 1]| == w * Pow2(n - j - 1)
  {
    Halved(w, n - j - 1);
  }

  ghost predicate FoldsTo(p: Prime, f: seq<int>, u: int, g: seq<int>)
    requires |f| % 2 == 0
  {
    SamePoly(p, Fold(f, u), g)
  }

  /** A chain that does not start in a polynomial folding to its end breaks somewhere. */
  lemma {:induction false} FirstBreak(p: Prime, chain: seq<seq<int>>, us: seq<int>, n: nat, w: nat) returns (j: nat)
    requires IsChain(chain, n, w) && |us| == n
    requires !SamePoly(p, FoldAll(chain[0], us, w), chain[n])
    ensures j < n && |chain[j]| % 2 == 0 && !FoldsTo(p, chain[j], us[j], chain[j + 1])
    decreases n
  {
    if n == 0 {
      SamePolyRefl(p, chain[0]);
      assert false;
    } else {
      ChainStep(chain, n, w, 0);
      if FoldsTo(p, chain[0], us[0], chain[1]) {
        FoldAllSame(p, Fold(chain[0], us[0]), chain[1], us[1..], w);
        SamePolyTrans(p, FoldAll(chain[0], us, w), FoldAll(chain[1], us[1..], w), chain[n]);
        j := FirstBreak(p, chain[1..], us[1..], n - 1, w);
        j := j + 1;
      } else {
        j := 0;
      }
    }
  }

  lemma SamePolyRefl(p: Prime, f: seq<int>)
    ensures SamePoly(p, f, f)
  {
    forall i | 0 <= i < |f| ensures SameAt(p, f, f, i) {
      CongRefl(p, f[i]);
    }
  }

  lemma SamePolyTrans(p: Prime, f: seq<int>, g: seq<int>, h: seq<int>)
    requires SamePoly(p, f, g)
    ensures SamePoly(p, g, h) ==> SamePoly(p, f, h)
  {
    if SamePoly(p, g, h) {
      forall i | 0 <= i < |f| ensures SameAt(p, f, h, i) {
        assert SameAt(p, f, g, i) && SameAt(p, g, h, i);
        CongTrans(p, f[i], g[i], h[i]);
      }
    }
  }

  // ----- what true claims tell about neighbours

  /** f and g agree at y, up to an offset c divided by y. */
  ghost predicate AgreeAt(p: Prime, f: seq<int>, g: seq<int>, c: int, y: int) {
    Cong(p, c + y * (Eval(f, y) - Eval(g, y)), 0)
  }

  /** The fold of f and the next polynomial g agree. */
  ghost predicate Link(p: Prime, f: seq<int>, u: int, g: seq<int>, c: int, y: int)
    requires |f| % 2 == 0
  {
    AgreeAt(p, Fold(f, u), g, c, y)
  }

  /** What the verifier's recovery means, whatever the values are. */
  ghost predicate Recovers(p: Prime, u: int, r: int, pos: int, neg: int, next: int) {
    Cong(p, pos * (r * (1 - u) + u) + neg * (r * (1 - u) - u), 2 * r * next)
  }

  /** Two true claims about one fold, read through the recovery, are a link to the next one.  The offset is
      that of a polynomial whose constant term g does not vanish before the division by X. */
  lemma ClaimsLink(p: Prime, f: seq<int>, u: int, h: seq<int>, g: int, r: int, i: int, pos: int, neg: int, next: int)
    requires p > 2 && |f| % 2 == 0 && Cong(p, r * i, 1)
    requires Cong(p, pos, Eval(f, r) + i * g) && Cong(p, neg, Eval(f, -r) - i * g)
    requires Recovers(p, u, r, pos, neg, next) && Cong(p, next, Eval(h, r * r))
    ensures Link(p, f, u, h, g * u, r * r)
  {
    FoldAtSquare(f, u, r);
    var d, e := r * (1 - u) + u, r * (1 - u) - u;
    LinkCore(p, u, r, i, g, d, e, pos, Eval(f, r), neg, Eval(f, -r), next, Eval(h, r * r), Eval(Fold(f, u), r * r));
  }

  lemma LinkCore(p: Prime, u: int, r: int, i: int, g: int, d: int, e: int, pos: int, a: int, neg: int, b: int,
                 next: int, h: int, fold: int)
    requires p > 2 && Cong(p, r * i, 1) && Cong(p, pos, a + i * g) && Cong(p, neg, b - i * g)
    requires Cong(p, pos * d + neg * e, 2 * r * next) && Cong(p, next, h)
    requires d - e == 2 * u && 2 * r * fold == a * d + b * e
    ensures Cong(p, g * u + r * r * (fold - h), 0)
  {
    CongScale(p, pos, a + i * g, d);
    CongScale(p, neg, b - i * g, e);
    CongAdd(p, pos * d, (a + i * g) * d, neg * e, (b - i * g) * e);
    WeighOffset(a, b, i, g, d, e, u, r, fold);
    CongSym(p, pos * d + neg * e, 2 * r * fold + 2 * (i * g * u));
    CongTrans(p, 2 * r * fold + 2 * (i * g * u), pos * d + neg * e, 2 * r * next);
    CongScale(p, next, h, 2 * r);
    CongTrans(p, 2 * r * fold + 2 * (i * g * u), 2 * r * next, 2 * r * h);
    MultiplyByR(p, r, i, g, u, fold, h);
  }

  lemma WeighOffset(a: int, b: int, i: int, g: int, d: int, e: int, u: int, r: int, fold: int)
    requires d - e == 2 * u && 2 * r * fold == a * d + b * e
    ensures (a + i * g) * d + (b - i * g) * e == 2 * r * fold + 2 * (i * g * u)
  {
    var o := i * g;
    assert (a + o) * d + (b - o) * e == a * d + b * e + o * (d - e);
  }

  lemma MultiplyByR(p: Prime, r: int, i: int, g: int, u: int, fold: int, h: int)
    requires p > 2 && Cong(p, r * i, 1) && Cong(p, 2 * r * fold + 2 * (i * g * u), 2 * r * h)
    ensures Cong(p, g * u + r * r * (fold - h), 0)
  {
    var gu := g * u;
    CongScale(p, 2 * r * fold + 2 * (i * g * u), 2 * r * h, r);
    CongScale(p, r * i, 1, 2 * gu);
    var left, right := (2 * r * fold + 2 * (i * g * u)) * r, 2 * r * h * r;
    CongAdd(p, left, right, 2 * gu * (r * i), 2 * gu * 1);
    RTerms(r, i, g, u, fold, h);
    CancelTwo(p, gu + r * r * (fold - h), left - right - (2 * gu * (r * i) - 2 * gu * 1));
  }

  lemma RTerms(r: int, i: int, g: int, u: int, fold: int, h: int)
    ensures (2 * r * fold + 2 * (i * g * u)) * r - 2 * r * h * r - (2 * (g * u) * (r * i) - 2 * (g * u) * 1)
         == 2 * (g * u + r * r * (fold - h))
  {
    assert 2 * (i * g * u) * r == 2 * (g * u) * (r * i);
    assert 2 * r * fold * r - 2 * r * h * r == 2 * (r * r * (fold - h));
  }

  lemma CancelTwo(p: Prime, x: int, twice: int)
    requires p > 2 && twice == 2 * x && Cong(p, twice, 0)
    ensures Cong(p, x, 0)
  {
    DistinctResidues(p, 2, 0);
    NoZeroDivisors(p, 2, x);
  }

  // ----- a broken link shows at few challenges

  lemma DifferentPoly(p: Prime, f: seq<int>, g: seq<int>)
    requires |f| == |g| && !SamePoly(p, f, g)
    ensures !IsZero(p, Add(f, Scale(-1, g))) && |Add(f, Scale(-1, g))| == |f|
  {
    var i :| 0 <= i < |f| && !SameAt(p, f, g, i);
    EvalScale(-1, g, 0);
    EvalAdd(f, Scale(-1, g), 0);
    DifferenceAt(f, g, i);
  }

  lemma {:induction false} DifferenceAt(f: seq<int>, g: seq<int>, i: nat)
    requires i < |f| == |g|
    ensures |Add(f, Scale(-1, g))| == |f| && Add(f, Scale(-1, g))[i] == f[i] - g[i]
  {
    EvalScale(-1, g, 0);
    EvalAdd(f, Scale(-1, g), 0);
    if i > 0 {
      DifferenceAt(f[1..], g[1..], i - 1);
      assert Scale(-1, g)[1..] == Scale(-1, g[1..]);
    }
  }

  /** c + X * (f - g) */
  function Offset(c: int, f: seq<int>, g: seq<int>): seq<int> {
    [c] + Add(f, Scale(-1, g))
  }

  lemma EvalOffset(c: int, f: seq<int>, g: seq<int>, y: int)
    ensures Eval(Offset(c, f, g), y) == c + y * (Eval(f, y) - Eval(g, y))
  {
    EvalScale(-1, g, y);
    EvalAdd(f, Scale(-1, g), y);
    assert Offset(c, f, g)[1..] == Add(f, Scale(-1, g));
  }

  lemma OffsetNonzero(p: Prime, f: seq<int>, g: seq<int>, c: int, k: nat)
    requires |f| == |g| && !SamePoly(p, f, g)
    ensures !IsZero(p, Stretched(Offset(c, f, g), k)) && |Offset(c, f, g)| == |f| + 1
  {
    var d := Add(f, Scale(-1, g));
    DifferentPoly(p, f, g);
    var i :| 0 <= i < |f| && !Cong(p, d[i], 0);
    assert Offset(c, f, g)[i + 1] == d[i];
    StretchedNonzero(p, Offset(c, f, g), k);
  }

  lemma AgreementIsRoot(p: Prime, f: seq<int>, g: seq<int>, c: int, k: nat, r: int)
    requires AgreeAt(p, f, g, c, SquareChain(r, k))
    ensures Cong(p, Eval(Stretched(Offset(c, f, g), k), r), 0)
  {
    EvalStretched(Offset(c, f, g), k, r);
    AgreementAtPower(p, f, g, c, SquareChain(r, k));
  }

  lemma AgreementAtPower(p: Prime, f: seq<int>, g: seq<int>, c: int, y: int)
    requires AgreeAt(p, f, g, c, y)
    ensures Cong(p, Eval(Offset(c, f, g), y), 0)
  {
    EvalOffset(c, f, g, y);
  }

  lemma BreakIsCaught(p: Prime, f: seq<int>, g: seq<int>, c: int, k: nat, passing: set<int>)
    requires |f| == |g| && !SamePoly(p, f, g)
    requires forall r :: r in passing ==> 0 <= r < p && AgreeAt(p, f, g, c, SquareChain(r, k))
    ensures |passing| < |Stretched(Offset(c, f, g), k)| && |Offset(c, f, g)| == |f| + 1
  {
    var h := Stretched(Offset(c, f, g), k);
    OffsetNonzero(p, f, g, c, k);
    forall r | r in passing ensures Cong(p, Eval(h, r), 0) {
      AgreementIsRoot(p, f, g, c, k, r);
    }
    RootsAreFew(p, h, passing);
  }

  // ----- the whole chain

  /** All neighbours are linked at r; only the first link has an offset. */
  ghost predicate Linked(p: Prime, chain: seq<seq<int>>, us: seq<int>, n: nat, w: nat, c: int, r: int)
    requires IsChain(chain, n, w) && |us| == n
  {
    forall j :: 0 <= j < n ==> LinkedAt(p, chain, us, n, w, c, r, j)
  }

  ghost predicate LinkedAt(p: Prime, chain: seq<seq<int>>, us: seq<int>, n: nat, w: nat, c: int, r: int, j: nat)
    requires IsChain(chain, n, w) && |us| == n && j < n
  {
    ChainStep(chain, n, w, j);
    Link(p, chain[j], us[j], chain[j + 1], if j == 0 then c else 0, SquareChain(r, j + 1))
  }

  lemma BoundOfBreak(w: nat, n: nat, j: nat, length: nat, stretched: nat)
    requires j < n && length == w * Pow2(n - j - 1) && stretched == Pow2(j + 1) * (length + 1)
    ensures stretched <= (w + 1) * Pow2(n)
  {
    PowersSplit(j + 1, n - j - 1);
    BoundTerms(Pow2(j + 1), Pow2(n - j - 1), w, length, Pow2(n), stretched);
  }

  lemma BoundTerms(a: nat, b: nat, w: nat, length: nat, whole: nat, stretched: nat)
    requires a > 0 && b > 0 && length == w * b && whole == a * b && stretched == a * (length + 1)
    ensures stretched <= (w + 1) * whole
  {
    assert a * (w * b) == w * (a * b);
    assert a <= a * b;
  }

  lemma {:induction false} PowersSplit(j: nat, k: nat)
    ensures Pow2(j) * Pow2(k) == Pow2(j + k)
  {
    if j > 0 {
      PowersSplit(j - 1, k);
      assert 2 * Pow2(j - 1) * Pow2(k) == 2 * (Pow2(j - 1) * Pow2(k));
    }
  }

  /** Fewer than (w + 1) * 2^n challenges link a chain whose first polynomial does not fold to its last. */
  lemma FalseFoldIsCaught(p: Prime, chain: seq<seq<int>>, us: seq<int>, n: nat, w: nat, c: int, passing: set<int>)
    requires IsChain(chain, n, w) && |us| == n
    requires !SamePoly(p, FoldAll(chain[0], us, w), chain[n])
    requires forall r :: r in passing ==> 0 <= r < p && Linked(p, chain, us, n, w, c, r)
    ensures |passing| < (w + 1) * Pow2(n)
  {
    var j := FirstBreak(p, chain, us, n, w);
    ChainStep(chain, n, w, j);
    var offset := if j == 0 then c else 0;
    forall r | r in passing ensures AgreeAt(p, Fold(chain[j], us[j]), chain[j + 1], offset, SquareChain(r, j + 1)) {
      assert LinkedAt(p, chain, us, n, w, c, r, j);
    }
    BreakIsCaught(p, Fold(chain[j], us[j]), chain[j + 1], offset, j + 1, passing);
    var stretched := Stretched(Offset(offset, Fold(chain[j], us[j]), chain[j + 1]), j + 1);
    BoundOfBreak(w, n, j, |chain[j + 1]|, |stretched|);
  }
}
