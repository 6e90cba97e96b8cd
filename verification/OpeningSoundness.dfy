/** Soundness of the whole opening, one challenge at a time: whatever polynomials were committed to, an accepted
    opening with a false evaluation means that rho, r, z or tau is one of few values. */
module OpeningSoundness {
  import opened PrimeField
  import opened Sums
  import opened Polynomials
  import opened BatchInversion
  import opened Gemini
  import opened GeminiSoundness
  import opened Shplonk
  import opened ShplonkSoundness
  import opened Shplemini
  import opened ShpleminiOpening
  import opened ShpleminiCompleteness
  import opened ProofShape

  // ----- tau: a polynomial that does not vanish at z

  /** The pairing equation holds at tau although f does not vanish at z. */
  ghost predicate TauFools(p: Prime, f: seq<int>, z: int, w: seq<int>, tau: int) {
    !Cong(p, Eval(f, z), 0) && Cong(p, Eval(f, tau) + z * Eval(w, tau), tau * Eval(w, tau))
  }

  /** f - (X - z) * w */
  function Remainder(f: seq<int>, z: int, w: seq<int>): seq<int> {
    Add(f, Scale(-1, TimesLinear(w, z)))
  }

  lemma EvalRemainder(f: seq<int>, z: int, w: seq<int>, x: int)
    ensures Eval(Remainder(f, z, w), x) == Eval(f, x) - (x - z) * Eval(w, x)
    ensures |Remainder(f, z, w)| == if |f| <= |w| + 1 then |w| + 1 else |f|
  {
    EvalTimesLinear(w, z, x);
    EvalScale(-1, TimesLinear(w, z), x);
    EvalAdd(f, Scale(-1, TimesLinear(w, z)), x);
  }

  lemma FooledPairing(p: Prime, f: int, z: int, w: int, tau: int)
    requires Cong(p, f + z * w, tau * w)
    ensures Cong(p, f - (tau - z) * w, 0)
  {
    assert f - (tau - z) * w == f + z * w - tau * w;
  }

  /** Whatever KZG quotient of at most m coefficients was sent. */
  lemma FewTausFool(p: Prime, f: seq<int>, z: int, w: seq<int>, m: nat, taus: set<int>)
    requires |f| <= m + 1 && |w| <= m
    requires forall tau :: tau in taus ==> 0 <= tau < p && TauFools(p, f, z, w, tau)
    ensures |taus| <= m
  {
    if |taus| > 0 {
      var t := Pick(taus);
      var h := Remainder(f, z, w);
      assert TauFools(p, f, z, w, t);
      EvalRemainder(f, z, w, z);
      if IsZero(p, h) {
        EvalOfZero(p, h, z);
        assert false;
      }
      forall tau | tau in taus ensures Cong(p, Eval(h, tau), 0) {
        EvalRemainder(f, z, w, tau);
        FooledPairing(p, Eval(f, tau), z, Eval(w, tau), tau);
      }
      RootsAreFew(p, h, taus);
    }
  }

  // ----- rho: a false evaluation among the forty

  lemma {:induction false} DotOfPowers(d: seq<int>, rho: int, n: nat)
    requires |d| == n
    ensures Eval(d, rho) == Dot(d, Powers(rho, 1, 0, n), n)
  {
    if n > 0 {
      var front, last := d[..n - 1], d[n - 1];
      DotOfPowers(front, rho, n - 1);
      EvalSnoc(front, last, rho);
      assert d == front + [last];
      DotExt(d, front, Powers(rho, 1, 0, n), Powers(rho, 1, 0, n - 1), n - 1);
      assert Powers(rho, 1, 0, n)[n - 1] == 1 * Pow(rho, n - 1);
    }
  }

  lemma {:induction false} EvalSnoc(f: seq<int>, c: int, x: int)
    ensures Eval(f + [c], x) == Eval(f, x) + c * Pow(x, |f|)
  {
    if f == [] {
      assert f + [c] == [c] && [c][1..] == [] && x * 0 == 0;
    } else {
      EvalSnoc(f[1..], c, x);
      assert (f + [c])[1..] == f[1..] + [c];
      PowerFirst(x, |f| - 1, c, Eval(f[1..], x));
    }
  }

  lemma PowerFirst(x: int, n: nat, c: int, e: int)
    ensures x * (e + c * Pow(x, n)) == x * e + c * Pow(x, n + 1)
  {
    assert x * (c * Pow(x, n)) == c * (Pow(x, n) * x);
  }

  /** The multilinear values of the forty entities. */
  ghost function TrueValues(logN: nat, fs: seq<seq<int>>, us: seq<int>): (s: seq<int>)
    requires |fs| == NUMBER_UNSHIFTED && forall i :: 0 <= i < NUMBER_UNSHIFTED ==> |fs[i]| == Pow2(logN)
    ensures |s| == NUMBER_OF_ENTITIES
  {
    assert Pow2(logN) >= 1;
    MultilinearAll(fs + Shifts(fs), us)
  }

  lemma BatchedTruth(logN: nat, fs: seq<seq<int>>, rho: int, us: seq<int>)
    requires |fs| == NUMBER_UNSHIFTED && forall i :: 0 <= i < NUMBER_UNSHIFTED ==> |fs[i]| == Pow2(logN)
    ensures MultilinearAt(Folded(logN, fs, rho), us)
         == Dot(TrueValues(logN, fs, us), Powers(rho, 1, 0, NUMBER_OF_ENTITIES), NUMBER_OF_ENTITIES)
  {
    assert Pow2(logN) >= 1;
    MultilinearBatch(fs + Shifts(fs), Powers(rho, 1, 0, NUMBER_OF_ENTITIES), us, NUMBER_OF_ENTITIES, Pow2(logN));
    DotCommutes(TrueValues(logN, fs, us), Powers(rho, 1, 0, NUMBER_OF_ENTITIES), NUMBER_OF_ENTITIES);
  }

  /** Every evaluation is the multilinear value of its polynomial. */
  ghost predicate AllTrue(p: Prime, logN: nat, fs: seq<seq<int>>, evaluations: seq<int>, us: seq<int>)
    requires |fs| == NUMBER_UNSHIFTED && forall i :: 0 <= i < NUMBER_UNSHIFTED ==> |fs[i]| == Pow2(logN)
    requires |evaluations| == NUMBER_OF_ENTITIES
  {
    forall i :: 0 <= i < NUMBER_OF_ENTITIES ==> Cong(p, evaluations[i], TrueValues(logN, fs, us)[i])
  }

  /** The batched evaluation is true although an evaluation is false. */
  ghost predicate RhoFools(p: Prime, logN: nat, fs: seq<seq<int>>, evaluations: seq<int>, us: seq<int>, rho: int)
    requires |fs| == NUMBER_UNSHIFTED && forall i :: 0 <= i < NUMBER_UNSHIFTED ==> |fs[i]| == Pow2(logN)
    requires |evaluations| == NUMBER_OF_ENTITIES
  {
    && !AllTrue(p, logN, fs, evaluations, us)
    && Cong(p, Dot(evaluations, Powers(rho, 1, 0, NUMBER_OF_ENTITIES), NUMBER_OF_ENTITIES),
            MultilinearAt(Folded(logN, fs, rho), us))
  }

  ghost function Differences(a: seq<int>, b: seq<int>): (d: seq<int>)
    requires |a| == |b|
    ensures |d| == |a| && forall i :: 0 <= i < |d| ==> d[i] == a[i] - b[i]
  {
    seq(|a|, i requires 0 <= i < |a| => a[i] - b[i])
  }

  lemma DifferencesAtRho(a: seq<int>, b: seq<int>, rho: int)
    requires |a| == |b|
    ensures Eval(Differences(a, b), rho) == Dot(a, Powers(rho, 1, 0, |a|), |a|) - Dot(b, Powers(rho, 1, 0, |a|), |a|)
  {
    var d, w := Differences(a, b), Powers(rho, 1, 0, |a|);
    DotOfPowers(d, rho, |a|);
    DotAdd(d, b, a, w, |a|);
  }

  /** Fewer than forty challenges rho hide a false evaluation. */
  lemma FewRhosFool(p: Prime, logN: nat, fs: seq<seq<int>>, evaluations: seq<int>, us: seq<int>, rhos: set<int>)
    requires |fs| == NUMBER_UNSHIFTED && forall i :: 0 <= i < NUMBER_UNSHIFTED ==> |fs[i]| == Pow2(logN)
    requires |evaluations| == NUMBER_OF_ENTITIES
    requires forall rho :: rho in rhos ==> 0 <= rho < p && RhoFools(p, logN, fs, evaluations, us, rho)
    ensures |rhos| < NUMBER_OF_ENTITIES
  {
    if |rhos| > 0 {
      var some := Pick(rhos);
      assert RhoFools(p, logN, fs, evaluations, us, some);
      var truths := TrueValues(logN, fs, us);
      var d := Differences(evaluations, truths);
      var i :| 0 <= i < NUMBER_OF_ENTITIES && !Cong(p, evaluations[i], truths[i]);
      assert !Cong(p, d[i], 0);
      forall rho | rho in rhos ensures Cong(p, Eval(d, rho), 0) {
        assert RhoFools(p, logN, fs, evaluations, us, rho);
        BatchedTruth(logN, fs, rho, us);
        DifferencesAtRho(evaluations, truths, rho);
      }
      RootsAreFew(p, d, rhos);
    }
  }

  // ----- r: a false batched evaluation

  function Zeros(n: nat): (s: seq<int>)
    ensures |s| == n && forall i :: 0 <= i < n ==> s[i] == 0
  {
    seq(n, _ => 0)
  }

  lemma {:induction false} EvalPadded(f: seq<int>, n: nat, x: int)
    ensures Eval(f + Zeros(n), x) == Eval(f, x)
    decreases n
  {
    if n == 0 {
      assert f + Zeros(0) == f;
    } else {
      EvalPadded(f, n - 1, x);
      EvalSnoc(f + Zeros(n - 1), 0, x);
      assert f + Zeros(n) == f + Zeros(n - 1) + [0];
    }
  }

  lemma ZeroPair(u: int, a: int, b: int)
    requires a == 0 && b == 0
    ensures (1 - u) * a + u * b == 0
  {
  }

  lemma FoldZeros(n: nat, u: int)
    ensures Fold(Zeros(2 * n), u) == Zeros(n)
  {
    var z := Zeros(2 * n);
    forall i | 0 <= i < n ensures Fold(z, u)[i] == 0 {
      FoldElement(z, u, i);
      ZeroPair(u, z[2 * i], z[2 * i + 1]);
    }
  }

  lemma FoldCons(a: seq<int>, u: int, a0: int, a1: int)
    requires a != [] && |a| % 2 == 0 && a0 == a[0] && a1 == a[1]
    ensures Fold(a, u) == [(1 - u) * a0 + u * a1] + Fold(a[2..], u)
  {
  }

  lemma ConcatHead(f: seq<int>, z: seq<int>)
    requires |f| >= 2
    ensures (f + z)[0] == f[0] && (f + z)[1] == f[1] && (f + z)[2..] == f[2..] + z
  {
  }

  lemma {:induction false} FoldConcat(f: seq<int>, z: seq<int>, u: int)
    requires |f| % 2 == 0 && |z| % 2 == 0
    ensures Fold(f + z, u) == Fold(f, u) + Fold(z, u)
    decreases |f|
  {
    if f == [] {
      assert f + z == z;
    } else {
      ConcatHead(f, z);
      FoldConcat(f[2..], z, u);
      FoldCons(f, u, f[0], f[1]);
      FoldCons(f + z, u, f[0], f[1]);
      Associated((1 - u) * f[0] + u * f[1], Fold(f[2..], u), Fold(z, u));
    }
  }

  lemma Associated(head: int, s: seq<int>, t: seq<int>)
    ensures [head] + s + t == [head] + (s + t)
  {
  }

  lemma FoldPadded(f: seq<int>, n: nat, u: int)
    requires |f| % 2 == 0
    ensures Fold(f + Zeros(2 * n), u) == Fold(f, u) + Zeros(n)
  {
    FoldConcat(f, Zeros(2 * n), u);
    FoldZeros(n, u);
  }

  lemma PaddedLength(a: seq<int>, n: nat, w: nat, pad: nat)
    requires |a| == Pow2(n) && pad == w * Pow2(n)
    ensures |a + Zeros(pad)| == (w + 1) * Pow2(n)
  {
  }

  lemma ValueOfConstant(a: seq<int>)
    requires |a| == 1
    ensures a == [MultilinearAt(a, [])]
  {
    ConstantValue(a, [], 0);
    assert a[1..] == [] && 0 * Eval(a[1..], 0) == 0;
  }

  lemma FirstFold(a: seq<int>, us: seq<int>, w: nat, pad: nat) returns (half: nat)
    requires us != [] && |a| == Pow2(|us|) && pad == w * Pow2(|us|)
    ensures half == w * Pow2(|us[1..]|) && |a| % 2 == 0 && |Fold(a, us[0])| == Pow2(|us[1..]|)
    ensures |a + Zeros(pad)| % 2 == 0 && Fold(a + Zeros(pad), us[0]) == Fold(a, us[0]) + Zeros(half)
    ensures MultilinearAt(a, us) == MultilinearAt(Fold(a, us[0]), us[1..])
  {
    half := w * Pow2(|us| - 1);
    Halved(w, |us| - 1);
    assert pad == 2 * half;
    FoldPadded(a, half, us[0]);
    FoldKeepsWeight(a, us, 0);
  }

  /** Folding all variables leaves the multilinear value. */
  lemma {:induction false} FoldAllIsValue(a: seq<int>, us: seq<int>, w: nat, pad: nat)
    requires |a| == Pow2(|us|) && pad == w * Pow2(|us|)
    ensures |a + Zeros(pad)| == (w + 1) * Pow2(|us|)
    ensures FoldAll(a + Zeros(pad), us, w + 1) == [MultilinearAt(a, us)] + Zeros(w)
    decreases |us|
  {
    PaddedLength(a, |us|, w, pad);
    if us == [] {
      ValueOfConstant(a);
    } else {
      var half := FirstFold(a, us, w, pad);
      FoldAllIsValue(Fold(a, us[0]), us[1..], w, half);
      HalfLength(a + Zeros(pad), us, w + 1);
    }
  }

  // ----- the batch of the shifted polynomials, whose constant terms need not vanish

  ghost function FirstCoefficients(fs: seq<seq<int>>): (s: seq<int>)
    requires |fs| == NUMBER_UNSHIFTED && forall i :: 0 <= i < NUMBER_UNSHIFTED ==> |fs[i]| > 0
    ensures |s| == NUMBER_TO_BE_SHIFTED && forall k :: 0 <= k < |s| ==> s[k] == fs[NUMBER_PRECOMPUTED + k][0]
  {
    seq(NUMBER_TO_BE_SHIFTED, k requires 0 <= k < NUMBER_TO_BE_SHIFTED => fs[NUMBER_PRECOMPUTED + k][0])
  }

  /** The constant term of G. */
  ghost function ConstantOf(fs: seq<seq<int>>, rho: int): int
    requires |fs| == NUMBER_UNSHIFTED && forall i :: 0 <= i < NUMBER_UNSHIFTED ==> |fs[i]| > 0
  {
    Dot(FirstCoefficients(fs), Powers(rho, 1, NUMBER_UNSHIFTED, NUMBER_TO_BE_SHIFTED), NUMBER_TO_BE_SHIFTED)
  }

  /** What the shifts contribute to the folded polynomial. */
  ghost function ShiftedValue(fs: seq<seq<int>>, rho: int, x: int): int
    requires |fs| == NUMBER_UNSHIFTED && forall i :: 0 <= i < NUMBER_UNSHIFTED ==> |fs[i]| > 0
  {
    Dot(Powers(rho, 1, NUMBER_UNSHIFTED, NUMBER_TO_BE_SHIFTED), EvalAll(Shifts(fs), x), NUMBER_TO_BE_SHIFTED)
  }

  lemma ShiftExactly(f: seq<int>, x: int)
    requires f != []
    ensures Eval(f, x) == f[0] + x * Eval(Shift(f), x)
  {
    EvalAppendZero(f[1..], x);
  }

  /** G(x) is its constant term plus x times the shifts' value. */
  lemma ToBeShiftedAt(fs: seq<seq<int>>, rho: int, x: int)
    requires |fs| == NUMBER_UNSHIFTED && forall i :: 0 <= i < NUMBER_UNSHIFTED ==> |fs[i]| > 0
    ensures Eval(ToBeShifted(fs, rho), x) == ConstantOf(fs, rho) + x * ShiftedValue(fs, rho, x)
  {
    var w, shifted := Powers(rho, 1, NUMBER_UNSHIFTED, NUMBER_TO_BE_SHIFTED), fs[27..32];
    var first, e := FirstCoefficients(fs), EvalAll(Shifts(fs), x);
    var scaled := seq(NUMBER_TO_BE_SHIFTED, k requires 0 <= k < NUMBER_TO_BE_SHIFTED => x * e[k]);
    var whole := EvalAll(shifted, x);
    EvalBatch(shifted, w, NUMBER_TO_BE_SHIFTED, x);
    forall k | 0 <= k < NUMBER_TO_BE_SHIFTED ensures whole[k] == first[k] + scaled[k] {
      ShiftExactly(fs[NUMBER_PRECOMPUTED + k], x);
    }
    DotCommutes(w, whole, NUMBER_TO_BE_SHIFTED);
    DotAdd(first, scaled, whole, w, NUMBER_TO_BE_SHIFTED);
    DotScale(x, e, scaled, w, NUMBER_TO_BE_SHIFTED);
    DotCommutes(w, e, NUMBER_TO_BE_SHIFTED);
  }

  lemma OffsetTerms(p: Prime, s: int, i: int, f: int, v: int, c: int, g: int)
    requires Cong(p, s * i, 1) && g == c + s * v
    ensures Cong(p, f + i * g, f + v + i * c)
  {
    CongScale(p, s * i, 1, v);
    CongRefl(p, f + i * c);
    CongAdd(p, f + i * c, f + i * c, s * i * v, 1 * v);
    assert i * (c + s * v) == i * c + s * i * v;
  }

  /** At s, with i an inverse of s, F + i * G is the folded polynomial plus i times G's constant term. */
  lemma RoundZeroAt(p: Prime, logN: nat, fs: seq<seq<int>>, folds: seq<seq<int>>, rho: int, s: int, i: int)
    requires |fs| == NUMBER_UNSHIFTED && forall k :: 0 <= k < NUMBER_UNSHIFTED ==> |fs[k]| == Pow2(logN)
    requires forall k :: 0 <= k < NUMBER_UNSHIFTED ==> |fs[k]| > 0
    requires Cong(p, s * i, 1)
    ensures Cong(p, Eval(RoundPolys(fs, folds, rho, i)[0], s), Eval(Folded(logN, fs, rho), s) + i * ConstantOf(fs, rho))
  {
    EvalPlus(i, Unshifted(fs, rho), ToBeShifted(fs, rho), s);
    FoldedSplits(logN, fs, rho, s);
    ToBeShiftedAt(fs, rho, s);
    OffsetTerms(p, s, i, Eval(Unshifted(fs, rho), s), ShiftedValue(fs, rho, s), ConstantOf(fs, rho),
                Eval(ToBeShifted(fs, rho), s));
  }

  lemma RoundZeroAtMinus(p: Prime, logN: nat, fs: seq<seq<int>>, folds: seq<seq<int>>, rho: int, s: int, i: int)
    requires |fs| == NUMBER_UNSHIFTED && forall k :: 0 <= k < NUMBER_UNSHIFTED ==> |fs[k]| == Pow2(logN)
    requires forall k :: 0 <= k < NUMBER_UNSHIFTED ==> |fs[k]| > 0
    requires Cong(p, s * i, 1)
    ensures Cong(p, Eval(RoundPolys(fs, folds, rho, -i)[0], -s),
                 Eval(Folded(logN, fs, rho), -s) - i * ConstantOf(fs, rho))
  {
    assert -s * -i == s * i;
    RoundZeroAt(p, logN, fs, folds, rho, -s, -i);
    assert -i * ConstantOf(fs, rho) == -(i * ConstantOf(fs, rho));
  }

  // ----- the recovered values, whatever was sent

  lemma Unscaled(p: Prime, d: int, inv: int, n: int, o: int)
    requires Cong(p, d * inv, 1)
    ensures Cong(p, (n - o) * inv * d + o, n)
  {
    CongScale(p, d * inv, 1, n - o);
    CongRefl(p, o);
    CongAdd(p, (n - o) * (d * inv), (n - o) * 1, o, o);
    assert (n - o) * (d * inv) == (n - o) * inv * d;
  }

  lemma RecoveryEquation(p: Prime, r: int, u: int, next: int, neg: int, inv: int)
    requires Cong(p, (r * (1 - u) + u) * inv, 1)
    ensures Recovers(p, u, r, FoldStep(r, u, next, neg, inv), neg, next)
  {
    Unscaled(p, r * (1 - u) + u, inv, r * next * 2, neg * (r * (1 - u) - u));
    assert r * next * 2 == 2 * r * next;
  }

  lemma FoldValueRecovers(p: Prime, logN: nat, ch: Challenges, aEvaluations: seq<int>, inv: seq<int>, e: int, j: nat)
    requires j < logN <= |ch.us| && logN <= |aEvaluations|
    requires AreInverses(p, Denominators(logN, ch, Points(ch.r, logN)), inv)
    ensures Recovers(p, ch.us[j], SquareChain(ch.r, j),
                     FoldValue(logN, ch, Points(ch.r, logN), aEvaluations, inv, e, j), aEvaluations[j],
                     FoldValue(logN, ch, Points(ch.r, logN), aEvaluations, inv, e, j + 1))
  {
    var rs := Points(ch.r, logN);
    InverseFacts(p, logN, ch, rs, inv, j);
    RecoveryEquation(p, rs[j], ch.us[j], FoldValue(logN, ch, rs, aEvaluations, inv, e, j + 1), aEvaluations[j],
                     inv[FoldIndex(logN, j)]);
  }

  lemma {:induction false} SquaresNonzero(p: Prime, r: int, j: nat)
    requires !Cong(p, r, 0)
    ensures !Cong(p, SquareChain(r, j), 0)
  {
    if j > 0 {
      SquaresNonzero(p, r, j - 1);
      ZeroProduct(p, SquareChain(r, j - 1), SquareChain(r, j - 1));
    }
  }

  // ----- true fold claims link the committed polynomials

  /** The 35 polynomials have 2^logN coefficients; fold j may have w + 1 times as many as an honest one. */
  ghost predicate Fit(logN: nat, fs: seq<seq<int>>, folds: seq<seq<int>>, w: nat) {
    && 0 < logN <= CONST_PROOF_SIZE_LOG_N
    && |fs| == NUMBER_UNSHIFTED
    && (forall i :: 0 <= i < NUMBER_UNSHIFTED ==> |fs[i]| == Pow2(logN) && |fs[i]| > 0)
    && |folds| == logN - 1
    && forall i :: 0 <= i < |folds| ==> |folds[i]| == (w + 1) * Pow2(logN - (i + 1))
  }

  /** The batch, the committed folds and the claimed evaluation. */
  ghost function ChainOf(logN: nat, fs: seq<seq<int>>, folds: seq<seq<int>>, rho: int, e: int,
                         w: nat): (s: seq<seq<int>>)
    requires Fit(logN, fs, folds, w)
    ensures |s| == logN + 1 && IsChain(s, logN, w + 1)
    ensures s[0] == Folded(logN, fs, rho) + Zeros(w * Pow2(logN))
    ensures forall j :: 0 < j < logN ==> s[j] == folds[j - 1]
    ensures s[logN] == [e] + Zeros(w)
  {
    PaddedLength(Folded(logN, fs, rho), logN, w, w * Pow2(logN));
    var s := [Folded(logN, fs, rho) + Zeros(w * Pow2(logN))] + folds + [[e] + Zeros(w)];
    assert forall j :: 0 < j < logN ==> s[j] == folds[j - 1];
    s
  }

  ghost predicate FoldClaimsHold(p: Prime, logN: nat, fs: seq<seq<int>>, folds: seq<seq<int>>, ch: Challenges,
                                 aEvaluations: seq<int>, inv: seq<int>, e: int)
    requires |fs| == NUMBER_UNSHIFTED && 0 < logN <= |ch.us| && |folds| == logN - 1 && logN <= |aEvaluations|
  {
    && AreInverses(p, Denominators(logN, ch, Points(ch.r, logN)), inv)
    && ClaimsHold(p, Points(ch.r, logN), RoundPolys(fs, folds, ch.rho, inv[2]), RoundPolys(fs, folds, ch.rho, -inv[2]),
                  FoldValues(logN, ch, Points(ch.r, logN), aEvaluations, inv, e), aEvaluations)
  }

  /** The value recovered for round j + 1 is that of the chain's next polynomial. */
  lemma NextValue(p: Prime, logN: nat, fs: seq<seq<int>>, folds: seq<seq<int>>, w: nat, ch: Challenges,
                  aEvaluations: seq<int>, inv: seq<int>, e: int, j: nat)
    requires Fit(logN, fs, folds, w) && ch.Valid() && logN <= |aEvaluations| && j < logN
    requires FoldClaimsHold(p, logN, fs, folds, ch, aEvaluations, inv, e)
    ensures Cong(p, FoldValue(logN, ch, Points(ch.r, logN), aEvaluations, inv, e, j + 1),
                 Eval(ChainOf(logN, fs, folds, ch.rho, e, w)[j + 1], SquareChain(ch.r, j + 1)))
  {
    var chain, plus := ChainOf(logN, fs, folds, ch.rho, e, w), RoundPolys(fs, folds, ch.rho, inv[2]);
    var rs := Points(ch.r, logN);
    if j + 1 < logN {
      assert ClaimHolds(p, rs[j + 1], plus[j + 1], RoundPolys(fs, folds, ch.rho, -inv[2])[j + 1],
                        FoldValues(logN, ch, rs, aEvaluations, inv, e)[j + 1], aEvaluations[j + 1]);
      assert chain[j + 1] == folds[j] == plus[j + 1];
    } else {
      EvalPadded([e], w, SquareChain(ch.r, j + 1));
      ConstantPoly(e, SquareChain(ch.r, j + 1));
      CongRefl(p, e);
    }
  }

  lemma ConstantPoly(e: int, x: int)
    ensures Eval([e], x) == e
  {
    assert [e][1..] == [] && x * 0 == 0;
  }

  /** The claims of round 0, in terms of the folded polynomial. */
  lemma FirstValues(p: Prime, logN: nat, fs: seq<seq<int>>, folds: seq<seq<int>>, w: nat, ch: Challenges,
                    aEvaluations: seq<int>, inv: seq<int>, e: int)
    requires Fit(logN, fs, folds, w) && ch.Valid() && logN <= |aEvaluations|
    requires FoldClaimsHold(p, logN, fs, folds, ch, aEvaluations, inv, e)
    ensures Cong(p, FoldValue(logN, ch, Points(ch.r, logN), aEvaluations, inv, e, 0),
                 Eval(Folded(logN, fs, ch.rho), ch.r) + inv[2] * ConstantOf(fs, ch.rho))
    ensures Cong(p, aEvaluations[0], Eval(Folded(logN, fs, ch.rho), -ch.r) - inv[2] * ConstantOf(fs, ch.rho))
  {
    var rs, i := Points(ch.r, logN), inv[2];
    var a, g := Folded(logN, fs, ch.rho), ConstantOf(fs, ch.rho);
    var plus, minus := RoundPolys(fs, folds, ch.rho, i)[0], RoundPolys(fs, folds, ch.rho, -i)[0];
    assert ClaimHolds(p, rs[0], plus, minus, FoldValues(logN, ch, rs, aEvaluations, inv, e)[0], aEvaluations[0]);
    RInverse(p, logN, ch, inv);
    RoundZeroAt(p, logN, fs, folds, ch.rho, ch.r, i);
    RoundZeroAtMinus(p, logN, fs, folds, ch.rho, ch.r, i);
    CongTrans(p, FoldValue(logN, ch, rs, aEvaluations, inv, e, 0), Eval(plus, ch.r), Eval(a, ch.r) + i * g);
    CongTrans(p, aEvaluations[0], Eval(minus, -ch.r), Eval(a, -ch.r) - i * g);
  }

  lemma FirstLink(p: Prime, logN: nat, fs: seq<seq<int>>, folds: seq<seq<int>>, w: nat, ch: Challenges,
                  aEvaluations: seq<int>, inv: seq<int>, e: int)
    requires p > 2 && Fit(logN, fs, folds, w) && ch.Valid() && logN <= |aEvaluations|
    requires FoldClaimsHold(p, logN, fs, folds, ch, aEvaluations, inv, e)
    ensures LinkedAt(p, ChainOf(logN, fs, folds, ch.rho, e, w), ch.us[..logN], logN, w + 1,
                     ConstantOf(fs, ch.rho) * ch.us[0], ch.r, 0)
  {
    var chain, rs := ChainOf(logN, fs, folds, ch.rho, e, w), Points(ch.r, logN);
    FirstValues(p, logN, fs, folds, w, ch, aEvaluations, inv, e);
    RInverse(p, logN, ch, inv);
    EvalPadded(Folded(logN, fs, ch.rho), w * Pow2(logN), ch.r);
    EvalPadded(Folded(logN, fs, ch.rho), w * Pow2(logN), -ch.r);
    FoldValueRecovers(p, logN, ch, aEvaluations, inv, e, 0);
    NextValue(p, logN, fs, folds, w, ch, aEvaluations, inv, e, 0);
    ChainStep(chain, logN, w + 1, 0);
    ClaimsLink(p, chain[0], ch.us[0], chain[1], ConstantOf(fs, ch.rho), ch.r, inv[2],
               FoldValue(logN, ch, rs, aEvaluations, inv, e, 0), aEvaluations[0],
               FoldValue(logN, ch, rs, aEvaluations, inv, e, 1));
  }

  lemma LaterLink(p: Prime, logN: nat, fs: seq<seq<int>>, folds: seq<seq<int>>, w: nat, ch: Challenges,
                  aEvaluations: seq<int>, inv: seq<int>, e: int, c: int, j: nat)
    requires p > 2 && Fit(logN, fs, folds, w) && ch.Valid() && logN <= |aEvaluations| && 0 < j < logN
    requires FoldClaimsHold(p, logN, fs, folds, ch, aEvaluations, inv, e)
    ensures LinkedAt(p, ChainOf(logN, fs, folds, ch.rho, e, w), ch.us[..logN], logN, w + 1, c, ch.r, j)
  {
    var chain, rs := ChainOf(logN, fs, folds, ch.rho, e, w), Points(ch.r, logN);
    var pos, s := FoldValue(logN, ch, rs, aEvaluations, inv, e, j), SquareChain(ch.r, j);
    var plus, minus := RoundPolys(fs, folds, ch.rho, inv[2])[j], RoundPolys(fs, folds, ch.rho, -inv[2])[j];
    assert ClaimHolds(p, rs[j], plus, minus, FoldValues(logN, ch, rs, aEvaluations, inv, e)[j], aEvaluations[j]);
    RInverse(p, logN, ch, inv);
    InverseIsNonzero(p, inv[2], ch.r);
    SquaresNonzero(p, ch.r, j);
    FoldValueRecovers(p, logN, ch, aEvaluations, inv, e, j);
    NextValue(p, logN, fs, folds, w, ch, aEvaluations, inv, e, j);
    ChainStep(chain, logN, w + 1, j);
    NoOffset(Eval(chain[j], s), Inv(p, s));
    NoOffset(Eval(chain[j], -s), Inv(p, s));
    ClaimsLink(p, chain[j], ch.us[j], chain[j + 1], 0, s, Inv(p, s), pos, aEvaluations[j],
               FoldValue(logN, ch, rs, aEvaluations, inv, e, j + 1));
  }

  lemma NoOffset(v: int, i: int)
    ensures v + i * 0 == v && v - i * 0 == v
  {
  }

  lemma ClaimsLinkAll(p: Prime, logN: nat, fs: seq<seq<int>>, folds: seq<seq<int>>, w: nat, ch: Challenges,
                      aEvaluations: seq<int>, inv: seq<int>, e: int)
    requires p > 2 && Fit(logN, fs, folds, w) && ch.Valid() && logN <= |aEvaluations|
    requires FoldClaimsHold(p, logN, fs, folds, ch, aEvaluations, inv, e)
    ensures Linked(p, ChainOf(logN, fs, folds, ch.rho, e, w), ch.us[..logN], logN, w + 1,
                   ConstantOf(fs, ch.rho) * ch.us[0], ch.r)
  {
    var chain, us, slack := ChainOf(logN, fs, folds, ch.rho, e, w), ch.us[..logN], w + 1;
    var c := ConstantOf(fs, ch.rho) * ch.us[0];
    forall j | 0 <= j < logN ensures LinkedAt(p, chain, us, logN, slack, c, ch.r, j) {
      if j == 0 {
        FirstLink(p, logN, fs, folds, w, ch, aEvaluations, inv, e);
      } else {
        LaterLink(p, logN, fs, folds, w, ch, aEvaluations, inv, e, c, j);
      }
    }
  }

  /** For some answers and inverses every fold claim is true at r, although the batched evaluation e is false. */
  ghost predicate RFools(p: Prime, logN: nat, fs: seq<seq<int>>, folds: seq<seq<int>>, w: nat, rho: int, us: seq<int>,
                         e: int, r: int)
    requires Fit(logN, fs, folds, w) && |us| == CONST_PROOF_SIZE_LOG_N
  {
    && !Cong(p, e, MultilinearAt(Folded(logN, fs, rho), us[..logN]))
    && exists nu, z, aEvaluations, inv ::
         |aEvaluations| == CONST_PROOF_SIZE_LOG_N
         && FoldClaimsHold(p, logN, fs, folds, Challenges(us, rho, r, nu, z), aEvaluations, inv, e)
  }

  lemma FalseChain(p: Prime, logN: nat, fs: seq<seq<int>>, folds: seq<seq<int>>, w: nat, rho: int, us: seq<int>, e: int)
    requires Fit(logN, fs, folds, w) && |us| == logN
    requires !Cong(p, e, MultilinearAt(Folded(logN, fs, rho), us))
    ensures !SamePoly(p, FoldAll(ChainOf(logN, fs, folds, rho, e, w)[0], us, w + 1),
                      ChainOf(logN, fs, folds, rho, e, w)[logN])
  {
    var a, v := Folded(logN, fs, rho), MultilinearAt(Folded(logN, fs, rho), us);
    FoldAllIsValue(a, us, w, w * Pow2(logN));
    if Cong(p, v, e) {
      CongSym(p, v, e);
    }
    assert ([v] + Zeros(w))[0] == v && ([e] + Zeros(w))[0] == e;
    assert !SameAt(p, [v] + Zeros(w), [e] + Zeros(w), 0);
  }

  /** Fewer than (w + 2) * 2^logN challenges r hide a false batched evaluation, whatever fold polynomials of
      at most w + 1 times the honest length were committed to. */
  lemma FewRsFool(p: Prime, logN: nat, fs: seq<seq<int>>, folds: seq<seq<int>>, w: nat, rho: int, us: seq<int>, e: int,
                  rs: set<int>)
    requires p > 2 && Fit(logN, fs, folds, w) && |us| == CONST_PROOF_SIZE_LOG_N
    requires forall r :: r in rs ==> 0 <= r < p && RFools(p, logN, fs, folds, w, rho, us, e, r)
    ensures |rs| < (w + 2) * Pow2(logN)
  {
    if |rs| > 0 {
      var some := Pick(rs);
      assert RFools(p, logN, fs, folds, w, rho, us, e, some);
      FalseChain(p, logN, fs, folds, w, rho, us[..logN], e);
      var chain, c := ChainOf(logN, fs, folds, rho, e, w), ConstantOf(fs, rho) * us[0];
      forall r | r in rs ensures Linked(p, chain, us[..logN], logN, w + 1, c, r) {
        FooledIsLinked(p, logN, fs, folds, w, rho, us, e, r);
      }
      FalseFoldIsCaught(p, chain, us[..logN], logN, w + 1, c, rs);
    }
    BoundOfRs(w, logN, |rs|);
  }

  lemma BoundOfRs(w: nat, n: nat, k: nat)
    requires k == 0 || k < (w + 1 + 1) * Pow2(n)
    ensures k < (w + 2) * Pow2(n)
  {
  }

  lemma FooledIsLinked(p: Prime, logN: nat, fs: seq<seq<int>>, folds: seq<seq<int>>, w: nat, rho: int, us: seq<int>,
                       e: int, r: int)
    requires p > 2 && Fit(logN, fs, folds, w) && |us| == CONST_PROOF_SIZE_LOG_N
    requires RFools(p, logN, fs, folds, w, rho, us, e, r)
    ensures Linked(p, ChainOf(logN, fs, folds, rho, e, w), us[..logN], logN, w + 1, ConstantOf(fs, rho) * us[0], r)
  {
    var nu, z, aEvaluations, inv :|
      |aEvaluations| == CONST_PROOF_SIZE_LOG_N
      && FoldClaimsHold(p, logN, fs, folds, Challenges(us, rho, r, nu, z), aEvaluations, inv, e);
    ClaimsLinkAll(p, logN, fs, folds, w, Challenges(us, rho, r, nu, z), aEvaluations, inv, e);
  }

  // ----- z: a false fold claim

  /** The combination vanishes at z, for some inverses, although a claim is false. */
  ghost predicate ZFools(p: Prime, q: seq<int>, nu: int, points: seq<int>, plus: seq<seq<int>>, minus: seq<seq<int>>,
                         posValues: seq<int>, negValues: seq<int>, z: int)
    requires |points| == |plus| == |minus| <= |posValues| && |points| <= |negValues|
  {
    && !ClaimsHold(p, points, plus, minus, posValues, negValues)
    && BatchPasses(p, q, nu, points, plus, minus, posValues, negValues, z)
  }

  lemma FewZsFool(p: Prime, q: seq<int>, nu: int, points: seq<int>, plus: seq<seq<int>>, minus: seq<seq<int>>,
                  posValues: seq<int>, negValues: seq<int>, m: nat, zs: set<int>)
    requires |points| == |plus| == |minus| <= |posValues| && |points| <= |negValues|
    requires !Cong(p, nu, 0) && SignedPointsApart(p, points)
    requires 0 < m && |q| <= m && forall j :: 0 <= j < |points| ==> |plus[j]| <= m && |minus[j]| <= m
    requires forall z :: z in zs ==> 0 <= z < p && ZFools(p, q, nu, points, plus, minus, posValues, negValues, z)
    ensures |zs| < m + 2 * |points|
  {
    if |zs| > 0 {
      var some := Pick(zs);
      FalseOpeningIsCaught(p, q, nu, points, plus, minus, posValues, negValues, m, zs);
    }
  }

  // ----- the accepted opening

  /** The batched evaluation the verifier starts the folding from. */
  function BatchedEvaluationOf(proof: Proof, rho: int): int
    requires proof.Valid()
  {
    Dot(proof.evaluations, Powers(rho, 1, 0, NUMBER_OF_ENTITIES), NUMBER_OF_ENTITIES)
  }

  /** The opening polynomial vanishes at z: the combination passes for the verifier's own inverses. */
  lemma VanishingPasses(p: Prime, logN: nat, fs: seq<seq<int>>, folds: seq<seq<int>>, q: seq<int>, proof: Proof,
                        ch: Challenges, inv: seq<int>)
    requires 0 < logN <= CONST_PROOF_SIZE_LOG_N && proof.Valid() && ch.Valid()
    requires |fs| == NUMBER_UNSHIFTED && |folds| == logN - 1
    requires AreInverses(p, Denominators(logN, ch, Points(ch.r, logN)), inv)
    requires Cong(p, Eval(OpeningPoly(logN, fs, folds, q, ch, inv, OpeningConstant(logN, ch, proof, inv)), ch.z), 0)
    ensures BatchPasses(p, q, ch.nu, Points(ch.r, logN), RoundPolys(fs, folds, ch.rho, inv[2]),
                        RoundPolys(fs, folds, ch.rho, -inv[2]),
                        FoldValues(logN, ch, Points(ch.r, logN), proof.aEvaluations, inv,
                                   BatchedEvaluationOf(proof, ch.rho)),
                        proof.aEvaluations, ch.z)
  {
    var plus, minus := RoundPolys(fs, folds, ch.rho, inv[2]), RoundPolys(fs, folds, ch.rho, -inv[2]);
    var pos, neg, points := PosInverses(logN, inv), NegInverses(logN, inv), Points(ch.r, logN);
    DenominatorsInvert(p, logN, ch, inv);
    EvalDifference(q, WeightedPolys(ch.nu, pos, neg, plus, minus, logN), OpeningConstant(logN, ch, proof, inv), ch.z);
    PassesWith(p, q, ch.nu, points, plus, minus,
               FoldValues(logN, ch, points, proof.aEvaluations, inv, BatchedEvaluationOf(proof, ch.rho)),
               proof.aEvaluations, ch.z, pos, neg, OpeningConstant(logN, ch, proof, inv));
  }

  lemma PassesWith(p: Prime, q: seq<int>, nu: int, points: seq<int>, plus: seq<seq<int>>, minus: seq<seq<int>>,
                   posValues: seq<int>, negValues: seq<int>, z: int, pos: seq<int>, neg: seq<int>, constant: int)
    requires |points| == |plus| == |minus| <= |posValues| && |points| <= |negValues|
    requires Inverts(p, z, points, pos, neg)
    requires constant == ConstantTerm(nu, pos, neg, posValues, negValues, |points|)
    requires Cong(p, Eval(q, z) - Eval(WeightedPolys(nu, pos, neg, plus, minus, |points|), z) + constant, 0)
    ensures BatchPasses(p, q, nu, points, plus, minus, posValues, negValues, z)
  {
  }

  lemma PairingAtTau(p: Prime, msm: int, f: int, z: int, k: int, k': int, tau: int)
    requires Cong(p, msm, f + z * k) && Cong(p, msm, tau * k) && Cong(p, k, k')
    ensures Cong(p, f + z * k', tau * k')
  {
    CongSym(p, k, k');
    CongScale(p, k', k, z);
    CongScale(p, k, k', tau);
    CongRefl(p, f);
    CongAdd(p, f, f, z * k', z * k);
    CongSym(p, msm, f + z * k);
    CongTrans(p, f + z * k', f + z * k, msm);
    CongTrans(p, f + z * k', msm, tau * k);
    CongTrans(p, f + z * k', tau * k, tau * k');
  }

  lemma AcceptedPairing(p: Prime, tau: int, logN: nat, vk: seq<int>, proof: Proof, ch: Challenges, inv: seq<int>,
                        fs: seq<seq<int>>, folds: seq<seq<int>>, q: seq<int>, k: seq<int>, constant: int)
    requires 0 < logN <= CONST_PROOF_SIZE_LOG_N && |vk| == NUMBER_PRECOMPUTED && proof.Valid() && ch.Valid()
    requires |fs| == NUMBER_UNSHIFTED && |folds| == logN - 1 && |inv| == BatchSize(logN)
    requires Commits(p, tau, fs, folds, q, vk, proof) && Cong(p, proof.kzgQuotient, Eval(k, tau))
    requires Cong(p, Dot(Scalars(logN, ch, inv, constant), Commitments(vk, proof), TOTAL), tau * proof.kzgQuotient)
    ensures
      var f := OpeningPoly(logN, fs, folds, q, ch, inv, constant);
      Cong(p, Eval(f, ch.z), 0) || TauFools(p, f, ch.z, k, tau)
  {
    MsmIsOpening(p, tau, logN, fs, folds, q, vk, proof, ch, inv, constant);
    PairingAtTau(p, Dot(Scalars(logN, ch, inv, constant), Commitments(vk, proof), TOTAL),
                 Eval(OpeningPoly(logN, fs, folds, q, ch, inv, constant), tau), ch.z,
                 proof.kzgQuotient, Eval(k, tau), tau);
  }

  /** An accepted opening of committed polynomials: every evaluation is true, or one of the challenges is among
      the few that fool the verifier (FewRhosFool, FewRsFool, FewZsFool, FewTausFool). */
  lemma AcceptedOpening(p: Prime, tau: int, logN: nat, vk: seq<int>, proof: Proof, ch: Challenges, inv: seq<int>,
                        fs: seq<seq<int>>, folds: seq<seq<int>>, w: nat, q: seq<int>, k: seq<int>)
    requires |vk| == NUMBER_PRECOMPUTED && proof.Valid() && ch.Valid() && Fit(logN, fs, folds, w)
    requires AreInverses(p, Denominators(logN, ch, Points(ch.r, logN)), inv)
    requires OpeningHolds(p, tau, logN, vk, proof, ch, inv)
    requires Commits(p, tau, fs, folds, q, vk, proof) && Cong(p, proof.kzgQuotient, Eval(k, tau))
    ensures
      var e := BatchedEvaluationOf(proof, ch.rho);
      || AllTrue(p, logN, fs, proof.evaluations, ch.us[..logN])
      || RhoFools(p, logN, fs, proof.evaluations, ch.us[..logN], ch.rho)
      || RFools(p, logN, fs, folds, w, ch.rho, ch.us, e, ch.r)
      || ZFools(p, q, ch.nu, Points(ch.r, logN), RoundPolys(fs, folds, ch.rho, inv[2]),
                RoundPolys(fs, folds, ch.rho, -inv[2]),
                FoldValues(logN, ch, Points(ch.r, logN), proof.aEvaluations, inv, e), proof.aEvaluations, ch.z)
      || TauFools(p, OpeningPoly(logN, fs, folds, q, ch, inv, OpeningConstant(logN, ch, proof, inv)), ch.z, k, tau)
  {
    var constant, e := OpeningConstant(logN, ch, proof, inv), BatchedEvaluationOf(proof, ch.rho);
    AcceptedPairing(p, tau, logN, vk, proof, ch, inv, fs, folds, q, k, constant);
    if Cong(p, Eval(OpeningPoly(logN, fs, folds, q, ch, inv, constant), ch.z), 0) {
      VanishingPasses(p, logN, fs, folds, q, proof, ch, inv);
      if FoldClaimsHold(p, logN, fs, folds, ch, proof.aEvaluations, inv, e) {
        assert ch == Challenges(ch.us, ch.rho, ch.r, ch.nu, ch.z);
        assert FoldClaimsHold(p, logN, fs, folds, Challenges(ch.us, ch.rho, ch.r, ch.nu, ch.z), proof.aEvaluations, inv,
                              e);
      }
    }
  }
}
