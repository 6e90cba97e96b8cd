/** Soundness of whole sumcheck runs: a prover who adapts to every challenge wins with a false sum on at most
    7 * n * p^(n-1) of the p^n challenge vectors. */
module SumcheckRuns {
  import opened PrimeField
  import opened Polynomials
  import opened Sums
  import opened Sumcheck

  // ----- counting vectors

  ghost predicate IsVector(p: int, us: seq<int>, n: nat) {
    |us| == n && forall i :: 0 <= i < n ==> 0 <= us[i] < p
  }

  function Head(us: seq<int>): seq<int> {
    if us == [] then [] else us[..|us| - 1]
  }

  function Last(us: seq<int>): int {
    if us == [] then 0 else us[|us| - 1]
  }

  /** The last entries of the vectors that extend w. */
  ghost function Extensions(s: set<seq<int>>, w: seq<int>): set<int> {
    set us | us in s && Head(us) == w :: Last(us)
  }

  ghost predicate AllOfLength(s: set<seq<int>>, n: nat) {
    forall us :: us in s ==> |us| == n
  }

  /** As many vectors extend w as there are last entries. */
  lemma {:induction false} ExtensionsCount(s: set<seq<int>>, n: nat, w: seq<int>)
    requires AllOfLength(s, n + 1) && forall us :: us in s ==> Head(us) == w
    ensures |Extensions(s, w)| == |s|
    decreases |s|
  {
    if |s| == 0 {
      assert Extensions(s, w) == {};
    } else {
      var v := Pick(s);
      var rest := s - {v};
      ExtensionsCount(rest, n, w);
      OneExtension(s, n, w, v);
    }
  }

  lemma OneExtension(s: set<seq<int>>, n: nat, w: seq<int>, v: seq<int>)
    requires AllOfLength(s, n + 1) && v in s && forall us :: us in s ==> Head(us) == w
    ensures |Extensions(s, w)| == |Extensions(s - {v}, w)| + 1
  {
    var rest := s - {v};
    forall us | us in rest ensures Last(us) != Last(v) {
      if Last(us) == Last(v) {
        SameHeadAndLast(us, v);
      }
    }
    assert Extensions(s, w) == Extensions(rest, w) + {Last(v)};
  }

  lemma SameHeadAndLast(us: seq<int>, v: seq<int>)
    requires us != [] && v != [] && Head(us) == Head(v) && Last(us) == Last(v)
    ensures us == v
  {
    assert us == Head(us) + [Last(us)] && v == Head(v) + [Last(v)];
  }

  ghost function Others(s: set<seq<int>>, w: seq<int>): set<seq<int>> {
    set us | us in s && Head(us) != w
  }

  lemma SplitAt(s: set<seq<int>>, n: nat, w: seq<int>)
    requires AllOfLength(s, n + 1)
    ensures |s| == |Extensions(s, w)| + |Others(s, w)|
  {
    var own := set us | us in s && Head(us) == w;
    ExtensionsCount(own, n, w);
    assert Extensions(own, w) == Extensions(s, w);
    assert s == own + Others(s, w);
  }

  lemma OthersExtend(s: set<seq<int>>, w: seq<int>, v: seq<int>)
    requires v != w
    ensures Extensions(Others(s, w), v) == Extensions(s, v)
  {
  }

  ghost predicate FibresWithin(s: set<seq<int>>, heads: set<seq<int>>, m: nat) {
    forall w :: w in heads ==> |Extensions(s, w)| <= m
  }

  ghost predicate HeadsIn(s: set<seq<int>>, heads: set<seq<int>>) {
    forall us :: us in s ==> Head(us) in heads
  }

  lemma FibresOfOthers(s: set<seq<int>>, heads: set<seq<int>>, m: nat, w: seq<int>)
    requires w in heads && HeadsIn(s, heads) && FibresWithin(s, heads, m)
    ensures HeadsIn(Others(s, w), heads - {w}) && FibresWithin(Others(s, w), heads - {w}, m)
    ensures |Extensions(s, w)| <= m
  {
    forall v | v in heads - {w} ensures |Extensions(Others(s, w), v)| <= m {
      OthersExtend(s, w, v);
    }
  }

  lemma OneMore(k: nat, m: nat, own: int, rest: int)
    requires own <= m && rest <= k * m
    ensures own + rest <= (k + 1) * m
  {
  }

  lemma {:induction false} FibreBound(s: set<seq<int>>, n: nat, heads: set<seq<int>>, m: nat)
    requires AllOfLength(s, n + 1) && HeadsIn(s, heads) && FibresWithin(s, heads, m)
    ensures |s| <= |heads| * m
    decreases |heads|
  {
    if |heads| == 0 {
      if |s| > 0 {
        var v := Pick(s);
      }
    } else {
      var w := Pick(heads);
      SplitAt(s, n, w);
      FibresOfOthers(s, heads, m, w);
      FibreBound(Others(s, w), n, heads - {w}, m);
      OneMore(|heads - {w}|, m, |Extensions(s, w)|, |Others(s, w)|);
    }
  }

  /** The vectors of length n over 0..p-1. */
  ghost function Vectors(p: nat, n: nat): (s: set<seq<int>>)
    ensures forall us :: us in s <==> IsVector(p, us, n)
  {
    if n == 0 then
      {[]}
    else
      var shorter := Vectors(p, n - 1);
      var s := set w, x | w in shorter && x in Range(p) :: w + [x];
      assert forall us :: IsVector(p, us, n) ==> us[..n - 1] in shorter && us == us[..n - 1] + [us[n - 1]];
      s
  }

  lemma SubsetOfRange(p: nat, s: set<int>)
    requires forall x :: x in s ==> 0 <= x < p
    ensures |s| <= p
  {
    assert Range(p) == s + (Range(p) - s);
  }

  lemma WithinField(p: nat, s: set<seq<int>>, heads: set<seq<int>>)
    requires forall us :: us in s ==> us != [] && IsVector(p, us, |us|)
    ensures FibresWithin(s, heads, p)
  {
    forall w | w in heads ensures |Extensions(s, w)| <= p {
      SubsetOfRange(p, Extensions(s, w));
    }
  }

  lemma {:induction false} VectorsCount(p: nat, n: nat)
    ensures |Vectors(p, n)| <= Pow(p, n)
  {
    if n > 0 {
      VectorsCount(p, n - 1);
      var s, shorter := Vectors(p, n), Vectors(p, n - 1);
      WithinField(p, s, shorter);
      FibreBound(s, n - 1, shorter, p);
      Monotone(|shorter|, Pow(p, n - 1), p);
    }
  }

  lemma Monotone(x: int, y: int, c: nat)
    requires x <= y
    ensures x * c <= y * c
  {
  }

  /** Some entry is hit by its prefix. */
  ghost predicate HitSomewhere(hit: (seq<int>, int) -> bool, us: seq<int>) {
    exists i :: 0 <= i < |us| && hit(us[..i], us[i])
  }

  ghost predicate AllHit(p: int, hit: (seq<int>, int) -> bool, w: seq<int>, xs: set<int>) {
    forall x :: x in xs ==> 0 <= x < p && hit(w, x)
  }

  /** After every prefix at most c entries hit. */
  ghost predicate RarelyHit(p: int, hit: (seq<int>, int) -> bool, c: nat, n: nat) {
    forall w, xs: set<int> :: |w| < n && AllHit(p, hit, w, xs) ==> |xs| <= c
  }

  function Bound(p: int, c: nat, n: nat): int {
    if n == 0 then 0 else c * n * Pow(p, n - 1)
  }

  /** The vectors hit before their last entry. */
  ghost function Early(hit: (seq<int>, int) -> bool, s: set<seq<int>>): set<seq<int>> {
    set us | us in s && HitSomewhere(hit, Head(us))
  }

  lemma HitEarly(hit: (seq<int>, int) -> bool, us: seq<int>, i: nat)
    requires i + 1 < |us| && hit(us[..i], us[i])
    ensures HitSomewhere(hit, Head(us))
  {
    assert Head(us)[..i] == us[..i];
  }

  lemma HitLast(hit: (seq<int>, int) -> bool, us: seq<int>)
    requires HitSomewhere(hit, us) && !HitSomewhere(hit, Head(us))
    ensures us != [] && hit(Head(us), Last(us))
  {
    var i :| 0 <= i < |us| && hit(us[..i], us[i]);
    if i + 1 < |us| {
      HitEarly(hit, us, i);
    }
  }

  ghost function Heads(s: set<seq<int>>): set<seq<int>> {
    set us | us in s :: Head(us)
  }

  lemma HeadsAreHit(p: nat, hit: (seq<int>, int) -> bool, n: nat, early: set<seq<int>>)
    requires n > 0 && forall us :: us in early ==> IsVector(p, us, n) && HitSomewhere(hit, Head(us))
    ensures forall w :: w in Heads(early) ==> IsVector(p, w, n - 1) && HitSomewhere(hit, w)
    ensures AllOfLength(early, n) && HeadsIn(early, Heads(early)) && FibresWithin(early, Heads(early), p)
  {
    WithinField(p, early, Heads(early));
  }

  lemma RarelyHitBefore(p: int, hit: (seq<int>, int) -> bool, c: nat, n: nat)
    requires n > 0 && RarelyHit(p, hit, c, n)
    ensures RarelyHit(p, hit, c, n - 1)
  {
  }

  lemma EarlyCount(p: nat, n: nat, early: set<seq<int>>, most: int)
    requires n > 0 && AllOfLength(early, n) && |Heads(early)| <= most
    requires HeadsIn(early, Heads(early)) && FibresWithin(early, Heads(early), p)
    ensures |early| <= most * p
  {
    FibreBound(early, n - 1, Heads(early), p);
    Monotone(|Heads(early)|, most, p);
  }

  ghost predicate EndsInHit(p: int, hit: (seq<int>, int) -> bool, us: seq<int>, n: nat) {
    IsVector(p, us, n) && us != [] && hit(Head(us), Last(us))
  }

  lemma FibreIsHit(p: nat, hit: (seq<int>, int) -> bool, c: nat, n: nat, late: set<seq<int>>, w: seq<int>)
    requires n > 0 && RarelyHit(p, hit, c, n) && |w| < n
    requires forall us :: us in late ==> EndsInHit(p, hit, us, n)
    ensures |Extensions(late, w)| <= c
  {
    assert AllHit(p, hit, w, Extensions(late, w));
  }

  lemma LateFibres(p: nat, hit: (seq<int>, int) -> bool, c: nat, n: nat, late: set<seq<int>>, heads: set<seq<int>>)
    requires n > 0 && RarelyHit(p, hit, c, n) && forall us :: us in heads <==> IsVector(p, us, n - 1)
    requires forall us :: us in late ==> EndsInHit(p, hit, us, n)
    ensures AllOfLength(late, n) && HeadsIn(late, heads) && FibresWithin(late, heads, c)
  {
    forall us | us in late ensures |us| == n && Head(us) in heads {
      assert EndsInHit(p, hit, us, n);
      assert IsVector(p, Head(us), n - 1);
    }
    forall w | w in heads ensures |Extensions(late, w)| <= c {
      assert IsVector(p, w, n - 1);
      FibreIsHit(p, hit, c, n, late, w);
    }
  }

  lemma LateHits(p: nat, hit: (seq<int>, int) -> bool, n: nat, late: set<seq<int>>)
    requires forall us :: us in late ==> IsVector(p, us, n) && HitSomewhere(hit, us) && !HitSomewhere(hit, Head(us))
    ensures forall us :: us in late ==> EndsInHit(p, hit, us, n)
  {
    forall us | us in late ensures EndsInHit(p, hit, us, n) {
      HitLast(hit, us);
    }
  }

  lemma FibresCount(p: nat, n: nat, late: set<seq<int>>, heads: set<seq<int>>, c: nat, most: int)
    requires n > 0 && AllOfLength(late, n) && HeadsIn(late, heads) && FibresWithin(late, heads, c)
    requires |heads| <= most
    ensures |late| <= most * c
  {
    FibreBound(late, n - 1, heads, c);
    Monotone(|heads|, most, c);
  }

  /** All vectors of length n. */
  lemma AllVectors(p: nat, n: nat) returns (heads: set<seq<int>>)
    ensures forall us :: us in heads <==> IsVector(p, us, n)
    ensures |heads| <= Pow(p, n)
  {
    heads := Vectors(p, n);
    VectorsCount(p, n);
  }

  /** Only the last entry hits. */
  lemma LateCount(p: nat, hit: (seq<int>, int) -> bool, c: nat, n: nat, late: set<seq<int>>)
    requires n > 0 && RarelyHit(p, hit, c, n)
    requires forall us :: us in late ==> EndsInHit(p, hit, us, n)
    ensures |late| <= Pow(p, n - 1) * c
  {
    var heads := AllVectors(p, n - 1);
    LateFibres(p, hit, c, n, late, heads);
    FibresCount(p, n, late, heads, c, Pow(p, n - 1));
  }

  lemma AddBounds(p: nat, c: nat, n: nat)
    requires n > 0
    ensures Bound(p, c, n - 1) * p + Pow(p, n - 1) * c == Bound(p, c, n)
  {
    if n > 1 {
      Reassociate(c, n - 1, Pow(p, n - 2), p, Pow(p, n - 1));
    }
  }

  lemma Reassociate(c: int, m: int, q: int, p: int, r: int)
    requires r == q * p
    ensures c * m * q * p + r * c == c * (m + 1) * r
  {
    assert c * m * q * p == c * m * r;
  }

  ghost function Late(hit: (seq<int>, int) -> bool, s: set<seq<int>>): set<seq<int>> {
    set us | us in s && !HitSomewhere(hit, Head(us))
  }

  lemma LateOnly(p: nat, hit: (seq<int>, int) -> bool, n: nat, s: set<seq<int>>)
    requires forall us :: us in s ==> IsVector(p, us, n) && HitSomewhere(hit, us)
    ensures |s| == |Early(hit, s)| + |Late(hit, s)|
    ensures forall us :: us in Late(hit, s) ==>
                IsVector(p, us, n) && HitSomewhere(hit, us) && !HitSomewhere(hit, Head(us))
  {
    assert s == Early(hit, s) + Late(hit, s);
  }

  lemma {:induction false} HitsCount(p: nat, hit: (seq<int>, int) -> bool, c: nat, n: nat, s: set<seq<int>>)
    requires RarelyHit(p, hit, c, n)
    requires forall us :: us in s ==> IsVector(p, us, n) && HitSomewhere(hit, us)
    ensures |s| <= Bound(p, c, n)
  {
    if n == 0 {
      if |s| > 0 {
        var v := Pick(s);
      }
    } else {
      var early := Early(hit, s);
      HeadsAreHit(p, hit, n, early);
      RarelyHitBefore(p, hit, c, n);
      HitsCount(p, hit, c, n - 1, Heads(early));
      EarlyCount(p, n, early, Bound(p, c, n - 1));
      LateOnly(p, hit, n, s);
      LateHits(p, hit, n, Late(hit, s));
      LateCount(p, hit, c, n, Late(hit, s));
      AddBounds(p, c, n);
    }
  }

  // ----- adaptive provers

  /** The univariate a prover sends after the challenges so far. */
  type Strategy = seq<int> -> seq<int>

  ghost predicate IsStrategy(strategy: Strategy) {
    forall prefix :: |strategy(prefix)| == 8
  }

  ghost function Played(strategy: Strategy, us: seq<int>): (unis: seq<seq<int>>)
    requires IsStrategy(strategy)
    ensures AreUnivariates(unis, |us|)
  {
    seq(|us|, i requires 0 <= i < |us| => strategy(us[..i]))
  }

  /** The run is accepted and ends in the true value of g at the challenges. */
  ghost predicate Wins(p: Prime, g: MultiPoly, n: nat, strategy: Strategy, us: seq<int>)
    requires p > 7 && HasShape(g, n) && IsStrategy(strategy)
  {
    IsVector(p, us, n) && Accepts(p, Played(strategy, us), us, n, EvalAt(g, us))
  }

  ghost predicate Hit(p: Prime, g: MultiPoly, n: nat, strategy: Strategy, w: seq<int>, x: int)
    requires p > 7 && HasShape(g, n) && IsStrategy(strategy)
  {
    |w| < n && Cheats(p, g, n, w, strategy(w)) && Fools(p, g, n, w, strategy(w), x)
  }

  ghost function HitBy(p: Prime, g: MultiPoly, n: nat, strategy: Strategy): (seq<int>, int) -> bool
    requires p > 7 && HasShape(g, n) && IsStrategy(strategy)
  {
    (w, x) => Hit(p, g, n, strategy, w, x)
  }

  lemma WinIsHit(p: Prime, g: MultiPoly, n: nat, strategy: Strategy, us: seq<int>)
    requires p > 7 && HasShape(g, n) && IsStrategy(strategy) && !Cong(p, CubeSum(g, n, []), 0)
    requires Wins(p, g, n, strategy, us)
    ensures HitSomewhere(HitBy(p, g, n, strategy), us)
  {
    assert us[..n] == us;
    CongRefl(p, EvalAt(g, us));
    var i := SumcheckSoundness(p, g, n, Played(strategy, us), us, EvalAt(g, us));
    assert HitBy(p, g, n, strategy)(us[..i], us[i]);
  }

  lemma FooledByFew(p: Prime, g: MultiPoly, n: nat, strategy: Strategy, w: seq<int>, xs: set<int>)
    requires p > 7 && HasShape(g, n) && IsStrategy(strategy) && |w| < n
    requires forall x :: x in xs ==> 0 <= x < p && Hit(p, g, n, strategy, w, x)
    ensures |xs| <= 7
  {
    if |xs| > 0 {
      var x := Pick(xs);
      FewChallengesFool(p, g, n, w, strategy(w), xs);
    }
  }

  lemma FoolsRarely(p: Prime, g: MultiPoly, n: nat, strategy: Strategy)
    requires p > 7 && HasShape(g, n) && IsStrategy(strategy)
    ensures RarelyHit(p, HitBy(p, g, n, strategy), 7, n)
  {
    var hit := HitBy(p, g, n, strategy);
    forall w: seq<int>, xs: set<int> | |w| < n && forall x :: x in xs ==> 0 <= x < p && hit(w, x) ensures |xs| <= 7 {
      FooledByFew(p, g, n, strategy, w, xs);
    }
  }

  /** Against any adaptive prover a false sum wins on at most 7 * n * p^(n-1) challenge vectors. */
  lemma FalseSumRarelyWins(p: Prime, g: MultiPoly, n: nat, strategy: Strategy, wins: set<seq<int>>)
    requires p > 7 && HasShape(g, n) && IsStrategy(strategy) && !Cong(p, CubeSum(g, n, []), 0)
    requires forall us :: us in wins ==> Wins(p, g, n, strategy, us)
    ensures |wins| <= Bound(p, 7, n)
  {
    forall us | us in wins ensures HitSomewhere(HitBy(p, g, n, strategy), us) {
      WinIsHit(p, g, n, strategy, us);
    }
    FoolsRarely(p, g, n, strategy);
    HitsCount(p, HitBy(p, g, n, strategy), 7, n, wins);
  }
}
