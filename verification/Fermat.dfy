/** Fermat's little theorem, by multiplying out a permutation of the nonzero residues. */
module Fermat {
  import opened PrimeField
  import opened Sums
  import opened Polynomials

  function ProductOf(s: seq<int>): int {
    if s == [] then 1 else s[0] * ProductOf(s[1..])
  }

  function Factorial(n: nat): int {
    if n == 0 then 1 else n * Factorial(n - 1)
  }

  ghost predicate ArrangesOneTo(s: seq<int>, n: nat) {
    && |s| == n
    && (forall i :: 0 <= i < n ==> 1 <= s[i] <= n)
    && (forall i, j :: 0 <= i < j < n ==> s[i] != s[j])
  }

  lemma {:induction false} ProductWithout(s: seq<int>, k: nat)
    requires k < |s|
    ensures ProductOf(s) == s[k] * ProductOf(s[..k] + s[k + 1..])
  {
    if k == 0 {
      assert s[..0] + s[1..] == s[1..];
    } else {
      var rest := s[1..];
      ProductWithout(rest, k - 1);
      var t := s[..k] + s[k + 1..];
      assert t[0] == s[0] && t[1..] == rest[..k - 1] + rest[k..];
      assert s[0] * (s[k] * ProductOf(t[1..])) == s[k] * (s[0] * ProductOf(t[1..]));
    }
  }

  lemma {:induction false} DistinctElements(s: seq<int>)
    requires forall i, j :: 0 <= i < j < |s| ==> s[i] != s[j]
    ensures |set x | x in s| == |s|
  {
    if s == [] {
      assert (set x | x in s) == {};
    } else {
      var init, last := s[..|s| - 1], s[|s| - 1];
      DistinctElements(init);
      assert s == init + [last];
      assert (set x | x in s) == (set x | x in init) + {last};
      assert last !in init;
    }
  }

  lemma SubsetSize(s: set<int>, t: set<int>)
    requires s <= t
    ensures |s| <= |t|
  {
    assert t == s + (t - s);
  }

  lemma LargestOccurs(s: seq<int>, n: nat)
    requires n > 0 && ArrangesOneTo(s, n)
    ensures n in s
  {
    if n !in s {
      DistinctElements(s);
      assert Range(n) == (Range(n) - {0}) + {0};
      SubsetSize((set x | x in s), Range(n) - {0});
      assert false;
    }
  }

  lemma {:induction false} ArrangementProduct(s: seq<int>, n: nat)
    requires ArrangesOneTo(s, n)
    ensures ProductOf(s) == Factorial(n)
  {
    if n > 0 {
      LargestOccurs(s, n);
      var k :| 0 <= k < n && s[k] == n;
      var t := s[..k] + s[k + 1..];
      ProductWithout(s, k);
      ArrangementProduct(t, n - 1);
    }
  }

  function Multiples(p: Prime, a: int, n: nat): seq<int> {
    seq(n, i => a * (i + 1) % p)
  }

  lemma {:induction false} ProductOfMultiples(p: Prime, a: int, n: nat)
    ensures Cong(p, ProductOf(Multiples(p, a, n)), Pow(a, n) * Factorial(n))
  {
    if n == 0 {
      CongRefl(p, 1);
    } else {
      var m := Multiples(p, a, n);
      ProductWithout(m, n - 1);
      assert m[..n - 1] + m[n..] == Multiples(p, a, n - 1);
      ProductOfMultiples(p, a, n - 1);
      Reduced(p, a * n);
      CongMul(p, a * n % p, a * n, ProductOf(Multiples(p, a, n - 1)), Pow(a, n - 1) * Factorial(n - 1));
      Rearranged(a, n, Pow(a, n - 1), Factorial(n - 1));
    }
  }

  lemma Rearranged(a: int, n: int, q: int, f: int)
    ensures a * n * (q * f) == a * q * (n * f)
  {
  }

  lemma {:induction false} FactorialNonzero(p: Prime, n: nat)
    requires n < p
    ensures !Cong(p, Factorial(n), 0)
  {
    if n == 0 {
      DistinctResidues(p, 1, 0);
    } else {
      FactorialNonzero(p, n - 1);
      if Cong(p, Factorial(n), 0) {
        NoZeroDivisors(p, n, Factorial(n - 1));
        DistinctResidues(p, n, 0);
        assert false;
      }
    }
  }

  lemma MultiplesAreArranged(p: Prime, a: int)
    requires !Cong(p, a, 0)
    ensures ArrangesOneTo(Multiples(p, a, p - 1), p - 1)
  {
    var m := Multiples(p, a, p - 1);
    forall i | 0 <= i < p - 1 ensures 1 <= m[i] <= p - 1 {
      if m[i] == 0 {
        NoZeroDivisors(p, a, i + 1);
        DistinctResidues(p, i + 1, 0);
        assert false;
      }
    }
    forall i, j | 0 <= i < j < p - 1 ensures m[i] != m[j] {
      if m[i] == m[j] {
        ReducingIsHarmless(p, a * (i + 1), a * (j + 1));
        Cancel(p, a, i + 1, j + 1);
        DistinctResidues(p, i + 1, j + 1);
        assert false;
      }
    }
  }

  lemma FermatLittle(p: Prime, a: int)
    requires !Cong(p, a, 0)
    ensures Cong(p, Pow(a, p - 1), 1)
  {
    var f, q := Factorial(p - 1), Pow(a, p - 1);
    MultiplesAreArranged(p, a);
    ArrangementProduct(Multiples(p, a, p - 1), p - 1);
    ProductOfMultiples(p, a, p - 1);
    FactorialNonzero(p, p - 1);
    CongSym(p, f, q * f);
    assert q * f == f * q && f == f * 1;
    Cancel(p, f, q, 1);
  }
}
