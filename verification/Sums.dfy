/** Powers and dot products over the integers. */
module Sums {
  import opened PrimeField

  function Pow(b: int, n: nat): int {
    if n == 0 then 1 else Pow(b, n - 1) * b
  }

  function Pow2(n: nat): (m: nat)
    ensures m >= 1
  {
    if n == 0 then 1 else 2 * Pow2(n - 1)
  }

  /** a[0]*b[0] + ... + a[n-1]*b[n-1] */
  function Dot(a: seq<int>, b: seq<int>, n: nat): int
    requires n <= |a| && n <= |b|
  {
    if n == 0 then 0 else Dot(a, b, n - 1) + a[n - 1] * b[n - 1]
  }

  lemma {:induction false} DotPrefix(a: seq<int>, b: seq<int>, c: seq<int>, d: seq<int>, n: nat)
    requires n <= |a| && n <= |b|
    ensures Dot(a + c, b + d, n) == Dot(a, b, n)
  {
    if n > 0 {
      DotPrefix(a, b, c, d, n - 1);
    }
  }

  lemma {:induction false} DotConcat(a: seq<int>, b: seq<int>, c: seq<int>, d: seq<int>, m: nat)
    requires |a| == |b| && m <= |c| && m <= |d|
    ensures Dot(a + c, b + d, |a| + m) == Dot(a, b, |a|) + Dot(c, d, m)
  {
    if m == 0 {
      DotPrefix(a, b, c, d, |a|);
    } else {
      DotConcat(a, b, c, d, m - 1);
    }
  }

  lemma {:induction false} DotScale(k: int, a: seq<int>, a': seq<int>, b: seq<int>, n: nat)
    requires n <= |a| && n <= |a'| && n <= |b|
    requires forall i :: 0 <= i < n ==> a'[i] == k * a[i]
    ensures Dot(a', b, n) == k * Dot(a, b, n)
  {
    if n > 0 {
      DotScale(k, a, a', b, n - 1);
      assert k * a[n - 1] * b[n - 1] == k * (a[n - 1] * b[n - 1]);
      assert k * (Dot(a, b, n - 1) + a[n - 1] * b[n - 1]) == k * Dot(a, b, n - 1) + k * (a[n - 1] * b[n - 1]);
    }
  }

  lemma {:induction false} DotAdd(a: seq<int>, b: seq<int>, c: seq<int>, d: seq<int>, n: nat)
    requires n <= |a| && n <= |b| && n <= |c| && n <= |d|
    requires forall i :: 0 <= i < n ==> c[i] == a[i] + b[i]
    ensures Dot(c, d, n) == Dot(a, d, n) + Dot(b, d, n)
  {
    if n > 0 {
      DotAdd(a, b, c, d, n - 1);
      assert (a[n - 1] + b[n - 1]) * d[n - 1] == a[n - 1] * d[n - 1] + b[n - 1] * d[n - 1];
    }
  }

  lemma {:induction false} DotCong(p: Prime, a: seq<int>, b: seq<int>, c: seq<int>, n: nat)
    requires n <= |a| && n <= |b| && n <= |c|
    requires forall i :: 0 <= i < n ==> Cong(p, b[i], c[i])
    ensures Cong(p, Dot(a, b, n), Dot(a, c, n))
  {
    if n == 0 {
      CongRefl(p, 0);
    } else {
      DotCong(p, a, b, c, n - 1);
      CongScale(p, b[n - 1], c[n - 1], a[n - 1]);
      CongAdd(p, Dot(a, b, n - 1), Dot(a, c, n - 1), a[n - 1] * b[n - 1], a[n - 1] * c[n - 1]);
    }
  }

  lemma {:induction false} DotZeros(a: seq<int>, b: seq<int>, n: nat)
    requires n <= |a| && n <= |b|
    requires forall i :: 0 <= i < n ==> a[i] == 0
    ensures Dot(a, b, n) == 0
  {
    if n > 0 {
      DotZeros(a, b, n - 1);
    }
  }

  lemma {:induction false} DotExt(a: seq<int>, a': seq<int>, b: seq<int>, b': seq<int>, n: nat)
    requires n <= |a| && n <= |a'| && n <= |b| && n <= |b'|
    requires forall i :: 0 <= i < n ==> a[i] == a'[i] && b[i] == b'[i]
    ensures Dot(a, b, n) == Dot(a', b', n)
  {
    if n > 0 {
      DotExt(a, a', b, b', n - 1);
    }
  }
}
