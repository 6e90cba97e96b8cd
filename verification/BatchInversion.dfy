/** Montgomery batch inversion: one field inversion for a whole slice. */
module BatchInversion {
  import opened PrimeField

  /** vals[0] * ... * vals[n-1] */
  function Product(vals: seq<int>, n: nat): int
    requires n <= |vals|
  {
    if n == 0 then 1 else Product(vals, n - 1) * vals[n - 1]
  }

  ghost predicate AllNonzero(p: Prime, vals: seq<int>) {
    forall i :: 0 <= i < |vals| ==> !Cong(p, vals[i], 0)
  }

  /** inv holds an inverse of every element of vals. */
  ghost predicate AreInverses(p: Prime, vals: seq<int>, inv: seq<int>) {
    |inv| == |vals| && forall i :: 0 <= i < |vals| ==> InverseAt(p, vals, inv, i)
  }

  ghost predicate InverseAt(p: Prime, vals: seq<int>, inv: seq<int>, i: nat)
    requires i < |vals| == |inv|
  {
    Cong(p, vals[i] * inv[i], 1)
  }

  /** The product vanishes exactly when some factor does. */
  lemma {:induction false} ProductIsZero(p: Prime, vals: seq<int>, n: nat)
    requires n <= |vals|
    ensures Cong(p, Product(vals, n), 0) <==> exists i :: 0 <= i < n && Cong(p, vals[i], 0)
  {
    if n == 0 {
      DistinctResidues(p, 1, 0);
    } else {
      ProductIsZero(p, vals, n - 1);
      ZeroProduct(p, Product(vals, n - 1), vals[n - 1]);
    }
  }

  lemma InverseOfProduct(p: Prime, a: int, b: int, inv: int)
    requires Cong(p, a * b * inv, 1)
    ensures Cong(p, b * (inv * a), 1)
    ensures Cong(p, a * (inv * b), 1)
  {
    assert b * (inv * a) == a * b * inv == a * (inv * b);
  }

  method BatchInverse(p: Prime, vals: seq<int>, out: array<int>) returns (ok: bool)
    requires |vals| == out.Length
    modifies out
    ensures ok <==> AllNonzero(p, vals)
    ensures ok ==> AreInverses(p, vals, out[..])
  {
    var n := |vals|;
    if n == 0 {
      return true;
    }
    out[0] := vals[0];
    for i := 1 to n
      invariant forall j :: 0 <= j < i ==> out[j] == Product(vals, j + 1)
    {
      out[i] := out[i - 1] * vals[i];
    }
    ProductIsZero(p, vals, n);
    if Cong(p, out[n - 1], 0) {
      return false;
    }
    var invAcc := Inv(p, out[n - 1]);
    for i := n downto 1
      invariant forall j :: 0 <= j < i ==> out[j] == Product(vals, j + 1)
      invariant Cong(p, Product(vals, i) * invAcc, 1)
      invariant forall j :: i <= j < n ==> Cong(p, vals[j] * out[j], 1)
    {
      InverseOfProduct(p, Product(vals, i), vals[i], invAcc);
      out[i] := invAcc * out[i - 1];
      invAcc := invAcc * vals[i];
    }
    out[0] := invAcc;
    assert Product(vals, 1) == Product(vals, 0) * vals[0] == vals[0];
    forall j | 0 <= j < n ensures InverseAt(p, vals, out[..], j) {
      assert out[..][j] == out[j];
    }
    return true;
  }
}
