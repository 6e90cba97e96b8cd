/** The scalar field of the verifier: integers modulo a prime.

    A field element is any integer of its residue class, and two elements are equal when they are
    congruent.  Reduction modulo `p` is a ring homomorphism (`ReducingIsHarmless`), so computing on
    representatives and comparing residues gives the same verdicts as reducing after every step. */
module PrimeField {

  /** The order of BN254's scalar field. */
  const BN254_ORDER: int := 0x30644e72e131a029b85045b68181585d2833e84879b9709143e1f593f0000001

  ghost predicate IsPrime(p: int) {
    p >= 2 && forall d :: 1 < d < p ==> p % d != 0
  }

  type Prime = p: int | 2 <= p && IsPrime(p) ghost witness 2

  /** Equality of field elements. */
  predicate Cong(p: Prime, a: int, b: int) {
    (a - b) % p == 0
  }

  // ----- congruences as explicit multiples

  lemma SmallMultiple(g: int, k: int, r: int)
    requires r == k * g && -g < r < g
    ensures k == 0
  {
    assert k >= 1 ==> (k - 1) * g >= 0;
    assert k <= -1 ==> (-k - 1) * g >= 0;
  }

  lemma MultipleOf(g: int, x: int, k: int)
    requires g > 0 && x == k * g
    ensures x % g == 0
  {
    var q, r := x / g, x % g;
    assert x == g * q + r;
    assert k * g - q * g == (k - q) * g;
    SmallMultiple(g, k - q, r);
  }

  lemma CongIntro(p: Prime, a: int, b: int, k: int)
    requires a - b == k * p
    ensures Cong(p, a, b)
  {
    MultipleOf(p, a - b, k);
  }

  lemma CongElim(p: Prime, a: int, b: int) returns (k: int)
    requires Cong(p, a, b)
    ensures a - b == k * p
  {
    k := (a - b) / p;
  }

  lemma CongRefl(p: Prime, a: int)
    ensures Cong(p, a, a)
  {
    CongIntro(p, a, a, 0);
  }

  lemma CongSym(p: Prime, a: int, b: int)
    requires Cong(p, a, b)
    ensures Cong(p, b, a)
  {
    var k := CongElim(p, a, b);
    CongIntro(p, b, a, -k);
  }

  lemma CongTrans(p: Prime, a: int, b: int, c: int)
    requires Cong(p, a, b) && Cong(p, b, c)
    ensures Cong(p, a, c)
  {
    var k := CongElim(p, a, b);
    var l := CongElim(p, b, c);
    CongIntro(p, a, c, k + l);
  }

  lemma CongAdd(p: Prime, a: int, a': int, b: int, b': int)
    requires Cong(p, a, a') && Cong(p, b, b')
    ensures Cong(p, a + b, a' + b')
    ensures Cong(p, a - b, a' - b')
  {
    var k := CongElim(p, a, a');
    var l := CongElim(p, b, b');
    CongIntro(p, a + b, a' + b', k + l);
    CongIntro(p, a - b, a' - b', k - l);
  }

  lemma CongMul(p: Prime, a: int, a': int, b: int, b': int)
    requires Cong(p, a, a') && Cong(p, b, b')
    ensures Cong(p, a * b, a' * b')
  {
    var k := CongElim(p, a, a');
    var l := CongElim(p, b, b');
    assert a * b - a' * b' == (a - a') * b + a' * (b - b');
    assert (k * p) * b + a' * (l * p) == (k * b + a' * l) * p;
    CongIntro(p, a * b, a' * b', k * b + a' * l);
  }

  lemma CongScale(p: Prime, a: int, b: int, c: int)
    requires Cong(p, a, b)
    ensures Cong(p, c * a, c * b)
    ensures Cong(p, a * c, b * c)
  {
    CongRefl(p, c);
    CongMul(p, c, c, a, b);
    CongMul(p, a, b, c, c);
  }

  lemma EqualRemainders(p: Prime, a: int, b: int, q: int, q': int)
    requires a - p * q == b - p * q'
    ensures Cong(p, a, b)
  {
    assert p * q - p * q' == (q - q') * p;
    CongIntro(p, a, b, q - q');
  }

  /** Reducing the operands first, and the result afterwards, changes no residue. */
  lemma ReducingIsHarmless(p: Prime, a: int, b: int)
    ensures Cong(p, (a % p + b % p) % p, a + b)
    ensures Cong(p, (a % p - b % p) % p, a - b)
    ensures Cong(p, (a % p * (b % p)) % p, a * b)
    ensures Cong(p, a, b) <==> a % p == b % p
  {
    Reduced(p, a);
    Reduced(p, b);
    CongAdd(p, a % p, a, b % p, b);
    CongMul(p, a % p, a, b % p, b);
    Reduced(p, a % p + b % p);
    Reduced(p, a % p - b % p);
    Reduced(p, a % p * (b % p));
    CongTrans(p, (a % p + b % p) % p, a % p + b % p, a + b);
    CongTrans(p, (a % p - b % p) % p, a % p - b % p, a - b);
    CongTrans(p, (a % p * (b % p)) % p, a % p * (b % p), a * b);
    if Cong(p, a, b) {
      CongSym(p, b % p, b);
      CongTrans(p, a % p, a, b);
      CongTrans(p, a % p, b, b % p);
      var k := CongElim(p, a % p, b % p);
      SmallMultiple(p, k, a % p - b % p);
    } else if a % p == b % p {
      EqualRemainders(p, a, b, a / p, b / p);
    }
  }

  lemma Reduced(p: Prime, a: int)
    ensures Cong(p, a % p, a)
  {
    assert a == p * (a / p) + a % p;
    CongIntro(p, a % p, a, -(a / p));
  }

  lemma DistinctResidues(p: Prime, a: int, b: int)
    requires 0 <= a < p && 0 <= b < p && a != b
    ensures !Cong(p, a, b)
  {
    if Cong(p, a, b) {
      var k := CongElim(p, a, b);
      SmallMultiple(p, k, a - b);
      assert false;
    }
  }

  // ----- inverses

  /** Extended Euclid: g == a*x + b*y, and g divides both. */
  function Egcd(a: nat, b: nat): (r: (int, int, int))
    requires a > 0 || b > 0
    ensures r.0 > 0
    ensures r.0 == a * r.1 + b * r.2
    ensures a % r.0 == 0 && b % r.0 == 0
    decreases b
  {
    if b == 0 then (a, 1, 0)
    else
      var (g, x, y) := Egcd(b, a % b);
      EgcdStep(a, b, g, x, y);
      (g, y, x - a / b * y)
  }

  lemma EgcdStep(a: nat, b: nat, g: int, x: int, y: int)
    requires b > 0 && g > 0
    requires g == b * x + a % b * y
    requires b % g == 0 && a % b % g == 0
    ensures g == a * y + b * (x - a / b * y)
    ensures a % g == 0
  {
    var q, r := a / b, a % b;
    assert a == b * q + r;
    assert a * y + b * (x - q * y) == b * x + r * y;
    var s, t := b / g, r / g;
    assert b == g * s && r == g * t;
    assert a == g * (s * q + t) by {
      assert g * s * q + g * t == g * (s * q + t);
    }
    MultipleOf(g, a, s * q + t);
  }

  /** The field inverse; like the host's, only asked for nonzero elements. */
  function Inv(p: Prime, a: int): (i: int)
    requires !Cong(p, a, 0)
    ensures Cong(p, a * i, 1)
  {
    var (g, x, y) := Egcd(a % p, p);
    InvStep(p, a, g, x, y);
    x
  }

  lemma DivisorOfPrime(p: Prime, r: int, g: int)
    requires 0 < r < p && g > 0
    requires r % g == 0 && p % g == 0
    ensures g == 1
  {
    assert IsPrime(p);
    assert g <= r by {
      assert r == g * (r / g);
      assert r / g >= 1 ==> (r / g - 1) * g >= 0;
    }
  }

  lemma InvStep(p: Prime, a: int, g: int, x: int, y: int)
    requires a % p != 0
    requires g > 0 && g == a % p * x + p * y
    requires a % p % g == 0 && p % g == 0
    ensures Cong(p, a * x, 1)
  {
    var r := a % p;
    DivisorOfPrime(p, r, g);
    assert a == p * (a / p) + r;
    assert a * x - 1 == (p * (a / p) + r) * x - r * x - p * y == (a / p * x - y) * p;
    CongIntro(p, a * x, 1, a / p * x - y);
  }

  lemma NoZeroDivisors(p: Prime, a: int, b: int)
    requires Cong(p, a * b, 0)
    ensures Cong(p, a, 0) || Cong(p, b, 0)
  {
    if !Cong(p, a, 0) {
      Cancel(p, a, b, 0);
    }
  }

  /** A nonzero factor cancels. */
  lemma Cancel(p: Prime, c: int, a: int, b: int)
    requires !Cong(p, c, 0)
    requires Cong(p, c * a, c * b)
    ensures Cong(p, a, b)
  {
    var i := Inv(p, c);
    var d := a - b;
    var k := CongElim(p, c * a, c * b);
    var l := CongElim(p, c * i, 1);
    assert c * d == k * p;
    Isolate(p, c, i, d, k, l);
    CongIntro(p, a, b, i * k - l * d);
  }

  lemma Isolate(p: int, c: int, i: int, d: int, k: int, l: int)
    requires c * d == k * p && c * i - 1 == l * p
    ensures d == (i * k - l * d) * p
  {
    calc {
      d;
      (c * i - l * p) * d;
      i * (c * d) - l * p * d;
      i * (k * p) - l * p * d;
      (i * k - l * d) * p;
    }
  }

  lemma ZeroProduct(p: Prime, a: int, b: int)
    ensures Cong(p, a * b, 0) <==> Cong(p, a, 0) || Cong(p, b, 0)
  {
    if Cong(p, a * b, 0) {
      NoZeroDivisors(p, a, b);
    }
    if Cong(p, a, 0) {
      CongScale(p, a, 0, b);
    }
    if Cong(p, b, 0) {
      CongScale(p, b, 0, a);
    }
  }

  lemma NegatedZero(p: Prime, x: int)
    ensures Cong(p, -x, 0) <==> Cong(p, x, 0)
  {
    if Cong(p, -x, 0) {
      CongScale(p, -x, 0, -1);
    }
    if Cong(p, x, 0) {
      CongScale(p, x, 0, -1);
    }
  }
}
