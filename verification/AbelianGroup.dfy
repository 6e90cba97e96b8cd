/** Multiples and linear combinations in an arbitrary commutative group, and operations that implement one. */
module AbelianGroup {

  /** A commutative group on the elements of its carrier. */
  datatype Group<!T> = Group(carrier: T -> bool, zero: T, add: (T, T) -> T, neg: T -> T)

  /** The group laws at three elements. */
  ghost predicate LawsAt<T>(g: Group<T>, x: T, y: T, z: T) {
    g.carrier(x) && g.carrier(y) && g.carrier(z) ==>
      && g.carrier(g.add(x, y)) && g.carrier(g.neg(x))
      && g.add(x, y) == g.add(y, x)
      && g.add(g.add(x, y), z) == g.add(x, g.add(y, z))
      && g.add(x, g.zero) == x
      && g.add(x, g.neg(x)) == g.zero
  }

  ghost predicate Lawful<T(!new)>(g: Group<T>) {
    g.carrier(g.zero) && forall x, y, z :: LawsAt(g, x, y, z)
  }

  lemma Laws<T(!new)>(g: Group<T>, x: T, y: T, z: T)
    requires Lawful(g) && g.carrier(x) && g.carrier(y) && g.carrier(z)
    ensures g.carrier(g.zero) && g.carrier(g.add(x, y)) && g.carrier(g.neg(x))
    ensures g.add(x, y) == g.add(y, x)
    ensures g.add(g.add(x, y), z) == g.add(x, g.add(y, z))
    ensures g.add(x, g.zero) == x && g.add(g.zero, x) == x
    ensures g.add(x, g.neg(x)) == g.zero
  {
    assert LawsAt(g, x, y, z) && LawsAt(g, x, g.zero, g.zero);
  }

  function Double<T>(g: Group<T>, x: T): T {
    g.add(x, x)
  }

  /** k * x for any integer k */
  function Times<T>(g: Group<T>, k: int, x: T): T
    decreases if k < 0 then 1 - k else k
  {
    if k < 0 then g.neg(Times(g, -k, x)) else if k == 0 then g.zero else g.add(Times(g, k - 1, x), x)
  }

  lemma {:induction false} TimesIn<T(!new)>(g: Group<T>, k: int, x: T)
    requires Lawful(g) && g.carrier(x)
    ensures g.carrier(Times(g, k, x))
    decreases if k < 0 then 1 - k else k
  {
    if k < 0 {
      TimesIn(g, -k, x);
      Laws(g, Times(g, -k, x), x, x);
    } else if k > 0 {
      TimesIn(g, k - 1, x);
      Laws(g, Times(g, k - 1, x), x, x);
    }
  }

  lemma InverseIsUnique<T(!new)>(g: Group<T>, x: T, y: T)
    requires Lawful(g) && g.carrier(x) && g.carrier(y) && g.add(x, y) == g.zero
    ensures y == g.neg(x)
  {
    var n := g.neg(x);
    Laws(g, x, y, y);
    calc {
      y;
    == { Laws(g, y, x, n); Laws(g, x, y, n); }
      g.add(y, g.add(x, n));
    == { Laws(g, y, x, n); }
      g.add(g.add(y, x), n);
    == { Laws(g, x, y, n); }
      g.add(g.zero, n);
    == { Laws(g, n, n, n); }
      n;
    }
  }

  lemma NegOfNeg<T(!new)>(g: Group<T>, x: T)
    requires Lawful(g) && g.carrier(x)
    ensures g.neg(g.neg(x)) == x
  {
    Laws(g, x, x, x);
    Laws(g, x, g.neg(x), x);
    InverseIsUnique(g, g.neg(x), x);
  }

  lemma Interchange<T(!new)>(g: Group<T>, a: T, b: T, c: T, d: T)
    requires Lawful(g) && g.carrier(a) && g.carrier(b) && g.carrier(c) && g.carrier(d)
    ensures g.add(g.add(a, b), g.add(c, d)) == g.add(g.add(a, c), g.add(b, d))
  {
    Laws(g, b, d, d);
    Laws(g, c, d, d);
    calc {
      g.add(g.add(a, b), g.add(c, d));
    == { Laws(g, a, b, g.add(c, d)); }
      g.add(a, g.add(b, g.add(c, d)));
    == { Laws(g, b, c, d); }
      g.add(a, g.add(g.add(b, c), d));
    == { Laws(g, b, c, d); }
      g.add(a, g.add(g.add(c, b), d));
    == { Laws(g, c, b, d); }
      g.add(a, g.add(c, g.add(b, d)));
    == { Laws(g, a, c, g.add(b, d)); }
      g.add(g.add(a, c), g.add(b, d));
    }
  }

  lemma NegOfSum<T(!new)>(g: Group<T>, x: T, y: T)
    requires Lawful(g) && g.carrier(x) && g.carrier(y)
    ensures g.neg(g.add(x, y)) == g.add(g.neg(x), g.neg(y))
  {
    Laws(g, x, y, y);
    Laws(g, y, x, x);
    Laws(g, g.neg(x), g.neg(y), x);
    Interchange(g, x, y, g.neg(x), g.neg(y));
    Laws(g, g.zero, x, x);
    InverseIsUnique(g, g.add(x, y), g.add(g.neg(x), g.neg(y)));
  }

  lemma NegOfZero<T(!new)>(g: Group<T>)
    requires Lawful(g)
    ensures g.neg(g.zero) == g.zero
  {
    Laws(g, g.zero, g.zero, g.zero);
    InverseIsUnique(g, g.zero, g.zero);
  }

  lemma TimesNeg<T(!new)>(g: Group<T>, k: int, x: T)
    requires Lawful(g) && g.carrier(x)
    ensures Times(g, -k, x) == g.neg(Times(g, k, x))
  {
    if k < 0 {
      TimesIn(g, -k, x);
      NegOfNeg(g, Times(g, -k, x));
    } else if k == 0 {
      NegOfZero(g);
    }
  }

  lemma AddBack<T(!new)>(g: Group<T>, y: T, x: T)
    requires Lawful(g) && g.carrier(y) && g.carrier(x)
    ensures g.add(g.add(g.neg(y), g.neg(x)), x) == g.neg(y)
  {
    Laws(g, y, x, x);
    Laws(g, x, x, x);
    Laws(g, g.neg(y), g.neg(x), x);
    Laws(g, g.neg(x), x, x);
  }

  /** (k + 1) * x, also below zero */
  lemma TimesSucc<T(!new)>(g: Group<T>, k: int, x: T)
    requires Lawful(g) && g.carrier(x)
    ensures Times(g, k + 1, x) == g.add(Times(g, k, x), x)
  {
    if k < 0 {
      var y := Times(g, -k - 1, x);
      TimesIn(g, -k - 1, x);
      TimesNeg(g, -k - 1, x);
      NegOfSum(g, y, x);
      AddBack(g, y, x);
    }
  }

  lemma {:induction false} TimesAddNat<T(!new)>(g: Group<T>, j: int, k: nat, x: T)
    requires Lawful(g) && g.carrier(x)
    ensures Times(g, j + k, x) == g.add(Times(g, j, x), Times(g, k, x))
  {
    TimesIn(g, j, x);
    if k == 0 {
      Laws(g, Times(g, j, x), x, x);
    } else {
      TimesAddNat(g, j, k - 1, x);
      TimesSucc(g, j + k - 1, x);
      TimesIn(g, k - 1, x);
      Laws(g, Times(g, j, x), Times(g, k - 1, x), x);
    }
  }

  lemma TimesAdd<T(!new)>(g: Group<T>, j: int, k: int, x: T)
    requires Lawful(g) && g.carrier(x)
    ensures Times(g, j + k, x) == g.add(Times(g, j, x), Times(g, k, x))
  {
    if k >= 0 {
      TimesAddNat(g, j, k, x);
    } else {
      TimesAddNat(g, -j, -k, x);
      TimesNeg(g, -j - k, x);
      TimesNeg(g, -k, x);
      TimesNeg(g, -j, x);
      TimesIn(g, -j, x);
      TimesIn(g, -k, x);
      NegOfSum(g, Times(g, -j, x), Times(g, -k, x));
    }
  }

  lemma {:induction false} TimesOfSumNat<T(!new)>(g: Group<T>, k: nat, x: T, y: T)
    requires Lawful(g) && g.carrier(x) && g.carrier(y)
    ensures Times(g, k, g.add(x, y)) == g.add(Times(g, k, x), Times(g, k, y))
  {
    if k == 0 {
      Laws(g, g.zero, x, y);
    } else {
      TimesOfSumNat(g, k - 1, x, y);
      TimesIn(g, k - 1, x);
      TimesIn(g, k - 1, y);
      Interchange(g, Times(g, k - 1, x), Times(g, k - 1, y), x, y);
    }
  }

  lemma {:induction false} TimesTimesNat<T(!new)>(g: Group<T>, k: nat, j: int, x: T)
    requires Lawful(g) && g.carrier(x)
    ensures Times(g, k, Times(g, j, x)) == Times(g, k * j, x)
  {
    if k > 0 {
      TimesTimesNat(g, k - 1, j, x);
      TimesAdd(g, (k - 1) * j, j, x);
      assert (k - 1) * j + j == k * j;
    }
  }

  lemma TimesTimes<T(!new)>(g: Group<T>, k: int, j: int, x: T)
    requires Lawful(g) && g.carrier(x)
    ensures Times(g, k, Times(g, j, x)) == Times(g, k * j, x)
  {
    if k >= 0 {
      TimesTimesNat(g, k, j, x);
    } else {
      TimesTimesNat(g, -k, j, x);
      TimesNeg(g, -k * j, x);
      assert -(-k * j) == k * j;
    }
  }

  lemma FourDoublings<T(!new)>(g: Group<T>, x: T)
    requires Lawful(g) && g.carrier(x)
    ensures Double(g, Double(g, Double(g, Double(g, x)))) == Times(g, 16, x)
  {
    TimesOne(g, x);
    TimesAdd(g, 1, 1, x);
    TimesAdd(g, 2, 2, x);
    TimesAdd(g, 4, 4, x);
    TimesAdd(g, 8, 8, x);
  }

  lemma TimesOne<T(!new)>(g: Group<T>, x: T)
    requires Lawful(g) && g.carrier(x)
    ensures Times(g, 1, x) == x
  {
    Laws(g, x, x, x);
  }

  // ----- linear combinations

  /** ks[0]*points[0] + ... + ks[n-1]*points[n-1] */
  function Combination<T>(g: Group<T>, points: seq<T>, ks: seq<int>, n: nat): T
    requires n <= |points| && n <= |ks|
  {
    if n == 0 then g.zero else g.add(Combination(g, points, ks, n - 1), Times(g, ks[n - 1], points[n - 1]))
  }

  ghost predicate AllIn<T>(g: Group<T>, points: seq<T>) {
    forall i :: 0 <= i < |points| ==> g.carrier(points[i])
  }

  lemma {:induction false} CombinationIn<T(!new)>(g: Group<T>, points: seq<T>, ks: seq<int>, n: nat)
    requires Lawful(g) && AllIn(g, points) && n <= |points| && n <= |ks|
    ensures g.carrier(Combination(g, points, ks, n))
  {
    if n > 0 {
      CombinationIn(g, points, ks, n - 1);
      TimesIn(g, ks[n - 1], points[n - 1]);
      Laws(g, Combination(g, points, ks, n - 1), Times(g, ks[n - 1], points[n - 1]), g.zero);
    }
  }

  lemma AddTerms<T(!new)>(g: Group<T>, x: T, y: T, sum: T, j: int, k: int, total: int, point: T)
    requires Lawful(g) && g.carrier(x) && g.carrier(y) && g.carrier(point)
    requires sum == g.add(x, y) && total == j + k
    ensures g.add(sum, Times(g, total, point))
         == g.add(g.add(x, Times(g, j, point)), g.add(y, Times(g, k, point)))
  {
    TimesAdd(g, j, k, point);
    TimesIn(g, j, point);
    TimesIn(g, k, point);
    Interchange(g, x, y, Times(g, j, point), Times(g, k, point));
  }

  lemma CombinationAddStep<T(!new)>(g: Group<T>, points: seq<T>, js: seq<int>, ks: seq<int>, sums: seq<int>, i: nat)
    requires Lawful(g) && AllIn(g, points) && i < |points| && i < |js| && i < |ks| && i < |sums|
    requires sums[i] == js[i] + ks[i]
    requires Combination(g, points, sums, i) == g.add(Combination(g, points, js, i), Combination(g, points, ks, i))
    ensures Combination(g, points, sums, i + 1)
         == g.add(Combination(g, points, js, i + 1), Combination(g, points, ks, i + 1))
  {
    CombinationIn(g, points, js, i);
    CombinationIn(g, points, ks, i);
    AddTerms(g, Combination(g, points, js, i), Combination(g, points, ks, i), Combination(g, points, sums, i), js[i],
             ks[i], sums[i], points[i]);
  }

  lemma {:induction false} CombinationAdd<T(!new)>(g: Group<T>, points: seq<T>, js: seq<int>, ks: seq<int>,
                                                   sums: seq<int>, n: nat)
    requires Lawful(g) && AllIn(g, points) && n <= |points| && n <= |js| && n <= |ks| && n <= |sums|
    requires forall i :: 0 <= i < n ==> sums[i] == js[i] + ks[i]
    ensures Combination(g, points, sums, n) == g.add(Combination(g, points, js, n), Combination(g, points, ks, n))
  {
    if n == 0 {
      Laws(g, g.zero, g.zero, g.zero);
    } else {
      CombinationAdd(g, points, js, ks, sums, n - 1);
      CombinationAddStep(g, points, js, ks, sums, n - 1);
    }
  }

  lemma {:induction false} TimesZero<T(!new)>(g: Group<T>, k: nat)
    requires Lawful(g)
    ensures Times(g, k, g.zero) == g.zero
  {
    if k > 0 {
      TimesZero(g, k - 1);
      Laws(g, g.zero, g.zero, g.zero);
    }
  }

  lemma {:induction false} CombinationScale<T(!new)>(g: Group<T>, points: seq<T>, c: nat, ks: seq<int>,
                                                     scaled: seq<int>, n: nat)
    requires Lawful(g) && AllIn(g, points) && n <= |points| && n <= |ks| && n <= |scaled|
    requires forall i :: 0 <= i < n ==> scaled[i] == c * ks[i]
    ensures Combination(g, points, scaled, n) == Times(g, c, Combination(g, points, ks, n))
  {
    if n == 0 {
      TimesZero(g, c);
    } else {
      CombinationScale(g, points, c, ks, scaled, n - 1);
      CombinationIn(g, points, ks, n - 1);
      TimesIn(g, ks[n - 1], points[n - 1]);
      TimesOfSumNat(g, c, Combination(g, points, ks, n - 1), Times(g, ks[n - 1], points[n - 1]));
      TimesTimes(g, c, ks[n - 1], points[n - 1]);
    }
  }

  // ----- operations on values that stand for group elements

  /** What the multiplication algorithms call. */
  datatype Ops<!T> = Ops(zero: T, add: (T, T) -> T, double: T -> T, neg: T -> T)

  /** Values of T standing for elements of a group on U; an element may have many representatives. */
  datatype Model<!T, !U> = Model(group: Group<U>, stands: (T, U) -> bool)

  ghost predicate Is<T, U>(m: Model<T, U>, t: T, u: U) {
    m.group.carrier(u) && m.stands(t, u)
  }

  ghost predicate ImplementsAt<T, U>(ops: Ops<T>, m: Model<T, U>, s: T, x: U, t: T, y: U) {
    Is(m, s, x) && Is(m, t, y) ==>
      && m.stands(ops.add(s, t), m.group.add(x, y))
      && m.stands(ops.double(s), m.group.add(x, x))
      && m.stands(ops.neg(s), m.group.neg(x))
  }

  /** The operations respect what the values stand for. */
  ghost predicate Implements<T(!new), U(!new)>(ops: Ops<T>, m: Model<T, U>) {
    && Lawful(m.group)
    && m.stands(ops.zero, m.group.zero)
    && forall s: T, x: U, t: T, y: U :: ImplementsAt(ops, m, s, x, t, y)
  }

  lemma Implemented<T(!new), U(!new)>(ops: Ops<T>, m: Model<T, U>, s: T, x: U, t: T, y: U)
    requires Implements(ops, m) && Is(m, s, x) && Is(m, t, y)
    ensures Is(m, ops.add(s, t), m.group.add(x, y))
    ensures Is(m, ops.double(s), Double(m.group, x))
    ensures Is(m, ops.neg(s), m.group.neg(x))
  {
    assert ImplementsAt(ops, m, s, x, t, y);
    Laws(m.group, x, y, y);
    Laws(m.group, x, x, x);
  }

  /** Four doublings in a row. */
  function Quadrupled<T>(ops: Ops<T>, t: T): T {
    ops.double(ops.double(ops.double(ops.double(t))))
  }

  lemma QuadrupledIs<T(!new), U(!new)>(ops: Ops<T>, m: Model<T, U>, t: T, u: U)
    requires Implements(ops, m) && Is(m, t, u)
    ensures Is(m, Quadrupled(ops, t), Times(m.group, 16, u))
  {
    var t2, u2 := ops.double(t), Double(m.group, u);
    Implemented(ops, m, t, u, t, u);
    var t4, u4 := ops.double(t2), Double(m.group, u2);
    Implemented(ops, m, t2, u2, t2, u2);
    var t8, u8 := ops.double(t4), Double(m.group, u4);
    Implemented(ops, m, t4, u4, t4, u4);
    Implemented(ops, m, t8, u8, t8, u8);
    FourDoublings(m.group, u);
  }
}
