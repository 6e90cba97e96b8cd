/** Interleaved multi-scalar multiplication: one chain of four doublings per digit, shared by all points. */
module LinearCombination {
  import opened AbelianGroup
  import opened Radix16
  import LookupTable

  /** Pair j is a point's table and the recoding of its scalar. */
  ghost predicate Prepared<T, U>(m: Model<T, U>, tables: seq<array<T>>, digits: seq<array<i8>>, us: seq<U>, n: nat)
    reads tables, digits
  {
    && |tables| == |digits| == |us|
    && AllIn(m.group, us)
    && forall j :: 0 <= j < |us| ==> PreparedAt(m, tables[j], digits[j], us[j], n)
  }

  ghost predicate PreparedAt<T, U>(m: Model<T, U>, table: array<T>, recoded: array<i8>, u: U, n: nat)
    reads table, recoded
  {
    && LookupTable.IsTable(m, table[..], u)
    && recoded.Length == 2 * n + 1
    && Centered(recoded[..], 2 * n) && 0 <= recoded[2 * n] <= 1
  }

  function Column(digits: seq<array<i8>>, i: nat): (column: seq<int>)
    requires forall j :: 0 <= j < |digits| ==> i < digits[j].Length
    reads digits
    ensures |column| == |digits|
  {
    seq(|digits|, j requires 0 <= j < |digits| reads digits requires i < digits[j].Length => digits[j][i] as int)
  }

  /** What digits i and up amount to, for every scalar. */
  function Partial(digits: seq<array<i8>>, i: nat): (values: seq<int>)
    requires forall j :: 0 <= j < |digits| ==> i <= digits[j].Length
    reads digits
    ensures |values| == |digits|
  {
    seq(|digits|,
        j requires 0 <= j < |digits| reads digits requires i <= digits[j].Length => Horner(digits[j][..], i))
  }

  /** Four doublings and one more column of digits. */
  lemma HornerStep<U(!new)>(g: Group<U>, us: seq<U>, above: seq<int>, column: seq<int>, here: seq<int>)
    requires Lawful(g) && AllIn(g, us) && |us| == |above| == |column| == |here|
    requires forall j :: 0 <= j < |us| ==> here[j] == 16 * above[j] + column[j]
    ensures g.add(Times(g, 16, Combination(g, us, above, |us|)), Combination(g, us, column, |us|))
         == Combination(g, us, here, |us|)
  {
    var scaled := seq(|above|, j requires 0 <= j < |above| => 16 * above[j]);
    CombinationScale(g, us, 16, above, scaled, |us|);
    CombinationAdd(g, us, scaled, column, here, |us|);
  }

  method Selected<T(!new), U(!new)>(ops: Ops<T>, table: array<T>, recoded: array<i8>, i: nat, vartime: bool,
                                    ghost m: Model<T, U>, ghost u: U, ghost n: nat)
      returns (t: T)
    requires Implements(ops, m) && PreparedAt(m, table, recoded, u, n) && i <= 2 * n
    ensures Is(m, t, Times(m.group, recoded[i] as int, u))
  {
    assert i < 2 * n ==> recoded[i] == recoded[..][i];
    if vartime {
      t := LookupTable.SelectVartime(ops, table, recoded[i], m, u);
    } else {
      t := LookupTable.Select(ops, table, recoded[i], m, u);
    }
  }

  lemma NextTerm<U(!new)>(g: Group<U>, q: U, us: seq<U>, column: seq<int>, j: nat)
    requires Lawful(g) && AllIn(g, us) && g.carrier(q) && j < |us| == |column|
    ensures g.add(g.add(q, Combination(g, us, column, j)), Times(g, column[j], us[j]))
         == g.add(q, Combination(g, us, column, j + 1))
  {
    CombinationIn(g, us, column, j);
    TimesIn(g, column[j], us[j]);
    Laws(g, q, Combination(g, us, column, j), Times(g, column[j], us[j]));
  }

  method AddColumn<T(!new), U(!new)>(ops: Ops<T>, tables: seq<array<T>>, digits: seq<array<i8>>, i: nat, q: T,
                                     vartime: bool, ghost m: Model<T, U>, ghost us: seq<U>, ghost u: U, ghost n: nat)
    returns (r: T)
    requires Implements(ops, m) && Prepared(m, tables, digits, us, n) && i <= 2 * n && Is(m, q, u)
    requires forall j :: 0 <= j < |digits| ==> i < digits[j].Length
    ensures Is(m, r, m.group.add(u, Combination(m.group, us, Column(digits, i), |us|)))
  {
    r := q;
    Laws(m.group, u, u, u);
    ghost var column := Column(digits, i);
    for j := 0 to |tables|
      invariant Is(m, r, m.group.add(u, Combination(m.group, us, column, j)))
    {
      assert PreparedAt(m, tables[j], digits[j], us[j], n);
      var t := Selected(ops, tables[j], digits[j], i, vartime, m, us[j], n);
      Implemented(ops, m, r, m.group.add(u, Combination(m.group, us, column, j)), t, Times(m.group, column[j], us[j]));
      NextTerm(m.group, u, us, column, j);
      r := ops.add(r, t);
    }
  }

  lemma TopColumn(digits: seq<array<i8>>, n: nat)
    requires forall j :: 0 <= j < |digits| ==> digits[j].Length == 2 * n + 1
    ensures Partial(digits, 2 * n) == Column(digits, 2 * n)
  {
    forall j | 0 <= j < |digits| ensures Horner(digits[j][..], 2 * n) == digits[j][2 * n] as int {
      assert Horner(digits[j][..], 2 * n) == digits[j][2 * n] as int + 16 * Horner(digits[j][..], 2 * n + 1);
    }
  }

  /** The sum so far: what the digits from i up amount to. */
  ghost predicate HasPartial<T, U>(m: Model<T, U>, q: T, us: seq<U>, digits: seq<array<i8>>, i: nat)
    requires |us| == |digits| && forall j :: 0 <= j < |digits| ==> i <= digits[j].Length
    reads digits
  {
    Is(m, q, Combination(m.group, us, Partial(digits, i), |us|))
  }

  method FirstColumn<T(!new), U(!new)>(ops: Ops<T>, tables: seq<array<T>>, digits: seq<array<i8>>, vartime: bool,
                                       ghost m: Model<T, U>, ghost us: seq<U>, n: nat)
    returns (q: T)
    requires Implements(ops, m) && Prepared(m, tables, digits, us, n)
    requires forall j :: 0 <= j < |digits| ==> digits[j].Length == 2 * n + 1
    ensures HasPartial(m, q, us, digits, 2 * n)
  {
    q := AddColumn(ops, tables, digits, 2 * n, ops.zero, vartime, m, us, m.group.zero, n);
    ghost var top := Combination(m.group, us, Column(digits, 2 * n), |us|);
    CombinationIn(m.group, us, Column(digits, 2 * n), |us|);
    Laws(m.group, top, m.group.zero, m.group.zero);
    TopColumn(digits, n);
  }

  method NextColumn<T(!new), U(!new)>(ops: Ops<T>, tables: seq<array<T>>, digits: seq<array<i8>>, i: nat, q: T,
                                      vartime: bool, ghost m: Model<T, U>, ghost us: seq<U>, ghost n: nat)
    returns (r: T)
    requires Implements(ops, m) && Prepared(m, tables, digits, us, n) && i < 2 * n
    requires forall j :: 0 <= j < |digits| ==> digits[j].Length == 2 * n + 1
    requires HasPartial(m, q, us, digits, i + 1)
    ensures HasPartial(m, r, us, digits, i)
  {
    ghost var above := Combination(m.group, us, Partial(digits, i + 1), |us|);
    QuadrupledIs(ops, m, q, above);
    r := ops.double(ops.double(ops.double(ops.double(q))));
    r := AddColumn(ops, tables, digits, i, r, vartime, m, us, Times(m.group, 16, above), n);
    HornerStep(m.group, us, Partial(digits, i + 1), Column(digits, i), Partial(digits, i));
  }

  /** Both variants, which differ in the selection only. */
  method LincombDigits<T(!new), U(!new)>(ops: Ops<T>, tables: seq<array<T>>, digits: seq<array<i8>>, n: nat,
                                         vartime: bool, ghost m: Model<T, U>, ghost us: seq<U>)
    returns (q: T)
    requires Implements(ops, m) && Prepared(m, tables, digits, us, n)
    ensures Is(m, q, Combination(m.group, us, Partial(digits, 0), |us|))
  {
    assert forall j :: 0 <= j < |us| ==> PreparedAt(m, tables[j], digits[j], us[j], n);
    q := FirstColumn(ops, tables, digits, vartime, m, us, n);
    var i := 2 * n;
    while i > 0
      invariant 0 <= i <= 2 * n
      invariant HasPartial(m, q, us, digits, i)
    {
      i := i - 1;
      q := NextColumn(ops, tables, digits, i, q, vartime, m, us, n);
    }
  }

  /** What the recoding reads: the values of the last n bytes. */
  function Values(scalars: seq<seq<u8>>, n: nat): (values: seq<int>)
    requires forall j :: 0 <= j < |scalars| ==> n <= |scalars[j]|
    ensures |values| == |scalars|
  {
    seq(|scalars|, j requires 0 <= j < |scalars| => LowValue(scalars[j], n))
  }

  /** Without bytes set beyond those, the scalars' own values. */
  lemma ValuesOfPadded(scalars: seq<seq<u8>>, n: nat)
    requires forall j :: 0 <= j < |scalars| ==> n <= |scalars[j]| && IsPadded(scalars[j], n)
    ensures forall j :: 0 <= j < |scalars| ==> Values(scalars, n)[j] == FromBytes(scalars[j])
  {
    forall j | 0 <= j < |scalars| ensures Values(scalars, n)[j] == FromBytes(scalars[j]) {
      PaddedValue(scalars[j], n);
    }
  }

  method MakeTables<T(!new), U(!new)>(ops: Ops<T>, points: seq<T>, ghost m: Model<T, U>, ghost us: seq<U>)
      returns (tables: seq<array<T>>)
    requires Implements(ops, m) && |points| == |us| && forall j :: 0 <= j < |us| ==> Is(m, points[j], us[j])
    ensures |tables| == |us| && forall k :: 0 <= k < |us| ==> LookupTable.IsTable(m, tables[k][..], us[k])
  {
    tables := [];
    for j := 0 to |points|
      invariant |tables| == j
      invariant forall k :: 0 <= k < j ==> LookupTable.IsTable(m, tables[k][..], us[k])
    {
      var table := LookupTable.New(ops, points[j], m, us[j]);
      tables := tables + [table];
    }
  }

  method Recode(scalars: seq<seq<u8>>, n: nat) returns (digits: seq<array<i8>>)
    requires forall j :: 0 <= j < |scalars| ==> n <= |scalars[j]|
    ensures |digits| == |scalars|
    ensures forall k :: 0 <= k < |digits| ==> fresh(digits[k]) && digits[k].Length == 2 * n + 1
    ensures forall k :: 0 <= k < |digits| ==> Centered(digits[k][..], 2 * n) && 0 <= digits[k][2 * n] <= 1
    ensures Partial(digits, 0) == Values(scalars, n)
  {
    digits := [];
    for j := 0 to |scalars|
      invariant |digits| == j
      invariant forall k :: 0 <= k < j ==> fresh(digits[k]) && digits[k].Length == 2 * n + 1
      invariant forall k :: 0 <= k < j ==> Centered(digits[k][..], 2 * n) && 0 <= digits[k][2 * n] <= 1
      invariant forall k :: 0 <= k < j ==> Horner(digits[k][..], 0) == LowValue(scalars[k], n)
    {
      var recoded := Decompose(scalars[j], n);
      digits := digits + [recoded];
    }
  }

  /** Sum of scalar times point over all pairs, by tables, recoding and the interleaved loop.  Scalars may be
      longer than the n bytes that are recoded. */
  method Lincomb<T(!new), U(!new)>(ops: Ops<T>, points: seq<T>, scalars: seq<seq<u8>>, n: nat, vartime: bool,
                                   ghost m: Model<T, U>, ghost us: seq<U>)
      returns (q: T)
    requires Implements(ops, m) && |points| == |scalars| == |us| > 0
    requires forall j :: 0 <= j < |us| ==> Is(m, points[j], us[j])
    requires forall j :: 0 <= j < |scalars| ==> n <= |scalars[j]|
    ensures Is(m, q, Combination(m.group, us, Values(scalars, n), |us|))
  {
    var tables := MakeTables(ops, points, m, us);
    var digits := Recode(scalars, n);
    assert forall j :: 0 <= j < |us| ==> PreparedAt(m, tables[j], digits[j], us[j], n);
    q := LincombDigits(ops, tables, digits, n, vartime, m, us);
  }

  /** One point: scalar multiplication, in both variants. */
  method Mul<T(!new), U(!new)>(ops: Ops<T>, point: T, scalar: seq<u8>, n: nat, vartime: bool, ghost m: Model<T, U>,
                               ghost u: U)
      returns (q: T)
    requires Implements(ops, m) && Is(m, point, u) && n <= |scalar|
    ensures Is(m, q, Times(m.group, LowValue(scalar, n), u))
    ensures IsPadded(scalar, n) ==> Is(m, q, Times(m.group, FromBytes(scalar), u))
  {
    q := Lincomb(ops, [point], [scalar], n, vartime, m, [u]);
    ghost var k := LowValue(scalar, n);
    assert Values([scalar], n) == [k];
    SingleTerm(m.group, u, k);
    if IsPadded(scalar, n) {
      PaddedValue(scalar, n);
    }
  }

  lemma SingleTerm<U(!new)>(g: Group<U>, u: U, k: int)
    requires Lawful(g) && g.carrier(u)
    ensures Combination(g, [u], [k], 1) == Times(g, k, u)
  {
    assert Combination(g, [u], [k], 1) == g.add(Combination(g, [u], [k], 0), Times(g, k, u));
    TimesIn(g, k, u);
    Laws(g, Times(g, k, u), g.zero, g.zero);
  }
}
