/** Fixed-base multiplication from tables spaced by eight doublings, that is, by two radix-16 steps. */
module BasepointTable {
  import opened AbelianGroup
  import opened Radix16
  import opened Sums
  import LookupTable
  import LinearCombination

  /** Table i holds the multiples of 256^i times the generator, which stands for u. */
  ghost predicate TableAt<T, U>(m: Model<T, U>, table: array<T>, u: U, i: nat)
    reads table
  {
    LookupTable.IsTable(m, table[..], Times(m.group, Pow(256, i), u))
  }

  ghost predicate AreTables<T, U>(m: Model<T, U>, tables: seq<array<T>>, u: U)
    reads tables
  {
    m.group.carrier(u) && forall i :: 0 <= i < |tables| ==> TableAt(m, tables[i], u, i)
  }

  /** Eight doublings lead from one table's base to the next one's. */
  lemma NextBase<T(!new), U(!new)>(ops: Ops<T>, m: Model<T, U>, base: T, u: U, i: nat)
    requires Implements(ops, m) && m.group.carrier(u) && Is(m, base, Times(m.group, Pow(256, i), u))
    ensures Is(m, Quadrupled(ops, Quadrupled(ops, base)), Times(m.group, Pow(256, i + 1), u))
  {
    var g := m.group;
    var x := Times(g, Pow(256, i), u);
    QuadrupledIs(ops, m, base, x);
    QuadrupledIs(ops, m, Quadrupled(ops, base), Times(g, 16, x));
    TimesTimes(g, 16, 16, x);
    TimesTimes(g, 256, Pow(256, i), u);
    assert 256 * Pow(256, i) == Pow(256, i + 1);
  }

  method InitTable<T(!new), U(!new)>(ops: Ops<T>, generator: T, windows: nat, ghost m: Model<T, U>, ghost u: U)
      returns (tables: seq<array<T>>)
    requires Implements(ops, m) && Is(m, generator, u)
    ensures |tables| == windows && AreTables(m, tables, u)
  {
    tables := [];
    var base := generator;
    TimesOne(m.group, u);
    for i := 0 to windows
      invariant |tables| == i && Is(m, base, Times(m.group, Pow(256, i), u))
      invariant AreTables(m, tables, u)
    {
      var table := LookupTable.New(ops, base, m, Times(m.group, Pow(256, i), u));
      tables := tables + [table];
      NextBase(ops, m, base, u, i);
      var doubled := base;
      doubled := ops.double(ops.double(ops.double(ops.double(doubled))));
      doubled := ops.double(ops.double(ops.double(ops.double(doubled))));
      base := doubled;
    }
  }

  function Term(digit: i8, i: nat): int {
    digit as int * Pow(256, i)
  }

  /** digits[2i] * 256^i + digits[2i+2] * 256^(i+1) + ..., up to the last digit */
  function Even(digits: seq<i8>, n: nat, i: nat): int
    requires |digits| == 2 * n + 1 && i <= n + 1
    decreases n + 1 - i
  {
    if i == n + 1 then 0 else Even(digits, n, i + 1) + Term(digits[2 * i], i)
  }

  /** digits[2i+1] * 256^i + digits[2i+3] * 256^(i+1) + ... */
  function Odd(digits: seq<i8>, n: nat, i: nat): int
    requires |digits| == 2 * n + 1 && i <= n
    decreases n - i
  {
    if i == n then 0 else Odd(digits, n, i + 1) + Term(digits[2 * i + 1], i)
  }

  /** The two accumulators together hold the scalar. */
  lemma {:induction false} EvenOddIsHorner(digits: seq<i8>, n: nat, i: nat)
    requires |digits| == 2 * n + 1 && i <= n
    ensures Even(digits, n, i) + 16 * Odd(digits, n, i) == Horner(digits, 2 * i) * Pow(256, i)
    decreases n - i
  {
    if i == n {
      assert Horner(digits, 2 * n) == digits[2 * n] as int + 16 * Horner(digits, 2 * n + 1);
      assert Even(digits, n, n + 1) == 0;
    } else {
      EvenOddIsHorner(digits, n, i + 1);
      assert Horner(digits, 2 * i) == digits[2 * i] as int
             + 16 * (digits[2 * i + 1] as int + 16 * Horner(digits, 2 * i + 2));
      Regroup(digits[2 * i] as int, digits[2 * i + 1] as int, Horner(digits, 2 * i + 2), Pow(256, i));
    }
  }

  lemma Regroup(e: int, o: int, h: int, q: int)
    ensures (e + 16 * (o + 16 * h)) * q == e * q + 16 * (o * q) + h * (q * 256)
  {
  }

  method Selected<T(!new), U(!new)>(ops: Ops<T>, tables: seq<array<T>>, i: nat, x: i8, vartime: bool,
                                    ghost m: Model<T, U>, ghost u: U)
      returns (t: T)
    requires Implements(ops, m) && AreTables(m, tables, u) && i < |tables| && -8 <= x <= 8
    ensures Is(m, t, Times(m.group, Term(x, i), u))
  {
    assert TableAt(m, tables[i], u, i);
    ghost var base := Times(m.group, Pow(256, i), u);
    if vartime {
      t := LookupTable.SelectVartime(ops, tables[i], x, m, base);
    } else {
      t := LookupTable.Select(ops, tables[i], x, m, base);
    }
    TimesTimes(m.group, x as int, Pow(256, i), u);
  }

  lemma NextWindow<T(!new), U(!new)>(ops: Ops<T>, m: Model<T, U>, acc: T, t: T, sum: int, term: int, u: U)
    requires Implements(ops, m) && m.group.carrier(u)
    requires Is(m, acc, Times(m.group, sum, u)) && Is(m, t, Times(m.group, term, u))
    ensures Is(m, ops.add(acc, t), Times(m.group, sum + term, u))
  {
    Implemented(ops, m, acc, Times(m.group, sum, u), t, Times(m.group, term, u));
    TimesAdd(m.group, sum, term, u);
  }

  method AddDigit<T(!new), U(!new)>(ops: Ops<T>, tables: seq<array<T>>, i: nat, x: i8, acc: T, vartime: bool,
                                    ghost m: Model<T, U>, ghost u: U, ghost sum: int, ghost next: int)
      returns (r: T)
    requires Implements(ops, m) && AreTables(m, tables, u) && i < |tables| && -8 <= x <= 8
    requires Is(m, acc, Times(m.group, sum, u)) && next == sum + Term(x, i)
    ensures Is(m, r, Times(m.group, next, u))
  {
    var t := Selected(ops, tables, i, x, vartime, m, u);
    r := ops.add(acc, t);
    NextWindow(ops, m, acc, t, sum, Term(x, i), u);
  }

  /** One turn of the loop: window i's odd digit into acc2, its even digit into acc. */
  method AddWindow<T(!new), U(!new)>(ops: Ops<T>, tables: seq<array<T>>, digits: seq<i8>, n: nat, i: nat, acc: T,
                                     acc2: T, vartime: bool, ghost m: Model<T, U>, ghost u: U)
    returns (even: T, odd: T)
    requires Implements(ops, m) && AreTables(m, tables, u) && |tables| == n + 1
    requires |digits| == 2 * n + 1 && Centered(digits, 2 * n) && i < n
    requires Is(m, acc, Times(m.group, Even(digits, n, i + 1), u))
    requires Is(m, acc2, Times(m.group, Odd(digits, n, i + 1), u))
    ensures Is(m, even, Times(m.group, Even(digits, n, i), u)) && Is(m, odd, Times(m.group, Odd(digits, n, i), u))
  {
    odd := AddDigit(ops, tables, i, digits[i * 2 + 1], acc2, vartime, m, u, Odd(digits, n, i + 1), Odd(digits, n, i));
    even := AddDigit(ops, tables, i, digits[i * 2], acc, vartime, m, u, Even(digits, n, i + 1), Even(digits, n, i));
  }

  /** The price of halving the tables: four doublings of the odd accumulator. */
  lemma Joined<T(!new), U(!new)>(ops: Ops<T>, m: Model<T, U>, acc: T, acc2: T, digits: seq<i8>, n: nat, u: U)
    requires Implements(ops, m) && m.group.carrier(u) && |digits| == 2 * n + 1
    requires Is(m, acc, Times(m.group, Even(digits, n, 0), u)) && Is(m, acc2, Times(m.group, Odd(digits, n, 0), u))
    ensures Is(m, ops.add(acc, Quadrupled(ops, acc2)), Times(m.group, Horner(digits, 0), u))
  {
    var even, odd := Even(digits, n, 0), Odd(digits, n, 0);
    QuadrupledIs(ops, m, acc2, Times(m.group, odd, u));
    TimesTimes(m.group, 16, odd, u);
    NextWindow(ops, m, acc, Quadrupled(ops, acc2), even, 16 * odd, u);
    EvenOddIsHorner(digits, n, 0);
    assert even + 16 * odd == Horner(digits, 0);
  }

  method Accumulate<T(!new), U(!new)>(ops: Ops<T>, tables: seq<array<T>>, digits: seq<i8>, n: nat, vartime: bool,
                                      ghost m: Model<T, U>, ghost u: U)
      returns (r: T)
    requires Implements(ops, m) && AreTables(m, tables, u) && |tables| == n + 1
    requires |digits| == 2 * n + 1 && Centered(digits, 2 * n) && 0 <= digits[2 * n] <= 1
    ensures Is(m, r, Times(m.group, Horner(digits, 0), u))
  {
    var acc := Selected(ops, tables, n, digits[2 * n], vartime, m, u);
    assert Even(digits, n, n) == Even(digits, n, n + 1) + Term(digits[2 * n], n);
    var acc2 := ops.zero;
    var i := n;
    while i > 0
      invariant 0 <= i <= n
      invariant Is(m, acc, Times(m.group, Even(digits, n, i), u))
      invariant Is(m, acc2, Times(m.group, Odd(digits, n, i), u))
    {
      i := i - 1;
      acc, acc2 := AddWindow(ops, tables, digits, n, i, acc, acc2, vartime, m, u);
    }
    Joined(ops, m, acc, acc2, digits, n, u);
    acc2 := ops.double(ops.double(ops.double(ops.double(acc2))));
    r := ops.add(acc, acc2);
  }

  /** Exactly scalar times the generator; bytes beyond the tables' n are not read. */
  method Mul<T(!new), U(!new)>(ops: Ops<T>, tables: seq<array<T>>, scalar: seq<u8>, n: nat, vartime: bool,
                               ghost m: Model<T, U>, ghost u: U)
      returns (r: T)
    requires Implements(ops, m) && AreTables(m, tables, u) && |tables| == n + 1 && n <= |scalar|
    ensures Is(m, r, Times(m.group, LowValue(scalar, n), u))
    ensures IsPadded(scalar, n) ==> Is(m, r, Times(m.group, FromBytes(scalar), u))
  {
    var digits := Decompose(scalar, n);
    assert forall i :: 0 <= i < |tables| ==> TableAt(m, tables[i], u, i);
    r := Accumulate(ops, tables, digits[..], n, vartime, m, u);
    if IsPadded(scalar, n) {
      PaddedValue(scalar, n);
    }
  }

  /** Fixed-base and variable-base multiplication of the generator stand for the same element. */
  method MulAgrees<T(!new), U(!new)>(ops: Ops<T>, generator: T, scalar: seq<u8>, n: nat, vartime: bool,
                                     ghost m: Model<T, U>, ghost u: U)
      returns (fixed: T, variable: T)
    requires Implements(ops, m) && Is(m, generator, u) && n <= |scalar|
    ensures Is(m, fixed, Times(m.group, LowValue(scalar, n), u))
    ensures Is(m, variable, Times(m.group, LowValue(scalar, n), u))
  {
    var tables := InitTable(ops, generator, n + 1, m, u);
    fixed := Mul(ops, tables, scalar, n, vartime, m, u);
    variable := LinearCombination.Mul(ops, generator, scalar, n, vartime, m, u);
  }
}
