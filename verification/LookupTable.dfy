/** The eight-entry table p, 2p, ..., 8p and signed selection from it. */
module LookupTable {
  import opened AbelianGroup
  import opened Radix16

  const LUT_SIZE: nat := 8

  /** Entry j stands for (j + 1) * u. */
  ghost predicate IsEntry<T, U>(m: Model<T, U>, t: T, j: nat, u: U) {
    Is(m, t, Times(m.group, j + 1, u))
  }

  /** The table of a value that stands for u. */
  ghost predicate IsTable<T, U>(m: Model<T, U>, points: seq<T>, u: U) {
    m.group.carrier(u)
    && |points| == LUT_SIZE && forall j :: 0 <= j < LUT_SIZE ==> IsEntry(m, points[j], j, u)
  }

  method New<T(!new), U(!new)>(ops: Ops<T>, p: T, ghost m: Model<T, U>, ghost u: U) returns (points: array<T>)
    requires Implements(ops, m) && Is(m, p, u)
    ensures fresh(points) && IsTable(m, points[..], u)
  {
    points := new T[LUT_SIZE](_ => p);
    TimesOne(m.group, u);
    for j := 0 to LUT_SIZE - 1
      invariant forall k :: 0 <= k <= j ==> IsEntry(m, points[k], k, u)
    {
      NextEntry(ops, m, p, points[j], j, u);
      points[j + 1] := ops.add(p, points[j]);
    }
  }

  lemma NextEntry<T(!new), U(!new)>(ops: Ops<T>, m: Model<T, U>, p: T, t: T, j: nat, u: U)
    requires Implements(ops, m) && Is(m, p, u) && IsEntry(m, t, j, u)
    ensures IsEntry(m, ops.add(p, t), j + 1, u)
  {
    var x := Times(m.group, j + 1, u);
    Implemented(ops, m, p, u, t, x);
    Laws(m.group, u, x, u);
  }

  /** v xor mask in two's complement, for the masks 0 and -1 */
  function XorSign(v: int, mask: int): int {
    if mask == 0 then v else -v - 1
  }

  lemma Signed<T(!new), U(!new)>(ops: Ops<T>, m: Model<T, U>, t: T, k: int, u: U)
    requires Implements(ops, m) && m.group.carrier(u) && Is(m, t, Times(m.group, k, u))
    ensures Is(m, ops.neg(t), Times(m.group, -k, u))
  {
    Implemented(ops, m, t, Times(m.group, k, u), t, Times(m.group, k, u));
    TimesNeg(m.group, k, u);
  }

  /** x times the table's element for -8 <= x <= 8, scanning the whole table. */
  method Select<T(!new), U(!new)>(ops: Ops<T>, points: array<T>, x: i8, ghost m: Model<T, U>, ghost u: U)
      returns (t: T)
    requires Implements(ops, m) && IsTable(m, points[..], u) && -8 <= x <= 8
    ensures Is(m, t, Times(m.group, x as int, u))
  {
    var xmask := if x < 0 then -1 else 0;
    var xabs := XorSign(x as int + xmask, xmask);
    t := ops.zero;
    for j := 1 to LUT_SIZE + 1
      invariant Is(m, t, if 1 <= xabs < j then Times(m.group, xabs, u) else m.group.zero)
    {
      if xabs == j {
        t := points[j - 1];
        assert t == points[..][j - 1] && IsEntry(m, t, j - 1, u);
      }
    }
    assert Is(m, t, Times(m.group, xabs, u));
    if xmask == -1 {
      Signed(ops, m, t, xabs, u);
      t := ops.neg(t);
    }
  }

  method SelectVartime<T(!new), U(!new)>(ops: Ops<T>, points: array<T>, x: i8, ghost m: Model<T, U>, ghost u: U)
      returns (t: T)
    requires Implements(ops, m) && IsTable(m, points[..], u) && -8 <= x <= 8
    ensures Is(m, t, Times(m.group, x as int, u))
  {
    var xabs := if x < 0 then -(x as int) else x as int;
    if xabs == 0 {
      t := ops.zero;
    } else {
      t := points[xabs - 1];
      assert t == points[..][xabs - 1] && IsEntry(m, t, xabs - 1, u);
    }
    if x < 0 {
      Signed(ops, m, t, xabs, u);
      t := ops.neg(t);
    }
  }
}
