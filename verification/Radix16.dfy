/** Signed radix-16 recoding of a scalar given by its big-endian bytes. */
module Radix16 {

  newtype i8 = x: int | -128 <= x <= 127

  newtype u8 = x: int | 0 <= x <= 255

  function FromBytes(bytes: seq<u8>): nat {
    if bytes == [] then 0 else 256 * FromBytes(bytes[..|bytes| - 1]) + bytes[|bytes| - 1] as int
  }

  /** digits[i] + 16*digits[i+1] + 256*digits[i+2] + ... */
  function Horner(digits: seq<i8>, i: nat): int
    requires i <= |digits|
    decreases |digits| - i
  {
    if i == |digits| then 0 else digits[i] as int + 16 * Horner(digits, i + 1)
  }

  lemma {:induction false} HornerFrom(d: seq<i8>, e: seq<i8>, i: nat)
    requires i <= |d| == |e| && forall k :: i <= k < |d| ==> d[k] == e[k]
    ensures Horner(d, i) == Horner(e, i)
    decreases |d| - i
  {
    if i < |d| {
      HornerFrom(d, e, i + 1);
    }
  }

  /** Moving a multiple of 16 from one digit to the next keeps the value. */
  lemma {:induction false} HornerCarry(d: seq<i8>, e: seq<i8>, i: nat, j: nat, carry: int)
    requires |d| == |e| && j <= i && i + 1 < |d|
    requires e[i] as int == d[i] as int - 16 * carry && e[i + 1] as int == d[i + 1] as int + carry
    requires forall k :: 0 <= k < |d| && k != i && k != i + 1 ==> d[k] == e[k]
    ensures Horner(d, j) == Horner(e, j)
    decreases i - j
  {
    if j == i {
      HornerFrom(d, e, i + 2);
      assert Horner(d, i) == d[i] as int + 16 * (d[i + 1] as int + 16 * Horner(d, i + 2));
      assert Horner(e, i) == e[i] as int + 16 * (e[i + 1] as int + 16 * Horner(e, i + 2));
    } else {
      HornerCarry(d, e, i, j + 1, carry);
    }
  }

  /** The value of the last n bytes. */
  function LowValue(bytes: seq<u8>, n: nat): nat
    requires n <= |bytes|
  {
    FromBytes(bytes[|bytes| - n..])
  }

  /** No byte before the last n is set. */
  predicate IsPadded(bytes: seq<u8>, n: nat) {
    n <= |bytes| && forall i :: 0 <= i < |bytes| - n ==> bytes[i] == 0
  }

  /** The value of the last n bytes without the last i, that is, divided by 256^i. */
  function Upper(bytes: seq<u8>, n: nat, i: nat): nat
    requires i <= n <= |bytes|
  {
    FromBytes(bytes[|bytes| - n..|bytes| - i])
  }

  lemma UpperStep(bytes: seq<u8>, n: nat, i: nat)
    requires i < n <= |bytes|
    ensures Upper(bytes, n, i) == 256 * Upper(bytes, n, i + 1) + bytes[|bytes| - 1 - i] as int
  {
    var s := bytes[|bytes| - n..|bytes| - i];
    assert s[..|s| - 1] == bytes[|bytes| - n..|bytes| - i - 1];
  }

  ghost predicate AreNibbles(bytes: seq<u8>, digits: seq<i8>, i: nat)
    requires i < |bytes| && 2 * i + 1 < |digits|
  {
    var b := bytes[|bytes| - 1 - i] as int;
    digits[2 * i] as int == b % 16 && digits[2 * i + 1] as int == b / 16
  }

  lemma {:induction false} NibblesValue(bytes: seq<u8>, n: nat, digits: seq<i8>, i: nat)
    requires i <= n <= |bytes| && |digits| == 2 * n + 1 && digits[2 * n] == 0
    requires forall k :: 0 <= k < n ==> AreNibbles(bytes, digits, k)
    ensures Horner(digits, 2 * i) == Upper(bytes, n, i)
    decreases n - i
  {
    if i == n {
      assert Horner(digits, 2 * n) == 0 + 16 * Horner(digits, 2 * n + 1);
    } else {
      NibblesValue(bytes, n, digits, i + 1);
      UpperStep(bytes, n, i);
      assert AreNibbles(bytes, digits, i);
      assert Horner(digits, 2 * i) == digits[2 * i] as int
             + 16 * (digits[2 * i + 1] as int + 16 * Horner(digits, 2 * i + 2));
    }
  }

  ghost predicate Centered(digits: seq<i8>, i: nat)
    requires i <= |digits|
  {
    forall k :: 0 <= k < i ==> -8 <= digits[k] <= 7
  }

  lemma NibblesStay(bytes: seq<u8>, was: seq<i8>, digits: seq<i8>, i: nat)
    requires i < |bytes| && |was| == |digits| && 2 * i + 1 < |digits|
    requires forall k :: 0 <= k < i ==> AreNibbles(bytes, was, k)
    requires digits[..2 * i] == was[..2 * i] && AreNibbles(bytes, digits, i)
    ensures forall k :: 0 <= k <= i ==> AreNibbles(bytes, digits, k)
  {
    forall k | 0 <= k < i ensures AreNibbles(bytes, digits, k) {
      assert AreNibbles(bytes, was, k);
      assert digits[..2 * i][2 * k] == was[..2 * i][2 * k] && digits[..2 * i][2 * k + 1] == was[..2 * i][2 * k + 1];
    }
  }

  lemma NibblesAreSmall(bytes: seq<u8>, n: nat, digits: seq<i8>)
    requires n <= |bytes| && 2 * n <= |digits|
    requires forall k :: 0 <= k < n ==> AreNibbles(bytes, digits, k)
    ensures forall k :: 0 <= k < 2 * n ==> 0 <= digits[k] <= 15
  {
    forall k | 0 <= k < 2 * n ensures 0 <= digits[k] <= 15 {
      assert AreNibbles(bytes, digits, k / 2);
      assert k == 2 * (k / 2) || k == 2 * (k / 2) + 1;
    }
  }

  /** n bytes give 2n + 1 digits whose alternating-size value is the scalar; every digit but the last is
      in [-8, 7] and the last is the carry. The i8 arithmetic does not overflow. */
  method Decompose(bytes: seq<u8>, n: nat) returns (digits: array<i8>)
    requires n <= |bytes|
    ensures fresh(digits) && digits.Length == 2 * n + 1
    ensures Horner(digits[..], 0) == LowValue(bytes, n)
    ensures Centered(digits[..], 2 * n) && 0 <= digits[2 * n] <= 1
  {
    digits := new i8[2 * n + 1](_ => 0);
    for i := 0 to n
      invariant digits[2 * n] == 0
      invariant forall k :: 0 <= k < i ==> AreNibbles(bytes, digits[..], k)
    {
      var b := bytes[|bytes| - 1 - i];
      ghost var was := digits[..];
      digits[2 * i] := (b % 16) as i8;
      digits[2 * i + 1] := (b / 16 % 16) as i8;
      NibblesStay(bytes, was, digits[..], i);
    }
    NibblesValue(bytes, n, digits[..], 0);
    assert bytes[|bytes| - n..|bytes| - 0] == bytes[|bytes| - n..];
    ghost var value := Horner(digits[..], 0);
    NibblesAreSmall(bytes, n, digits[..]);
    for i := 0 to 2 * n
      invariant Horner(digits[..], 0) == value
      invariant Centered(digits[..], i)
      invariant 0 <= digits[i] <= if i < 2 * n then 16 else 1
      invariant forall k :: i < k < 2 * n ==> 0 <= digits[k] <= 15
      invariant i < 2 * n ==> digits[2 * n] == 0
    {
      ghost var was := digits[..];
      var carry := (digits[i] + 8) / 16;
      digits[i] := digits[i] - 16 * carry;
      digits[i + 1] := digits[i + 1] + carry;
      HornerCarry(was, digits[..], i, 0, carry as int);
    }
  }

  /** Leading zero bytes beyond the scalar's own are ignored. */
  lemma {:induction false} PaddingIsIgnored(padding: seq<u8>, bytes: seq<u8>)
    requires forall i :: 0 <= i < |padding| ==> padding[i] == 0
    ensures FromBytes(padding + bytes) == FromBytes(bytes)
    decreases |padding| + |bytes|
  {
    if bytes != [] {
      PaddingIsIgnored(padding, bytes[..|bytes| - 1]);
      assert (padding + bytes)[..|padding + bytes| - 1] == padding + bytes[..|bytes| - 1];
    } else if padding != [] {
      PaddingIsIgnored(padding[..|padding| - 1], []);
      assert padding + [] == padding && padding[..|padding| - 1] + [] == padding[..|padding| - 1];
    }
  }

  /** So a scalar padded with zeros keeps its value, whatever its representation's length. */
  lemma PaddedValue(bytes: seq<u8>, n: nat)
    requires IsPadded(bytes, n)
    ensures LowValue(bytes, n) == FromBytes(bytes)
  {
    var cut := |bytes| - n;
    PaddingIsIgnored(bytes[..cut], bytes[cut..]);
    assert bytes[..cut] + bytes[cut..] == bytes;
  }
}
