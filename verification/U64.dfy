/** Go's uint64 arithmetic, with its wrap-around written out. */
module U64 {
  const TWO64: int := 0x1_0000_0000_0000_0000
  const MAXUINT64: int := TWO64 - 1

  type u64 = x: int | 0 <= x < TWO64

  /** `a + b` on uint64 operands. */
  function Add(a: u64, b: u64): u64 {
    if a + b < TWO64 then a + b else a + b - TWO64
  }

  /** `a - b` on uint64 operands. */
  function Sub(a: u64, b: u64): u64 {
    if b <= a then a - b else a - b + TWO64
  }

  /** An integer less than 2^64 out of range, brought back into range. */
  function Wrap(x: int): u64
    requires -TWO64 < x < 2 * TWO64
  {
    if x < 0 then x + TWO64 else if x < TWO64 then x else x - TWO64
  }

  type int64 = x: int | -0x8000_0000_0000_0000 <= x < 0x8000_0000_0000_0000

  /** A uint64 converted to int64, and back. */
  function ToInt64(n: u64): int64 {
    if n < 0x8000_0000_0000_0000 then n else n - TWO64
  }

  function ToUint64(i: int64): u64 {
    if i < 0 then i + TWO64 else i
  }

  /** The sum and the difference of two int64 values, wrapped into int64. */
  function AddInt64(a: int64, b: int64): int64 {
    WrapInt64(a + b)
  }

  function SubInt64(a: int64, b: int64): int64 {
    WrapInt64(a - b)
  }

  function WrapInt64(d: int): int64
    requires -TWO64 <= d < TWO64
  {
    if d >= 0x8000_0000_0000_0000 then d - TWO64 else if d < -0x8000_0000_0000_0000 then d + TWO64 else d
  }

  /** Both are arithmetic modulo 2^64, so each undoes the other. */
  lemma AddSubWrap(a: u64, b: u64)
    ensures Add(a, b) == (a + b) % TWO64
    ensures Sub(a, b) == (a - b) % TWO64
    ensures Sub(Add(a, b), b) == a
    ensures Add(Sub(a, b), b) == a
  {
  }

  /** Wrapped arithmetic on a residue follows the unbounded arithmetic. */
  lemma ResidueStep(s: int, x: u64, n: u64)
    requires x == s % TWO64
    ensures Add(x, n) == (s + n) % TWO64
    ensures Sub(x, n) == (s - n) % TWO64
  {
    var q := s / TWO64;
    assert s == q * TWO64 + x;
    AddSubWrap(x, n);
  }

  function SumOf(b: seq<u64>): (s: nat) {
    if b == [] then 0 else b[0] + SumOf(b[1..])
  }

  lemma {:induction false} SumOfSnoc(b: seq<u64>, i: nat)
    requires i < |b|
    ensures SumOf(b[..i + 1]) == SumOf(b[..i]) + b[i]
    ensures SumOf(b[..i]) <= SumOf(b)
    ensures SumOf(b[..i + 1]) <= SumOf(b)
    decreases |b|
  {
    if i == 0 {
      assert b[..1] == [b[0]];
      assert [b[0]][1..] == [];
    } else {
      assert b[..i + 1][1..] == b[1..][..i];
      assert b[..i][1..] == b[1..][..i - 1];
      SumOfSnoc(b[1..], i - 1);
    }
  }

  /** Whether adding all of `b` to `a` leaves the uint64 range, found one addition at a time. */
  method Uint64AddOverflow(a: u64, b: seq<u64>) returns (r: bool)
    ensures r <==> a + SumOf(b) >= TWO64
  {
    var acc := a;
    for i := 0 to |b|
      invariant acc == a + SumOf(b[..i])
    {
      SumOfSnoc(b, i);
      if MAXUINT64 - acc < b[i] {
        return true;
      }
      acc := Add(acc, b[i]);
    }
    assert b[..|b|] == b;
    return false;
  }

  /** Whether subtracting all of `b` from `a` goes below zero, found one subtraction at a time. */
  method Uint64SubOverflow(a: u64, b: seq<u64>) returns (r: bool)
    ensures r <==> a < SumOf(b)
  {
    var acc := a;
    for i := 0 to |b|
      invariant acc == a - SumOf(b[..i])
    {
      SumOfSnoc(b, i);
      if acc < b[i] {
        return true;
      }
      acc := Sub(acc, b[i]);
    }
    assert b[..|b|] == b;
    return false;
  }
}
