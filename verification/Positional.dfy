/** Numbers as digits in a base, most significant first, and changes of base that keep leading zeros. */
module Positional {
  type Base = b: nat | b >= 2 witness 2

  function Num(ds: seq<nat>, b: Base): nat {
    if ds == [] then 0 else Num(ds[..|ds| - 1], b) * b + ds[|ds| - 1]
  }

  /** The shortest digits of a number; zero has none. */
  function Rep(n: nat, b: Base): (ds: seq<nat>)
    ensures n > 0 ==> ds != []
  {
    if n == 0 then [] else DivLess(n, b); Rep(n / b, b) + [n % b]
  }

  lemma DivLess(n: nat, b: Base)
    requires n > 0
    ensures 0 <= n / b < n && n == n / b * b + n % b
  {
  }

  lemma {:induction false} AtLeastBase(d: nat, b: Base)
    requires d >= 1
    ensures d * b >= b
  {
    if d > 1 {
      AtLeastBase(d - 1, b);
      assert d * b == (d - 1) * b + b;
    }
  }

  /** The next multiple of the base is at least the base further on. */
  lemma Step(x: nat, y: nat, b: Base)
    ensures x < y ==> x * b + b <= y * b
    ensures x <= y ==> x * b <= y * b
  {
    if x < y {
      var d := y - x;
      AtLeastBase(d, b);
      assert (x + d) * b == x * b + d * b;
    }
  }

  lemma DivMod(q: nat, r: nat, b: Base)
    requires r < b
    ensures (q * b + r) / b == q && (q * b + r) % b == r
  {
    var n := q * b + r;
    var q', r' := n / b, n % b;
    assert n == q' * b + r';
    Step(q, q', b);
    Step(q', q, b);
  }

  predicate Digits(ds: seq<nat>, b: Base) {
    forall i :: 0 <= i < |ds| ==> ds[i] < b
  }

  function Zeros(k: nat): (ds: seq<nat>)
    ensures |ds| == k && forall i :: 0 <= i < k ==> ds[i] == 0
  {
    if k == 0 then [] else [0] + Zeros(k - 1)
  }

  /** How many zeros a number begins with. */
  function Lead(ds: seq<nat>): (k: nat)
    ensures k <= |ds|
  {
    if ds == [] || ds[0] != 0 then 0 else 1 + Lead(ds[1..])
  }

  predicate Minimal(ds: seq<nat>) {
    ds == [] || ds[0] != 0
  }

  lemma {:induction false} RepNum(n: nat, b: Base)
    ensures Num(Rep(n, b), b) == n && Digits(Rep(n, b), b) && Minimal(Rep(n, b))
    decreases n
  {
    if n > 0 {
      DivLess(n, b);
      RepNum(n / b, b);
      assert Rep(n, b)[..|Rep(n, b)| - 1] == Rep(n / b, b);
      if n / b == 0 {
        assert n == n % b;
      }
    }
  }

  lemma {:induction false} NumRep(ds: seq<nat>, b: Base)
    requires Digits(ds, b) && Minimal(ds)
    ensures Rep(Num(ds, b), b) == ds && (ds != [] ==> Num(ds, b) > 0)
    decreases |ds|
  {
    if ds != [] {
      var front, r := ds[..|ds| - 1], ds[|ds| - 1];
      NumRep(front, b);
      DivMod(Num(front, b), r, b);
      if front == [] {
        assert ds == [r];
      } else {
        assert Num(front, b) * b >= 1;
      }
      assert ds == front + [r];
    }
  }

  lemma {:induction false} NumZeros(k: nat, ds: seq<nat>, b: Base)
    ensures Num(Zeros(k) + ds, b) == Num(ds, b)
    decreases |ds|, k
  {
    var all := Zeros(k) + ds;
    if ds != [] {
      assert all[..|all| - 1] == Zeros(k) + ds[..|ds| - 1];
      NumZeros(k, ds[..|ds| - 1], b);
    } else if k > 0 {
      assert all[..|all| - 1] == Zeros(k - 1) + [];
      NumZeros(k - 1, [], b);
    }
  }

  lemma {:induction false} LeadZeros(ds: seq<nat>)
    ensures ds == Zeros(Lead(ds)) + ds[Lead(ds)..] && Minimal(ds[Lead(ds)..])
  {
    if ds != [] && ds[0] == 0 {
      var k := Lead(ds[1..]);
      LeadZeros(ds[1..]);
      assert ds[1..][k..] == ds[k + 1..];
      assert ds == [0] + ds[1..];
      assert [0] + (Zeros(k) + ds[k + 1..]) == Zeros(k + 1) + ds[k + 1..];
    } else {
      assert Zeros(0) + ds == ds;
    }
  }

  lemma {:induction false} LeadOf(k: nat, ds: seq<nat>)
    requires Minimal(ds)
    ensures Lead(Zeros(k) + ds) == k
  {
    if k > 0 {
      assert (Zeros(k) + ds)[1..] == Zeros(k - 1) + ds;
      LeadOf(k - 1, ds);
    } else {
      assert Zeros(0) + ds == ds;
    }
  }

  /** The digits of a number are its shortest digits behind its leading zeros. */
  lemma Stripped(ds: seq<nat>, b: Base)
    requires Digits(ds, b)
    ensures ds == Zeros(Lead(ds)) + Rep(Num(ds, b), b)
  {
    LeadZeros(ds);
    var tail := ds[Lead(ds)..];
    NumZeros(Lead(ds), tail, b);
    NumRep(tail, b);
  }

  /** Digits of another base with as many leading zeros. */
  function Convert(ds: seq<nat>, b: Base, c: Base): seq<nat> {
    Zeros(Lead(ds)) + Rep(Num(ds, b), c)
  }

  /** Changing the base and back is the identity. */
  lemma ConvertBack(ds: seq<nat>, b: Base, c: Base)
    requires Digits(ds, b)
    ensures Convert(Convert(ds, b, c), c, b) == ds && Digits(Convert(ds, b, c), c)
  {
    var n := Num(ds, b);
    RepNum(n, c);
    LeadOf(Lead(ds), Rep(n, c));
    NumZeros(Lead(ds), Rep(n, c), c);
    Stripped(ds, b);
  }

  // ------------------------------------------------------------------- lengths

  function Pow(b: Base, k: nat): (p: nat)
    ensures p >= 1
  {
    if k == 0 then 1 else Pow(b, k - 1) * b
  }

  lemma {:induction false} NumBelow(ds: seq<nat>, b: Base)
    requires Digits(ds, b)
    ensures Num(ds, b) < Pow(b, |ds|)
    decreases |ds|
  {
    if ds != [] {
      var front := ds[..|ds| - 1];
      NumBelow(front, b);
      Step(Num(front, b), Pow(b, |front|), b);
    }
  }

  /** A number fits `k` digits if and only if it is below that power of the base. */
  lemma {:induction false} RepLength(n: nat, b: Base, k: nat)
    ensures |Rep(n, b)| <= k <==> n < Pow(b, k)
    decreases k
  {
    if n > 0 && k > 0 {
      DivLess(n, b);
      RepLength(n / b, b, k - 1);
      BelowMultiple(n, n / b, n % b, Pow(b, k - 1), b);
    }
  }

  lemma BelowMultiple(n: nat, q: nat, r: nat, p: nat, b: Base)
    requires n == q * b + r && r < b
    ensures q < p <==> n < p * b
  {
    Step(q, p, b);
    Step(p, q, b);
  }

  /** Digits padded to a length are the only digits of that length. */
  lemma Padded(ds: seq<nat>, b: Base)
    requires Digits(ds, b)
    ensures |Rep(Num(ds, b), b)| <= |ds| && ds == Zeros(|ds| - |Rep(Num(ds, b), b)|) + Rep(Num(ds, b), b)
  {
    Stripped(ds, b);
  }

  lemma {:induction false} PowSum(b: Base, i: nat, j: nat)
    ensures Pow(b, i + j) == Pow(b, i) * Pow(b, j)
    decreases j
  {
    if j > 0 {
      PowSum(b, i, j - 1);
      PowStep(b, j - 1);
      PowStep(b, i + j - 1);
      hide Pow;
      Associate(Pow(b, i), Pow(b, j - 1), b);
    }
  }

  lemma PowStep(b: Base, k: nat)
    ensures Pow(b, k + 1) == Pow(b, k) * b
  {
  }

  lemma Associate(x: nat, y: nat, z: nat)
    ensures x * (y * z) == x * y * z
  {
  }
}
