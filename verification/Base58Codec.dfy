/** The Base58 loops as the source runs them: repeated division, leading zeros, and a reversal in place. */
module Base58Codec {
  import opened Wrappers
  import opened Bytes
  import opened Positional
  import opened Base58

  function Backwards(s: string): (r: string)
    ensures |r| == |s| && forall i :: 0 <= i < |s| ==> r[i] == s[|s| - 1 - i]
  {
    seq(|s|, i requires 0 <= i < |s| => s[|s| - 1 - i])
  }

  method Turn(a: array<char>)
    modifies a
    ensures a[..] == Backwards(old(a[..]))
  {
    var alen := a.Length;
    for i := 0 to alen / 2
      invariant forall j :: 0 <= j < alen ==>
                  a[j] == if j < i || j >= alen - i then old(a[alen - 1 - j]) else old(a[j])
    {
      a[i], a[alen - 1 - i] := a[alen - 1 - i], a[i];
    }
  }

  /** A buffer, turned around. */
  method Turned(answer: string) returns (r: string)
    ensures r == Backwards(answer)
  {
    var a := new char[|answer|](i requires 0 <= i < |answer| => answer[i]);
    assert a[..] == answer;
    Turn(a);
    r := a[..];
  }

  lemma TextSnoc(ds: seq<nat>, d: nat)
    requires Digits(ds, 58) && d < 58
    ensures TextOf(ds + [d]) == TextOf(ds) + [Letter(d)]
  {
  }

  lemma Backed(answer: string, c: char, rest: string)
    ensures rest + [c] + Backwards(answer) == rest + Backwards(answer + [c])
  {
  }

  /** Appends the digits of a number, the least significant first. */
  method AppendDigits(n: nat) returns (answer: string)
    ensures Digits(Rep(n, 58), 58) && Backwards(answer) == TextOf(Rep(n, 58))
  {
    hide Backwards, Rep;
    answer := "";
    var x := n;
    RepNum(n, 58);
    assert Backwards("") == "";
    while x > 0
      invariant Digits(Rep(x, 58), 58) && TextOf(Rep(x, 58)) + Backwards(answer) == TextOf(Rep(n, 58))
    {
      DivLess(x, 58);
      var rest, d := x / 58, x % 58;
      RepNum(rest, 58);
      RepStep(x);
      TextSnoc(Rep(rest, 58), d);
      Backed(answer, Letter(d), TextOf(Rep(rest, 58)));
      answer := answer + [Letter(d)];
      x := rest;
    }
    RepZero();
    assert TextOf([]) + Backwards(answer) == Backwards(answer);
  }

  lemma RepStep(x: nat)
    requires x > 0
    ensures Rep(x, 58) == Rep(x / 58, 58) + [x % 58]
  {
  }

  lemma RepZero()
    ensures Rep(0, 58) == []
  {
  }

  lemma OnesInFront(k: nat, ds: seq<nat>, answer: string)
    requires Digits(ds, 58) && Backwards(answer) == TextOf(Zeros(k) + ds)
    ensures Backwards(answer + ['1']) == TextOf(Zeros(k + 1) + ds)
  {
    assert Zeros(k + 1) + ds == [0] + (Zeros(k) + ds);
    assert Backwards(answer + ['1']) == ['1'] + Backwards(answer);
  }

  lemma LeadStep(ds: seq<nat>, i: nat)
    requires i <= Lead(ds)
    ensures Lead(ds) == i <==> i == |ds| || ds[i] != 0
  {
    LeadZeros(ds);
  }

  method EncodeBytes(b: string) returns (r: string)
    requires IsBytes(b)
    ensures r == Encode(b)
  {
    hide Backwards, Num, Rep, TextOf;
    var ds := ByteDigits(b);
    ghost var rep := Rep(Num(ds, 256), 58);
    var answer := AppendDigits(Num(ds, 256));
    assert Zeros(0) + rep == rep;
    var i := 0;
    while i < |b| && b[i] as int == 0
      invariant i <= Lead(ds) && i <= |b|
      invariant Backwards(answer) == TextOf(Zeros(i) + rep)
    {
      LeadStep(ds, i);
      OnesInFront(i, rep, answer);
      answer := answer + ['1'];
      i := i + 1;
    }
    LeadStep(ds, i);
    r := Turned(answer);
  }

  method EncodeKeyBytes(data: string) returns (r: string)
    requires IsBytes(data)
    ensures r == EncodeKey(data)
  {
    hide Backwards, Num, Rep, TextOf, Width, ByteDigits;
    var n := Num(ByteDigits(data), 256);
    ghost var rep := Rep(n, 58);
    var answer := AppendDigits(n);
    assert Zeros(0) + rep == rep;
    BackwardsLength(answer);
    ghost var k := 0;
    while |answer| < Width(|data|)
      invariant |answer| == |rep| + k && (k > 0 ==> |answer| <= Width(|data|))
      invariant Backwards(answer) == TextOf(Zeros(k) + rep)
    {
      OnesInFront(k, rep, answer);
      answer := answer + ['1'];
      k := k + 1;
    }
    r := Turned(answer);
  }

  lemma BackwardsLength(s: string)
    ensures |Backwards(s)| == |s|
  {
  }

  lemma Distribute(d: nat, p: nat, n: nat, b: nat)
    ensures (d * p + n) * b == d * (p * b) + n * b
  {
    assert (d * p + n) * b == d * p * b + n * b;
  }

  lemma {:induction false} NumFront(d: nat, ds: seq<nat>, b: Base)
    ensures Num([d] + ds, b) == d * Pow(b, |ds|) + Num(ds, b)
    decreases |ds|
  {
    var all := [d] + ds;
    if ds == [] {
      assert all == [d] && all[..0] == [] && Num([], b) == 0;
      assert Num(all, b) == 0 * b + d;
    } else {
      var front, r := ds[..|ds| - 1], ds[|ds| - 1];
      assert all[..|all| - 1] == [d] + front;
      NumFront(d, front, b);
      Distribute(d, Pow(b, |front|), Num(front, b), b);
    }
  }

  lemma NoDigits()
    ensures DigitsOf("") == [] && Num([], 58) == 0 && Pow(58, 0) == 1
  {
  }

  lemma DigitInFront(s: string, i: nat, d: nat)
    requires 0 < i <= |s| && ValidText(s[i..]) && Index(s[i - 1]) == Some(d)
    ensures ValidText(s[i - 1..])
    ensures Num(DigitsOf(s[i - 1..]), 58) == d * Pow(58, |s| - i) + Num(DigitsOf(s[i..]), 58)
    ensures Pow(58, |s| - (i - 1)) == Pow(58, |s| - i) * 58
  {
    hide Num;
    assert s[i - 1..] == [s[i - 1]] + s[i..];
    assert DigitsOf(s[i - 1..]) == [d] + DigitsOf(s[i..]);
    NumFront(d, DigitsOf(s[i..]), 58);
  }

  /** The value of a text, from its last character to its first; nothing if a character is not in the alphabet. */
  method Accumulate(s: string) returns (n: Option<nat>)
    ensures n.Some? <==> ValidText(s)
    ensures n.Some? ==> n.value == Num(DigitsOf(s), 58)
  {
    hide Num, Pow, DigitsOf, Index;
    var answer: nat, j: nat := 0, 1;
    NoDigits();
    var i := |s|;
    while i > 0
      invariant 0 <= i <= |s| && ValidText(s[i..])
      invariant answer == Num(DigitsOf(s[i..]), 58) && j == Pow(58, |s| - i)
    {
      var tmp := Index(s[i - 1]);
      if tmp.None? {
        return None;
      }
      DigitInFront(s, i, tmp.value);
      answer := answer + j * tmp.value;
      j := j * 58;
      i := i - 1;
    }
    assert s[0..] == s;
    return Some(answer);
  }

  lemma BytesInFront(k: nat, ds: seq<nat>)
    requires Digits(ds, 256)
    ensures BytesOf(Zeros(k) + ds) == BytesOf(Zeros(k)) + BytesOf(ds)
  {
  }

  method DecodeText(s: string) returns (r: string)
    ensures r == Decode(s)
  {
    var answer := Accumulate(s);
    if answer.None? {
      return "";
    }
    ghost var ds := DigitsOf(s);
    RepNum(answer.value, 256);
    var tmpval := BytesOf(Rep(answer.value, 256));
    var numZeros := 0;
    while numZeros < |s| && s[numZeros] == '1'
      invariant numZeros <= |s| && numZeros <= Lead(ds)
    {
      LetterIndex(0, s[numZeros]);
      LeadStep(ds, numZeros);
      numZeros := numZeros + 1;
    }
    LeadStep(ds, numZeros);
    if numZeros < |s| {
      LetterIndex(0, s[numZeros]);
    }
    BytesInFront(numZeros, Rep(answer.value, 256));
    return BytesOf(Zeros(numZeros)) + tmpval;
  }

  method DecodeKeyText(s: string) returns (r: Option<string>)
    ensures r == DecodeKey(s)
  {
    var answer := Accumulate(s);
    if answer.None? {
      return Some("");
    }
    RepNum(answer.value, 256);
    var tmpval := BytesOf(Rep(answer.value, 256));
    var numZeros := 32 - |tmpval|;
    if numZeros < 0 {
      return None;
    }
    BytesInFront(numZeros, Rep(answer.value, 256));
    return Some(BytesOf(Zeros(numZeros)) + tmpval);
  }
}
