/** Fixed-width integers as bytes, least or most significant byte first. A byte is a char below 256. */
module Bytes {
  predicate IsByte(c: char) {
    c as int < 256
  }

  predicate IsBytes(s: string) {
    forall i :: 0 <= i < |s| ==> IsByte(s[i])
  }

  function Pow256(w: nat): (p: nat)
    ensures p > 0
  {
    if w == 0 then 1 else 256 * Pow256(w - 1)
  }

  function LE(n: nat, w: nat): (s: string)
    ensures |s| == w && IsBytes(s)
  {
    if w == 0 then "" else [(n % 256) as char] + LE(n / 256, w - 1)
  }

  function FromLE(s: string): nat {
    if s == "" then 0 else s[0] as int + 256 * FromLE(s[1..])
  }

  function BE(n: nat, w: nat): (s: string)
    ensures |s| == w && IsBytes(s)
  {
    if w == 0 then "" else BE(n / 256, w - 1) + [(n % 256) as char]
  }

  function FromBE(s: string): nat {
    if s == "" then 0 else 256 * FromBE(s[..|s| - 1]) + s[|s| - 1] as int
  }

  lemma {:induction false} LERoundTrip(n: nat, w: nat)
    requires n < Pow256(w)
    ensures FromLE(LE(n, w)) == n
  {
    if w > 0 {
      LERoundTrip(n / 256, w - 1);
      assert LE(n, w)[1..] == LE(n / 256, w - 1);
    }
  }

  lemma {:induction false} LERange(s: string)
    requires IsBytes(s)
    ensures FromLE(s) < Pow256(|s|)
  {
    if s != "" {
      LERange(s[1..]);
    }
  }

  lemma {:induction false} BERoundTrip(n: nat, w: nat)
    requires n < Pow256(w)
    ensures FromBE(BE(n, w)) == n
  {
    if w > 0 {
      BERoundTrip(n / 256, w - 1);
      assert BE(n, w)[..w - 1] == BE(n / 256, w - 1);
    }
  }

  lemma Pow256Of8()
    ensures Pow256(4) == 0x1_0000_0000 && Pow256(8) == 0x1_0000_0000_0000_0000
  {
    assert Pow256(2) == 65536;
    assert Pow256(3) == 256 * 65536;
    assert Pow256(4) == 256 * Pow256(3);
    assert Pow256(5) == 256 * Pow256(4);
    assert Pow256(6) == 256 * Pow256(5);
    assert Pow256(7) == 256 * Pow256(6);
  }

  lemma PowSucc(c: nat, p: nat, f: nat, g: nat)
    ensures c + 256 * (f + p * g) == c + 256 * f + (256 * p) * g
  {
  }

  /** The first bytes count least. */
  lemma {:induction false} LEWeights(s: string, t: string)
    ensures FromLE(s + t) == FromLE(s) + Pow256(|s|) * FromLE(t)
  {
    if s == "" {
      assert s + t == t;
    } else {
      assert (s + t)[1..] == s[1..] + t;
      LEWeights(s[1..], t);
      PowSucc(s[0] as int, Pow256(|s| - 1), FromLE(s[1..]), FromLE(t));
    }
  }

  /** Most significant first is least significant first, mirrored. */
  lemma {:induction false} BEMirrorsLE(n: nat, w: nat, i: nat)
    requires i < w
    ensures BE(n, w)[i] == LE(n, w)[w - 1 - i]
  {
    if i < w - 1 {
      BEMirrorsLE(n / 256, w - 1, i);
    }
  }
}
