/** Base58 text for byte strings, with leading zeros kept or with a fixed width. */
module Base58 {
  import opened Wrappers
  import opened Bytes
  import opened Positional

  /** The alphabet: digits and letters without 0, I, O and l. */
  function Letter(d: nat): char
    requires d < 58
  {
    if d < 9 then ('1' as int + d) as char
    else if d < 17 then ('A' as int + d - 9) as char
    else if d < 22 then ('J' as int + d - 17) as char
    else if d < 33 then ('P' as int + d - 22) as char
    else if d < 44 then ('a' as int + d - 33) as char
    else ('m' as int + d - 44) as char
  }

  function Index(c: char): Option<nat> {
    if '1' <= c <= '9' then Some(c as int - '1' as int)
    else if 'A' <= c <= 'H' then Some(c as int - 'A' as int + 9)
    else if 'J' <= c <= 'N' then Some(c as int - 'J' as int + 17)
    else if 'P' <= c <= 'Z' then Some(c as int - 'P' as int + 22)
    else if 'a' <= c <= 'k' then Some(c as int - 'a' as int + 33)
    else if 'm' <= c <= 'z' then Some(c as int - 'm' as int + 44)
    else None
  }

  lemma LetterIndex(d: nat, c: char)
    ensures d < 58 ==> Index(Letter(d)) == Some(d)
    ensures Index(c).Some? ==> Index(c).value < 58 && Letter(Index(c).value) == c
    ensures Index('1') == Some(0)
  {
  }

  /** The alphabet is the digits and letters in the order of their codes, without 0, I, O and l. */
  lemma Alphabet(d: nat, e: nat, c: char)
    ensures d < e < 58 ==> Letter(d) < Letter(e)
    ensures (exists i: nat :: i < 58 && Letter(i) == c) <==>
            ('0' <= c <= '9' || 'A' <= c <= 'Z' || 'a' <= c <= 'z') && c !in "0IOl"
  {
    LetterIndex(0, c);
    if Index(c).Some? {
      assert Letter(Index(c).value) == c;
    }
  }

  predicate ValidText(s: string) {
    forall i :: 0 <= i < |s| ==> Index(s[i]).Some?
  }

  function DigitsOf(s: string): (ds: seq<nat>)
    requires ValidText(s)
    ensures |ds| == |s| && forall i :: 0 <= i < |s| ==> ds[i] == Index(s[i]).value
  {
    seq(|s|, i requires 0 <= i < |s| => Index(s[i]).value)
  }

  function TextOf(ds: seq<nat>): (s: string)
    requires Digits(ds, 58)
    ensures |s| == |ds| && forall i :: 0 <= i < |s| ==> s[i] == Letter(ds[i])
  {
    seq(|ds|, i requires 0 <= i < |ds| => Letter(ds[i]))
  }

  function ByteDigits(b: string): (ds: seq<nat>)
    ensures |ds| == |b| && forall i :: 0 <= i < |b| ==> ds[i] == b[i] as nat
  {
    seq(|b|, i requires 0 <= i < |b| => b[i] as nat)
  }

  function BytesOf(ds: seq<nat>): (b: string)
    requires Digits(ds, 256)
    ensures |b| == |ds| && IsBytes(b) && forall i :: 0 <= i < |b| ==> b[i] == ds[i] as char
  {
    seq(|ds|, i requires 0 <= i < |ds| => ds[i] as char)
  }

  lemma TextOfDigits(ds: seq<nat>)
    requires Digits(ds, 58)
    ensures ValidText(TextOf(ds)) && DigitsOf(TextOf(ds)) == ds
  {
    forall i | 0 <= i < |ds| ensures Index(Letter(ds[i])) == Some(ds[i]) {
      LetterIndex(ds[i], '1');
    }
  }

  lemma DigitsOfText(s: string)
    requires ValidText(s)
    ensures Digits(DigitsOf(s), 58) && TextOf(DigitsOf(s)) == s
  {
    forall i | 0 <= i < |s| ensures Index(s[i]).value < 58 && Letter(Index(s[i]).value) == s[i] {
      LetterIndex(0, s[i]);
    }
  }

  lemma BytesBack(b: string, ds: seq<nat>)
    ensures IsBytes(b) ==> Digits(ByteDigits(b), 256) && BytesOf(ByteDigits(b)) == b
    ensures Digits(ds, 256) ==> ByteDigits(BytesOf(ds)) == ds
  {
  }

  // ---------------------------------------------------------------- with zeros

  lemma ConvertDigits(ds: seq<nat>, b: Base, c: Base)
    ensures Digits(Convert(ds, b, c), c)
  {
    RepNum(Num(ds, b), c);
  }

  /** The text of a byte string: a `1` for each leading zero byte, then the number in base 58. */
  function Encode(b: string): string {
    ConvertDigits(ByteDigits(b), 256, 58);
    TextOf(Convert(ByteDigits(b), 256, 58))
  }

  /** The bytes of a text, none if it is no text over the alphabet. */
  function Decode(s: string): string {
    if !ValidText(s) then ""
    else
      ConvertDigits(DigitsOf(s), 58, 256);
      BytesOf(Convert(DigitsOf(s), 58, 256))
  }

  /** Every byte string comes back from its text. */
  lemma EncodeDecode(b: string)
    requires IsBytes(b)
    ensures Decode(Encode(b)) == b
  {
    var ds := ByteDigits(b);
    BytesBack(b, ds);
    ConvertBack(ds, 256, 58);
    TextOfDigits(Convert(ds, 256, 58));
  }

  /** A text comes back from its bytes if and only if it is over the alphabet. */
  lemma DecodeEncodeIff(s: string)
    ensures IsBytes(Decode(s))
    ensures Encode(Decode(s)) == s <==> ValidText(s)
  {
    if ValidText(s) {
      var ds := DigitsOf(s);
      DigitsOfText(s);
      ConvertBack(ds, 58, 256);
      BytesBack(Decode(s), Convert(ds, 58, 256));
    }
  }

  // ---------------------------------------------------------------- fixed width

  function Width(length: nat): nat {
    length * 136 / 100 + 1
  }

  /** The digits of a key's number, with zeros in front up to a width that depends on the key's length. */
  function KeyDigits(data: string): (ds: seq<nat>)
    ensures Digits(ds, 58)
  {
    var n := Num(ByteDigits(data), 256);
    RepNum(n, 58);
    var ds := Rep(n, 58);
    Zeros(if |ds| < Width(|data|) then Width(|data|) - |ds| else 0) + ds
  }

  function EncodeKey(data: string): string {
    TextOf(KeyDigits(data))
  }

  /** The 32 bytes of a text; none if it is no text over the alphabet, and a panic if its number needs more. */
  function DecodeKey(s: string): Option<string> {
    if !ValidText(s) then Some("")
    else
      var n := Num(DigitsOf(s), 58);
      RepNum(n, 256);
      var ds := Rep(n, 256);
      if |ds| > 32 then None else Some(BytesOf(Zeros(32 - |ds|) + ds))
  }

  /** Numbers of 32 bytes fit 44 digits. */
  lemma KeysFit()
    ensures Pow(256, 32) <= Pow(58, 44)
  {
    Pow256Of32();
    Pow58Of44();
    hide Pow;
  }

  lemma Square(b: Base, k: nat, p: nat)
    requires Pow(b, k) == p
    ensures Pow(b, 2 * k) == p * p
  {
    PowSum(b, k, k);
  }

  lemma Pow256Of32()
    ensures Pow(256, 32) == 115792089237316195423570985008687907853269984665640564039457584007913129639936
  {
    assert Pow(256, 1) == 256;
    hide Pow;
    Square(256, 1, 256);
    Square(256, 2, 65536);
    Square(256, 4, 4294967296);
    Square(256, 8, 18446744073709551616);
    Square(256, 16, 340282366920938463463374607431768211456);
  }

  lemma Pow58Of44()
    ensures Pow(58, 44) == 389790918707373377135528568990913592653094657612049369038476873218241589149696
  {
    assert Pow(58, 1) == 58;
    hide Pow;
    Square(58, 1, 58);
    Square(58, 2, 3364);
    Square(58, 4, 11316496);
    Square(58, 8, 128063081718016);
    Square(58, 16, 16400152899115243850138976256);
    PowSum(58, 32, 8);
    PowSum(58, 40, 4);
  }

  /** A key of 32 bytes has a text of 44 characters, from which it comes back. */
  lemma KeyRoundTrip(key: string)
    requires IsBytes(key) && |key| == 32
    ensures |EncodeKey(key)| == 44 && ValidText(EncodeKey(key)) && DecodeKey(EncodeKey(key)) == Some(key)
  {
    hide Pow, Rep, Num, Lead;
    var ds := ByteDigits(key);
    var n := Num(ds, 256);
    BytesBack(key, ds);
    NumBelow(ds, 256);
    KeysFit();
    RepLength(n, 58, 44);
    RepNum(n, 58);
    var kd := KeyDigits(key);
    NumZeros(44 - |Rep(n, 58)|, Rep(n, 58), 58);
    TextOfDigits(kd);
    Padded(ds, 256);
  }

  /** Which texts of 44 characters are those of keys: those over the alphabet whose number fits 32 bytes. */
  lemma KeyTextIff(s: string)
    requires |s| == 44
    ensures DecodeKey(s).None? <==> ValidText(s) && Num(DigitsOf(s), 58) >= Pow(256, 32)
    ensures ValidText(s) && DecodeKey(s).Some? ==> |DecodeKey(s).value| == 32 && EncodeKey(DecodeKey(s).value) == s
  {
    hide Pow, Rep, Num, Lead;
    if ValidText(s) {
      var n := Num(DigitsOf(s), 58);
      RepLength(n, 256, 32);
      RepNum(n, 256);
      DigitsOfText(s);
      if n < Pow(256, 32) {
        var bs := Zeros(32 - |Rep(n, 256)|) + Rep(n, 256);
        NumZeros(32 - |Rep(n, 256)|, Rep(n, 256), 256);
        BytesBack("", bs);
        Padded(DigitsOf(s), 58);
      }
    }
  }
}
