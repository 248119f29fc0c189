/** Addresses: a prefix and the text of a public key. */
module Addresses {
  import opened Wrappers
  import opened Bytes
  import opened Positional
  import opened Base58

  const ADDR_PREFIX := "Kto"
  const ADDRESS_SIZE: nat := 47
  const PUBLIC_KEY_SIZE: nat := 32

  function PublicKeyToAddress(publicKey: string): string {
    ADDR_PREFIX + EncodeKey(publicKey)
  }

  /** The key of an address; its text may denote a number too large for a key, which panics. */
  function ToPublicKey(a: string): Option<string>
    requires |a| == ADDRESS_SIZE
  {
    DecodeKey(a[3..])
  }

  function Verify(a: string): Option<bool>
    requires |a| == ADDRESS_SIZE
  {
    if a[..3] != ADDR_PREFIX then Some(false)
    else
      var key := ToPublicKey(a);
      if key.None? then None else Some(|key.value| == PUBLIC_KEY_SIZE)
  }

  /** Bytes copied into an address: cut off, or filled up with zero bytes. */
  function Copied(from: string): (a: string)
    ensures |a| == ADDRESS_SIZE
  {
    if |from| >= ADDRESS_SIZE then from[..ADDRESS_SIZE] else from + BytesOf(Zeros(ADDRESS_SIZE - |from|))
  }

  /** A 32-byte key gives an address of 47 bytes that verifies and from which the key comes back. */
  lemma AddressRoundTrip(key: string)
    requires IsBytes(key) && |key| == PUBLIC_KEY_SIZE
    ensures var a := PublicKeyToAddress(key);
            && |a| == ADDRESS_SIZE && a[..3] == "Kto" && ValidText(a[3..])
            && Verify(a) == Some(true) && ToPublicKey(a) == Some(key) && Copied(a) == a
  {
    KeyRoundTrip(key);
    hide EncodeKey, DecodeKey;
    var a := PublicKeyToAddress(key);
    assert a[..3] == ADDR_PREFIX && a[3..] == EncodeKey(key);
  }

  /** An address verifies if and only if it is that of a 32-byte key. */
  lemma VerifiesIff(a: string)
    requires |a| == ADDRESS_SIZE
    ensures Verify(a) == Some(true) <==>
              exists key :: IsBytes(key) && |key| == PUBLIC_KEY_SIZE && a == PublicKeyToAddress(key)
  {
    if Verify(a) == Some(true) {
      var key := KeyOf(a);
    }
    forall key | IsBytes(key) && |key| == PUBLIC_KEY_SIZE && a == PublicKeyToAddress(key)
      ensures Verify(a) == Some(true)
    {
      AddressRoundTrip(key);
    }
  }

  lemma KeyOf(a: string) returns (key: string)
    requires |a| == ADDRESS_SIZE && Verify(a) == Some(true)
    ensures IsBytes(key) && |key| == PUBLIC_KEY_SIZE && a == PublicKeyToAddress(key)
  {
    var s := a[3..];
    key := DecodeKey(s).value;
    KeyTextIff(s);
    KeyBytes(s);
    hide EncodeKey, Pow, Num;
    assert ValidText(s);
    assert a == a[..3] + s;
  }

  lemma KeyBytes(s: string)
    ensures DecodeKey(s).Some? ==> IsBytes(DecodeKey(s).value)
  {
  }

  /** Checking an address panics exactly if its text is over the alphabet but denotes a number of more than 32 bytes. */
  lemma VerifyPanicsIff(a: string)
    requires |a| == ADDRESS_SIZE
    ensures Verify(a).None? <==> a[..3] == ADDR_PREFIX && ValidText(a[3..]) && Num(DigitsOf(a[3..]), 58) >= Pow(256, 32)
  {
    KeyTextIff(a[3..]);
  }

  /** Copying keeps the bytes that there is room for, and fills up with zero bytes. */
  lemma CopiedAt(from: string, i: nat)
    requires i < 47
    ensures Copied(from)[i] == if i < |from| then from[i] else '\0'
  {
  }
}
