/** The single-byte XOR cipher of `xorDecrypt` (public/app.js:277-288).
    The browser's base64 decoder `atob` is a parameter: it yields the decoded
    Latin-1 code units, or None where it would throw. */
module Cipher {
  import opened Wrappers
  import opened Numbers

  /** A code unit produced by `atob`: always below 256. */
  type Byte = x: int | 0 <= x < 256

  /** What `atob` stands for: base64 text to bytes, None on malformed input. */
  type Base64Decoder = string -> Option<seq<Byte>>

  /** The text `xorDecrypt` returns when its input is not valid base64. */
  const DecodeError := "Error al decodificar Base64"

  /** Keys are single bytes: every key the model feeds the cipher is below this. */
  const KeyLimit := 256

  /** One code unit XOR the key; a byte stays a byte. */
  function XorByte(b: Byte, key: nat): (r: Byte)
    requires key < KeyLimit
    ensures r == BitXor(b, key)
  {
    XorBelow(b, key, 8);
    BitXor(b, key)
  }

  /** The bytes XOR the key, position by position. */
  function XorBytes(bytes: seq<Byte>, key: nat): (r: seq<Byte>)
    requires key < KeyLimit
  {
    seq(|bytes|, i requires 0 <= i < |bytes| => XorByte(bytes[i], key))
  }

  /** Latin-1 text of a byte sequence (what `String.fromCharCode` yields per byte). */
  function Latin1(bytes: seq<Byte>): (s: string)
  {
    seq(|bytes|, i requires 0 <= i < |bytes| => bytes[i] as char)
  }

  /** The result `xorDecrypt(encoded, key)` returns, as a specification. */
  function Decrypt(encoded: string, key: nat, atob: Base64Decoder): string
    requires key < KeyLimit
  {
    match atob(encoded)
    case None => DecodeError
    case Some(bytes) => Latin1(XorBytes(bytes, key))
  }

  /** `xorDecrypt`: decode, then append one character per decoded byte. */
  method XorDecrypt(encoded: string, key: nat, atob: Base64Decoder) returns (r: string)
    requires key < KeyLimit
    ensures atob(encoded).None? ==> r == DecodeError
    ensures atob(encoded).Some? ==>
              |r| == |atob(encoded).value| &&
              forall i :: 0 <= i < |r| ==> r[i] as int == BitXor(atob(encoded).value[i], key)
    ensures r == Decrypt(encoded, key, atob)
  {
    var decoded := atob(encoded);
    if decoded.None? {
      return DecodeError;
    }
    var text := decoded.value;
    r := "";
    for i := 0 to |text|
      invariant |r| == i
      invariant forall j :: 0 <= j < i ==> r[j] == XorByte(text[j], key) as char
    {
      r := r + [XorByte(text[i], key) as char];
    }
    assert r == Latin1(XorBytes(text, key));
  }

  /** XOR-ing the output with the key again gives back the decoded bytes:
      the cipher is its own inverse. */
  lemma {:induction false} XorBytesInvolution(bytes: seq<Byte>, key: nat)
    requires key < KeyLimit
    ensures XorBytes(XorBytes(bytes, key), key) == bytes
  {
    forall i | 0 <= i < |bytes|
      ensures XorBytes(XorBytes(bytes, key), key)[i] == bytes[i]
    {
      XorInvolution(bytes[i], key);
    }
  }

  /** Encrypting is the same XOR followed by base64 encoding (`btoa`); whenever
      `atob` undoes `btoa` on the ciphertext, decryption returns the plain text. */
  lemma {:induction false} RoundTrip(plain: seq<Byte>, key: nat, atob: Base64Decoder, btoa: seq<Byte> -> string)
    requires key < KeyLimit
    requires atob(btoa(XorBytes(plain, key))) == Some(XorBytes(plain, key))
    ensures Decrypt(btoa(XorBytes(plain, key)), key, atob) == Latin1(plain)
  {
    XorBytesInvolution(plain, key);
  }

  /** Key 0 leaves the decoded text as it is. */
  lemma {:induction false} ZeroKeyIdentity(encoded: string, atob: Base64Decoder)
    requires atob(encoded).Some?
    ensures Decrypt(encoded, 0, atob) == Latin1(atob(encoded).value)
  {
    var bytes := atob(encoded).value;
    forall i | 0 <= i < |bytes|
      ensures XorBytes(bytes, 0)[i] == bytes[i]
    {
      XorZero(bytes[i]);
    }
    assert XorBytes(bytes, 0) == bytes;
  }
}
