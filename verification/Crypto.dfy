/** The OpenSSL calls, as uninterpreted functions with the laws the protocol relies on. */
module Crypto {
  import opened ByteStrings

  datatype Point = Point(x: nat, y: nat)

  datatype Primitives = Primitives(
    hmac: (Bytes, Bytes) -> Bytes,            // key, data
    encrypt: (Bytes, Bytes, Bytes) -> Bytes,  // key, iv, plaintext
    decrypt: (Bytes, Bytes, Bytes) -> Bytes,  // key, iv, ciphertext; empty when it does not decrypt
    sha256: Bytes -> Bytes,
    sha512: Bytes -> Bytes,
    publicPoint: nat -> Point,                // of a private scalar
    onCurve: Point -> bool,
    ecdh: (nat, Point) -> Bytes               // private scalar, peer point; empty on failure
  )

  const COORDINATE_LIMIT := 0x1_0000_0000_0000_0000_0000_0000_0000_0000_0000_0000_0000_0000_0000_0000_0000_0000

  ghost predicate HashLaws(p: Primitives) {
    && (forall k: Bytes, d: Bytes :: |p.hmac(k, d)| == 32)
    && (forall d: Bytes :: |p.sha256(d)| == 32)
    && (forall d: Bytes :: |p.sha512(d)| == 64)
  }

  /** CBC with PKCS padding to sixteen-byte blocks. */
  ghost predicate CipherLaws(p: Primitives) {
    forall k: Bytes, iv: Bytes, m: Bytes :: |k| == 32 && |iv| == 16 ==>
      && p.decrypt(k, iv, p.encrypt(k, iv, m)) == m
      && |p.encrypt(k, iv, m)| == (|m| / 16 + 1) * 16
  }

  ghost predicate CurveLaws(p: Primitives) {
    && (forall s: nat :: p.onCurve(p.publicPoint(s)) && p.publicPoint(s).x < COORDINATE_LIMIT
         && p.publicPoint(s).y < COORDINATE_LIMIT)
    && (forall s: nat, t: nat :: p.ecdh(s, p.publicPoint(t)) == p.ecdh(t, p.publicPoint(s)))
    && (forall s: nat, t: nat :: 0 < |p.ecdh(s, p.publicPoint(t))| <= 32)
  }

  ghost predicate Lawful(p: Primitives) {
    HashLaws(p) && CipherLaws(p) && CurveLaws(p)
  }

  /** The wrapper around EVP: wrong key or IV sizes give an empty result. */
  function AesEncrypt(p: Primitives, input: Bytes, key: Bytes, iv: Bytes): Bytes {
    if |key| != 32 || |iv| != 16 then [] else p.encrypt(key, iv, input)
  }

  function AesDecrypt(p: Primitives, input: Bytes, key: Bytes, iv: Bytes): Bytes {
    if |key| != 32 || |iv| != 16 then [] else p.decrypt(key, iv, input)
  }

  // ---------------------------------------------------------------- the laws can be met together

  function Pad(m: Bytes): (r: Bytes)
    ensures |r| == (|m| / 16 + 1) * 16
  {
    var n := 16 - |m| % 16;
    m + seq(n, i => n)
  }

  function Unpad(c: Bytes): Bytes {
    if c == [] || c[|c| - 1] > |c| then [] else c[..|c| - c[|c| - 1] as int]
  }

  lemma LawsAreConsistent()
    ensures exists p: Primitives :: Lawful(p)
  {
    var p := Primitives(
      (k: Bytes, d: Bytes) => Zeros(32),
      (k: Bytes, iv: Bytes, m: Bytes) => Pad(m),
      (k: Bytes, iv: Bytes, c: Bytes) => Unpad(c),
      (d: Bytes) => Zeros(32),
      (d: Bytes) => Zeros(64),
      (s: nat) => Point(s % 7, 0),
      (q: Point) => true,
      (s: nat, q: Point) => [1]);
    forall m: Bytes
      ensures Unpad(Pad(m)) == m
    {
      assert Pad(m)[|Pad(m)| - 1] == 16 - |m| % 16;
    }
    assert Lawful(p);
  }
}
