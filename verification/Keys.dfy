/** Key agreement arithmetic: HKDF, the PIN, and the coordinates of a public key. Both ends carry
    the same code (QuickShareSession.cpp and QuickShareSender.cpp), modelled once. */
module Keys {
  import opened ByteStrings
  import opened Crypto

  // ---------------------------------------------------------------- HKDF (RFC 5869)

  /** T(i) of section 2.3 of RFC 5869. */
  function Block(p: Primitives, prk: Bytes, info: Bytes, i: nat): Bytes
    requires i <= 255
  {
    if i == 0 then [] else p.hmac(prk, Block(p, prk, info, i - 1) + info + [i])
  }

  /** T(1) | T(2) | ... | T(n). */
  function Blocks(p: Primitives, prk: Bytes, info: Bytes, n: nat): Bytes
    requires n <= 255
  {
    if n == 0 then [] else Blocks(p, prk, info, n - 1) + Block(p, prk, info, n)
  }

  lemma {:induction false} BlocksSize(p: Primitives, prk: Bytes, info: Bytes, n: nat)
    requires HashLaws(p) && n <= 255
    ensures |Blocks(p, prk, info, n)| == 32 * n
  {
    if n > 0 {
      BlocksSize(p, prk, info, n - 1);
    }
  }

  /** QByteArray::left. */
  function Left(b: Bytes, n: nat): Bytes { if n <= |b| then b[..n] else b }

  /** Extract, then expand to `size` bytes: N = ceil(size / HashLen) blocks, cut. */
  function Hkdf(p: Primitives, ikm: Bytes, salt: Bytes, info: Bytes, size: nat): Bytes
    requires size <= 255 * 32
  {
    Left(Blocks(p, p.hmac(salt, ikm), info, (size + 31) / 32), size)
  }

  lemma HkdfSize(p: Primitives, ikm: Bytes, salt: Bytes, info: Bytes, size: nat)
    requires HashLaws(p) && size <= 255 * 32
    ensures |Hkdf(p, ikm, salt, info, size)| == size
  {
    BlocksSize(p, p.hmac(salt, ikm), info, (size + 31) / 32);
  }

  /** The blocks T(0) to T(n) of section 2.3 of RFC 5869: T(0) is empty, and each is the HMAC of the one before,
      the info and its own number. */
  ghost predicate Expands(p: Primitives, prk: Bytes, info: Bytes, t: seq<Bytes>) {
    && 0 < |t| <= 256 && t[0] == []
    && forall i :: 0 < i < |t| ==> t[i] == p.hmac(prk, t[i - 1] + info + [i])
  }

  /** The result is the beginning of those blocks, in their order. */
  lemma HkdfMeaning(p: Primitives, ikm: Bytes, salt: Bytes, info: Bytes, size: nat, t: seq<Bytes>)
    requires size <= 255 * 32 && HashLaws(p) && Expands(p, p.hmac(salt, ikm), info, t) && 32 * (|t| - 1) >= size
    ensures Hkdf(p, ikm, salt, info, size) <= Concat(t)
    ensures |Hkdf(p, ikm, salt, info, size)| == size
  {
    var prk, n := p.hmac(salt, ikm), (size + 31) / 32;
    HkdfSize(p, ikm, salt, info, size);
    BlocksAre(p, prk, info, t, n);
    assert t == t[..n + 1] + t[n + 1..];
    ConcatAppend(t[..n + 1], t[n + 1..]);
  }

  lemma {:induction false} BlocksAre(p: Primitives, prk: Bytes, info: Bytes, t: seq<Bytes>, n: nat)
    requires Expands(p, prk, info, t) && n < |t|
    ensures Block(p, prk, info, n) == t[n] && Blocks(p, prk, info, n) == Concat(t[..n + 1])
  {
    if n == 0 {
      assert t[..1] == [t[0]];
      ConcatOne(t[0]);
    } else {
      BlocksAre(p, prk, info, t, n - 1);
      assert t[..n + 1] == t[..n] + [t[n]];
      ConcatOne(t[n]);
      ConcatAppend(t[..n], [t[n]]);
    }
  }

  /** The loop, with its one-byte counter: it wraps only after the last block RFC 5869 allows. */
  method ComputeHkdf(p: Primitives, ikm: Bytes, salt: Bytes, info: Bytes, size: nat) returns (r: Bytes)
    requires HashLaws(p) && size <= 255 * 32
    ensures r == Hkdf(p, ikm, salt, info, size)
  {
    var prk := p.hmac(salt, ikm);
    var output, previous: Bytes := [], [];
    var counter: byte := 1;
    ghost var n := 0;
    while |output| < size
      invariant |output| == 32 * n && n <= (size + 31) / 32
      invariant counter == (n + 1) % 256
      invariant output == Blocks(p, prk, info, n) && previous == Block(p, prk, info, n)
      decreases size - |output|
    {
      var input := previous + info;
      input := input + [counter];
      counter := (counter + 1) % 256;
      previous := p.hmac(prk, input);
      output := output + previous;
      n := n + 1;
    }
    return Left(output, size);
  }

  // ---------------------------------------------------------------- the PIN

  type int32 = x: int | -0x8000_0000 <= x < 0x8000_0000

  /** The operator % of C++, which truncates toward zero. */
  function Rem(a: int, m: int): int
    requires m > 0
  {
    if a >= 0 then a % m else -((-a) % m)
  }

  function Signed(b: byte): int { if b < 128 then b else b - 256 }

  /** 31^n modulo 9973, and the running hash after the first n bytes. */
  function Weight(n: nat): (r: nat)
    ensures r < 9973
  {
    if n == 0 then 1 else (Weight(n - 1) * 31) % 9973
  }

  function PinHash(key: Bytes): int {
    if key == [] then 0
    else
      var n := |key| - 1;
      Rem(PinHash(key[..n]) + Signed(key[n]) * Weight(n), 9973)
  }

  function Pow31(n: nat): nat { if n == 0 then 1 else 31 * Pow31(n - 1) }

  /** The polynomial in 31 whose coefficients are the signed bytes of the key. */
  function Polynomial(key: Bytes): int {
    if key == [] then 0
    else Polynomial(key[..|key| - 1]) + Signed(key[|key| - 1]) * Pow31(|key| - 1)
  }

  predicate Congruent(a: int, b: int) { (a - b) % 9973 == 0 }

  lemma CongruentBy(a: int, b: int, k: int)
    requires a == b + 9973 * k
    ensures Congruent(a, b)
  {
  }

  lemma Quotient(a: int, b: int) returns (k: int)
    requires Congruent(a, b)
    ensures a == b + 9973 * k
  {
    k := (a - b) / 9973;
  }

  lemma CongruentScale(a: int, b: int, c: int)
    requires Congruent(a, b)
    ensures Congruent(c * a, c * b)
  {
    var k := Quotient(a, b);
    assert c * a == c * b + 9973 * (c * k);
    CongruentBy(c * a, c * b, c * k);
  }

  lemma CongruentSum(a: int, b: int, c: int, d: int)
    requires Congruent(a, b) && Congruent(c, d)
    ensures Congruent(a + c, b + d)
  {
    var k := Quotient(a, b);
    var l := Quotient(c, d);
    CongruentBy(a + c, b + d, k + l);
  }

  lemma CongruentChain(a: int, b: int, c: int)
    requires Congruent(a, b) && Congruent(b, c)
    ensures Congruent(a, c)
  {
    var k := Quotient(a, b);
    var l := Quotient(b, c);
    CongruentBy(a, c, k + l);
  }

  lemma RemMeaning(a: int)
    ensures -9972 <= Rem(a, 9973) <= 9972 && Congruent(Rem(a, 9973), a)
  {
    if a >= 0 {
      CongruentBy(Rem(a, 9973), a, -(a / 9973));
    } else {
      CongruentBy(Rem(a, 9973), a, (-a) / 9973);
    }
  }

  lemma {:induction false} WeightIsPower(n: nat)
    ensures Congruent(Weight(n), Pow31(n))
  {
    if n > 0 {
      WeightIsPower(n - 1);
      CongruentScale(Weight(n - 1), Pow31(n - 1), 31);
      RemMeaning(Weight(n - 1) * 31);
      CongruentChain(Weight(n), Weight(n - 1) * 31, Pow31(n));
    }
  }

  /** The hash stays below the modulus in size and is the polynomial modulo 9973. */
  lemma {:induction false} PinHashMeaning(key: Bytes)
    ensures -9972 <= PinHash(key) <= 9972
    ensures Congruent(PinHash(key), Polynomial(key))
  {
    if key != [] {
      var n := |key| - 1;
      var c := Signed(key[n]);
      PinHashMeaning(key[..n]);
      WeightIsPower(n);
      CongruentScale(Weight(n), Pow31(n), c);
      CongruentSum(PinHash(key[..n]), Polynomial(key[..n]), c * Weight(n), c * Pow31(n));
      RemMeaning(PinHash(key[..n]) + c * Weight(n));
      CongruentChain(PinHash(key), PinHash(key[..n]) + c * Weight(n), Polynomial(key));
    }
  }

  method ComputePinHash(key: Bytes) returns (hash: int)
    ensures hash == PinHash(key)
    ensures -9972 <= hash <= 9972 && Congruent(hash, Polynomial(key))
  {
    hash := 0;
    var multiplier := 1;
    for i := 0 to |key|
      invariant hash == PinHash(key[..i]) && multiplier == Weight(i)
    {
      PinHashMeaning(key[..i]);
      assert key[..i + 1][..i] == key[..i];
      var b := Signed(key[i]);
      Small(b, multiplier);
      var product: int32 := b * multiplier; // the int arithmetic of the source never overflows
      var sum: int32 := hash + product;
      var next: int32 := multiplier * 31;
      hash := Rem(sum, 9973);
      multiplier := next % 9973;
    }
    assert key[..|key|] == key;
    PinHashMeaning(key);
  }

  lemma Small(b: int, m: nat)
    requires -128 <= b < 128 && m < 9973
    ensures -1_300_000 <= b * m <= 1_300_000
  {
    assert -128 * m <= b * m <= 128 * m;
  }

  function Digit(d: nat): char
    requires d < 10
  {
    ['0', '1', '2', '3', '4', '5', '6', '7', '8', '9'][d]
  }

  function Abs(x: int): nat { if x < 0 then -x else x }

  /** The absolute hash printed in at least four columns, padded with zeros. */
  function Pin(key: Bytes): (r: string)
    ensures |r| == 4
  {
    PinHashMeaning(key);
    var h := Abs(PinHash(key));
    [Digit(h / 1000), Digit(h / 100 % 10), Digit(h / 10 % 10), Digit(h % 10)]
  }

  function DigitValue(c: char): int { c as int - '0' as int }

  lemma DigitMeaning(d: nat)
    requires d < 10
    ensures '0' <= Digit(d) <= '9' && DigitValue(Digit(d)) == d
  {
  }

  lemma FourDigits(h: nat)
    ensures 1000 * (h / 1000) + 100 * (h / 100 % 10) + 10 * (h / 10 % 10) + h % 10 == h
  {
    var tens, hundreds := h / 10, h / 100;
    assert hundreds == tens / 10 && h / 1000 == hundreds / 10;
    assert h == 10 * tens + h % 10;
    assert tens == 10 * hundreds + tens % 10;
    assert hundreds == 10 * (h / 1000) + hundreds % 10;
  }

  /** Four decimal digits, the highest first, that denote the absolute hash. */
  lemma PinMeaning(key: Bytes)
    ensures forall i :: 0 <= i < 4 ==> '0' <= Pin(key)[i] <= '9'
    ensures 1000 * DigitValue(Pin(key)[0]) + 100 * DigitValue(Pin(key)[1]) + 10 * DigitValue(Pin(key)[2])
      + DigitValue(Pin(key)[3]) == if PinHash(key) < 0 then -PinHash(key) else PinHash(key)
  {
    hide PinHash, Digit, DigitValue;
    PinHashMeaning(key);
    var h := Abs(PinHash(key));
    DigitMeaning(h / 1000);
    DigitMeaning(h / 100 % 10);
    DigitMeaning(h / 10 % 10);
    DigitMeaning(h % 10);
    FourDigits(h);
  }

  /** pinFromAuthKey. */
  method ComputePin(key: Bytes) returns (pin: string)
    ensures pin == Pin(key)
  {
    var hash := ComputePinHash(key);
    var h := if hash < 0 then -hash else hash;
    pin := [Digit(h / 1000), Digit(h / 100 % 10), Digit(h / 10 % 10), Digit(h % 10)];
  }

  // ---------------------------------------------------------------- coordinates

  /** BN_bn2bin: the shortest big-endian form, empty for zero. */
  function BigEndian(x: nat): (r: Bytes)
    ensures x > 0 ==> |r| > 0 && r[0] != 0
  {
    if x == 0 then [] else BigEndian(x / 256) + [x % 256]
  }

  function FromBigEndian(b: Bytes): nat {
    if b == [] then 0 else FromBigEndian(b[..|b| - 1]) * 256 + b[|b| - 1]
  }

  function Pow256(n: nat): (r: nat)
    ensures r > 0
  {
    if n == 0 then 1 else 256 * Pow256(n - 1)
  }

  /** A leading zero keeps the top bit from reading as a sign. */
  function SignedCoordinate(x: nat): Bytes {
    var b := BigEndian(x);
    if b != [] && b[0] >= 128 then [0] + b else b
  }

  function StripTo32(b: Bytes): Bytes {
    if |b| > 32 && b[0] == 0 then StripTo32(b[1..]) else b
  }

  function Normalize(b: Bytes): Option<Bytes> {
    var s := StripTo32(b);
    if |s| > 32 then None else Some(Zeros(32 - |s|) + s)
  }

  method NormalizeCoordinate(b: Bytes) returns (r: Option<Bytes>)
    ensures r == Normalize(b)
  {
    var s := b;
    while |s| > 32 && s[0] == 0
      invariant StripTo32(s) == StripTo32(b)
      decreases |s|
    {
      s := s[1..];
    }
    if |s| > 32 {
      return None;
    }
    return Some(Zeros(32 - |s|) + s);
  }

  lemma {:induction false} FromBigEndianOf(x: nat)
    ensures FromBigEndian(BigEndian(x)) == x
  {
    if x > 0 {
      var b := BigEndian(x / 256) + [x % 256];
      assert b[..|b| - 1] == BigEndian(x / 256);
      FromBigEndianOf(x / 256);
    }
  }

  lemma {:induction false} LeadingZero(b: Bytes)
    ensures FromBigEndian([0] + b) == FromBigEndian(b)
  {
    if b == [] {
      assert ([0] + b)[..0] == [];
    } else {
      var n := |b| - 1;
      assert ([0] + b)[..n + 1] == [0] + b[..n];
      LeadingZero(b[..n]);
    }
  }

  lemma {:induction false} LeadingZeros(n: nat, b: Bytes)
    ensures FromBigEndian(Zeros(n) + b) == FromBigEndian(b)
  {
    if n == 0 {
      assert Zeros(0) + b == b;
    } else {
      assert Zeros(n) + b == [0] + (Zeros(n - 1) + b);
      LeadingZero(Zeros(n - 1) + b);
      LeadingZeros(n - 1, b);
    }
  }

  lemma {:induction false} BigEndianBounds(b: Bytes)
    ensures FromBigEndian(b) < Pow256(|b|)
    ensures b != [] && b[0] != 0 ==> FromBigEndian(b) >= Pow256(|b| - 1)
  {
    if b != [] {
      BigEndianBounds(b[..|b| - 1]);
      if |b| == 1 {
        assert b[..0] == [];
      }
    }
  }

  lemma {:induction false} Pow256Monotone(m: nat, n: nat)
    requires m <= n
    ensures Pow256(m) <= Pow256(n)
  {
    if m < n {
      Pow256Monotone(m, n - 1);
    }
  }

  lemma {:induction false} StripKeepsValue(b: Bytes)
    ensures FromBigEndian(StripTo32(b)) == FromBigEndian(b)
    ensures |StripTo32(b)| > 32 ==> StripTo32(b)[0] != 0
    ensures |b| <= 32 ==> StripTo32(b) == b
  {
    if |b| > 32 && b[0] == 0 {
      assert [0] + b[1..] == b;
      LeadingZero(b[1..]);
      StripKeepsValue(b[1..]);
    }
  }

  lemma Pow256Limit(n: nat)
    requires n == 32
    ensures Pow256(n) == COORDINATE_LIMIT
  {
    assert Pow256(4) == TWO32;
    assert Pow256(8) == TWO64;
    assert Pow256(12) == TWO64 * TWO32;
    assert Pow256(16) == TWO64 * TWO64;
    assert Pow256(20) == TWO64 * TWO64 * TWO32;
    assert Pow256(24) == TWO64 * TWO64 * TWO64;
    assert Pow256(28) == TWO64 * TWO64 * TWO64 * TWO32;
  }

  /** Thirty-two bytes hold a number exactly when its shortest form is that short. */
  lemma WidthOf(b: Bytes)
    ensures |b| <= 32 ==> FromBigEndian(b) < COORDINATE_LIMIT
    ensures |b| > 32 && b[0] != 0 ==> FromBigEndian(b) >= COORDINATE_LIMIT
  {
    var n := 32;
    Pow256Limit(n);
    BigEndianBounds(b);
    if |b| > n {
      Pow256Monotone(n, |b| - 1);
    } else {
      Pow256Monotone(|b|, n);
    }
  }

  /** A received coordinate is accepted exactly when its value fits in 32 bytes, and then it is
      the same value at the full width. */
  lemma NormalizeMeaning(b: Bytes)
    ensures Normalize(b).Some? <==> FromBigEndian(b) < COORDINATE_LIMIT
    ensures Normalize(b).Some? ==>
      |Normalize(b).value| == 32 && FromBigEndian(Normalize(b).value) == FromBigEndian(b)
  {
    var s := StripTo32(b);
    StripKeepsValue(b);
    WidthOf(s);
    if |s| <= 32 {
      LeadingZeros(32 - |s|, s);
    }
  }

  /** What one side writes, the other side reads back. */
  lemma CoordinateRoundTrip(x: nat)
    requires x < COORDINATE_LIMIT
    ensures Normalize(SignedCoordinate(x)).Some?
    ensures FromBigEndian(Normalize(SignedCoordinate(x)).value) == x
  {
    FromBigEndianOf(x);
    LeadingZero(BigEndian(x));
    NormalizeMeaning(SignedCoordinate(x));
  }

  lemma CoordinateSize(x: nat)
    requires x < COORDINATE_LIMIT
    ensures |SignedCoordinate(x)| <= 33
  {
    FromBigEndianOf(x);
    WidthOf(BigEndian(x));
  }
}
