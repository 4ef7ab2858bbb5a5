/** The UKEY2 key agreement both ends run on the peer's public key: deriveKeys of the receiver and
    processServerInit of the sender differ only in which half of the result they send with. */
module KeyAgreement {
  import opened ByteStrings
  import opened ProtoWire
  import opened Crypto
  import opened Keys
  import opened SecureChannel

  const D2D_SALT: Bytes := [
    0x82, 0xaa, 0x55, 0xa0, 0xd3, 0x97, 0xf8, 0x83, 0x46, 0xca, 0x1c, 0xee, 0x8d, 0x39, 0x09, 0xb9,
    0x5f, 0x13, 0xfa, 0x7d, 0xeb, 0x1d, 0x4a, 0xb3, 0x83, 0x76, 0xb8, 0x25, 0x6d, 0xa8, 0x55, 0x10]
  const SECURE_SALT: Bytes := [
    0xbf, 0x9d, 0x2a, 0x53, 0xc6, 0x36, 0x16, 0xd7, 0x5d, 0xb0, 0xa7, 0x16, 0x5b, 0x91, 0xc1, 0xef,
    0x73, 0xe5, 0x37, 0xf2, 0x42, 0x74, 0x05, 0xfa, 0x23, 0x61, 0x0a, 0x4b, 0xe6, 0x57, 0x64, 0x2e]

  /** The PIN, and the keys of the two directions named after the side that seals with them. */
  datatype Agreement = Agreement(pin: string, client: Direction, server: Direction)

  function DirectionOf(p: Primitives, secret: Bytes): Direction {
    Direction(Hkdf(p, secret, SECURE_SALT, Ascii("ENC:2"), 32), Hkdf(p, secret, SECURE_SALT, Ascii("SIG:1"), 32))
  }

  function Derive(p: Primitives, shared: Bytes, info: Bytes): Agreement {
    var padded := if |shared| < 32 then Zeros(32 - |shared|) + shared else shared;
    var derived := p.sha256(padded);
    var auth := Hkdf(p, derived, Ascii("UKEY2 v1 auth"), info, 32);
    var next := Hkdf(p, derived, Ascii("UKEY2 v1 next"), info, 32);
    Agreement(Pin(auth),
              DirectionOf(p, Hkdf(p, next, D2D_SALT, Ascii("client"), 32)),
              DirectionOf(p, Hkdf(p, next, D2D_SALT, Ascii("server"), 32)))
  }

  method ComputeDirection(p: Primitives, secret: Bytes) returns (d: Direction)
    requires HashLaws(p)
    ensures d == DirectionOf(p, secret)
  {
    hide Hkdf, Ascii;
    var cipherKey := ComputeHkdf(p, secret, SECURE_SALT, Ascii("ENC:2"), 32);
    var macKey := ComputeHkdf(p, secret, SECURE_SALT, Ascii("SIG:1"), 32);
    return Direction(cipherKey, macKey);
  }

  /** The part of deriveKeys and processServerInit behind the shared secret. */
  method ComputeAgreement(p: Primitives, shared: Bytes, info: Bytes) returns (a: Agreement)
    requires HashLaws(p)
    ensures a == Derive(p, shared, info)
  {
    hide Hkdf, Ascii, Pin, DirectionOf;
    var secret := shared;
    if |secret| < 32 {
      secret := Zeros(32 - |secret|) + secret;
    }
    var derived := p.sha256(secret);
    var auth := ComputeHkdf(p, derived, Ascii("UKEY2 v1 auth"), info, 32);
    var next := ComputeHkdf(p, derived, Ascii("UKEY2 v1 next"), info, 32);
    var pin := ComputePin(auth);
    var client := ComputeHkdf(p, next, D2D_SALT, Ascii("client"), 32);
    var server := ComputeHkdf(p, next, D2D_SALT, Ascii("server"), 32);
    var clientKeys := ComputeDirection(p, client);
    var serverKeys := ComputeDirection(p, server);
    return Agreement(pin, clientKeys, serverKeys);
  }

  /** The agreement with the owner of `peer`; none when the point is off the curve or ECDH fails. */
  function Agree(p: Primitives, secret: nat, peer: Point, info: Bytes): Option<Agreement> {
    if !p.onCurve(peer) || p.ecdh(secret, peer) == [] then None
    else Some(Derive(p, p.ecdh(secret, peer), info))
  }

  /** Every key is a single block of HKDF: two HMACs, one inside the other. */
  function OneBlock(p: Primitives, salt: Bytes, ikm: Bytes, info: Bytes): Bytes {
    p.hmac(p.hmac(salt, ikm), info + [1])
  }

  lemma OneBlockIs(p: Primitives, salt: Bytes, ikm: Bytes, info: Bytes)
    requires HashLaws(p)
    ensures Hkdf(p, ikm, salt, info, 32) == OneBlock(p, salt, ikm, info)
  {
    var prk := p.hmac(salt, ikm);
    assert Block(p, prk, info, 0) + info + [1] == info + [1];
    assert Blocks(p, prk, info, 1) == Block(p, prk, info, 1);
  }

  /** The keys of the direction in which the side of this name seals. */
  ghost predicate KeysOf(p: Primitives, next: Bytes, side: string, d: Direction) {
    var secret := OneBlock(p, D2D_SALT, next, Ascii(side));
    && d.cipherKey == OneBlock(p, SECURE_SALT, secret, Ascii("ENC:2"))
    && d.macKey == OneBlock(p, SECURE_SALT, secret, Ascii("SIG:1"))
  }

  /** The x-coordinate at its full width, hashed. */
  function Premaster(p: Primitives, shared: Bytes): Bytes {
    p.sha256(if |shared| < 32 then Zeros(32 - |shared|) + shared else shared)
  }

  /** The frames of the handshake enter as the info of the PIN's key and of the secret behind all others. */
  ghost predicate IsAgreement(p: Primitives, premaster: Bytes, info: Bytes, a: Agreement) {
    var next := OneBlock(p, Ascii("UKEY2 v1 next"), premaster, info);
    && a.pin == Pin(OneBlock(p, Ascii("UKEY2 v1 auth"), premaster, info))
    && KeysOf(p, next, "client", a.client) && KeysOf(p, next, "server", a.server)
  }

  /** An agreement exists exactly with a point on the curve whose ECDH succeeds; PIN and keys are then these
      HMACs. */
  lemma AgreementMeaning(p: Primitives, secret: nat, peer: Point, info: Bytes, a: Agreement)
    requires HashLaws(p)
    ensures Agree(p, secret, peer, info) == Some(a) <==>
      && p.onCurve(peer) && p.ecdh(secret, peer) != []
      && IsAgreement(p, Premaster(p, p.ecdh(secret, peer)), info, a)
  {
    hide Hkdf, OneBlock, Ascii, Pin;
    forall salt: Bytes, ikm: Bytes, text: Bytes
      ensures Hkdf(p, ikm, salt, text, 32) == OneBlock(p, salt, ikm, text)
    {
      OneBlockIs(p, salt, ikm, text);
    }
  }

  // ---------------------------------------------------------------- public keys on the wire

  function EcPublic(q: Point): Bytes { Encode([B(1, SignedCoordinate(q.x)), B(2, SignedCoordinate(q.y))]) }

  function GenericPublic(q: Point): Bytes { Encode([V(1, 1), B(2, EcPublic(q))]) }

  function ParsePublic(generic: Bytes): Option<Point> {
    match (GetVarint(generic, 1), GetBytes(generic, 2))
    case (Some(keyType), Some(ec)) => if keyType != 1 then None else ParseEc(ec)
    case _ => None
  }

  function ParseEc(ec: Bytes): Option<Point> {
    match (GetBytes(ec, 1), GetBytes(ec, 2))
    case (Some(x), Some(y)) =>
      (match (Normalize(x), Normalize(y))
       case (Some(x32), Some(y32)) => Some(Point(FromBigEndian(x32), FromBigEndian(y32)))
       case _ => None)
    case _ => None
  }

  ghost predicate OnGrid(q: Point) { q.x < COORDINATE_LIMIT && q.y < COORDINATE_LIMIT }

  lemma EcRoundTrip(q: Point)
    requires OnGrid(q)
    ensures ParseEc(EcPublic(q)) == Some(q)
    ensures |EcPublic(q)| <= 106
  {
    hide Encode, GetBytes, SignedCoordinate, Normalize, FromBigEndian;
    CoordinateRoundTrip(q.x);
    CoordinateRoundTrip(q.y);
    CoordinateSize(q.x);
    CoordinateSize(q.y);
    var fields := [B(1, SignedCoordinate(q.x)), B(2, SignedCoordinate(q.y))];
    BytesAt(fields, 1, 0);
    BytesAt(fields, 2, 1);
    SmallSize(fields);
  }

  /** The strip, the padding and the sign byte cancel out: the peer reads the very point. */
  lemma PublicRoundTrip(q: Point)
    requires OnGrid(q)
    ensures ParsePublic(GenericPublic(q)) == Some(q)
    ensures |GenericPublic(q)| <= 146
  {
    hide Encode, GetBytes, GetVarint, EcPublic, ParseEc;
    EcRoundTrip(q);
    var fields := [V(1, 1), B(2, EcPublic(q))];
    VarintAt(fields, 1, 0);
    BytesAt(fields, 2, 1);
    SmallSize(fields);
  }

  /** Both sides derive one agreement from their own secret and the other's point. */
  lemma AgreementsMatch(p: Primitives, a: nat, b: nat, info: Bytes)
    requires CurveLaws(p)
    ensures Agree(p, a, p.publicPoint(b), info) == Agree(p, b, p.publicPoint(a), info)
    ensures Agree(p, a, p.publicPoint(b), info).Some?
    ensures OnGrid(p.publicPoint(a))
  {
    hide Derive;
  }

  lemma AgreementKeys(p: Primitives, shared: Bytes, info: Bytes)
    requires HashLaws(p)
    ensures var a := Derive(p, shared, info); GoodKeys(a.client) && GoodKeys(a.server) && |a.pin| == 4
  {
    hide Hkdf, Pin;
    forall secret: Bytes, tag: Bytes
      ensures |Hkdf(p, secret, SECURE_SALT, tag, 32)| == 32
    {
      HkdfSize(p, secret, SECURE_SALT, tag, 32);
    }
  }
}
