/** What the frames of both ends say, field by field, whether or not the peer looks at it. */
module FrameForms {
  import opened ByteStrings
  import opened ProtoWire
  import opened Crypto
  import opened KeyAgreement
  import opened SecureChannel
  import opened Frames
  import opened FrameReading
  import opened HandshakeFrames
  import R = Receiver
  import S = Sender

  // ---------------------------------------------------------------- the sealed message

  /** Signature scheme 1 and encryption scheme 2, the IV, and the metadata of kind 13 and version 1. */
  ghost predicate HeaderSays(m: Bytes, iv: Bytes) {
    && VarintIn(m, [1, 1], 1) == Some(1) && VarintIn(m, [1, 1], 2) == Some(2) && Inner(m, [1, 1, 5]) == Some(iv)
    && VarintIn(m, [1, 1, 6], 1) == Some(13) && VarintIn(m, [1, 1, 6], 2) == Some(1)
  }

  /** Sealed is: that header and the ciphertext of frame and number, under the MAC of both. */
  lemma SealSays(p: Primitives, d: Direction, iv: Bytes, sequence: nat, offline: Bytes)
    requires CipherLaws(p) && HashLaws(p) && GoodKeys(d) && |iv| == 16 && |offline| < TWO31 - 1000
    ensures var m := Seal(p, d, iv, sequence, offline);
      && Authentic(p, d, m) && HeaderSays(m, iv)
      && var plain := Inside(p, d, GetBytes(m, 1).value);
         plain.Some? && GetBytes(plain.value, 1) == Some(offline) && GetVarint(plain.value, 2) == Some(sequence % TWO64)
  {
    hide Encode, GetBytes, GetVarint, HeaderAndBody, Header, Plain, AesEncrypt, AesDecrypt, Inner;
    var m, signed := Seal(p, d, iv, sequence, offline), HeaderAndBody(p, d, iv, sequence, offline);
    SealSizes(p, d, iv, sequence, offline);
    var fields := [B(1, signed), B(2, p.hmac(d.macKey, signed))];
    BytesAt(fields, 1, 0);
    BytesAt(fields, 2, 1);
    SignedSays(p, d, iv, sequence, offline);
    HeaderFields(iv);
    FieldPaths(m, 1, 1, 5);
    FieldPaths(m, 1, 1, 6);
    PlainSays(offline, sequence);
    Recovered(p, d, iv, Plain(offline, sequence));
  }

  lemma Recovered(p: Primitives, d: Direction, iv: Bytes, plain: Bytes)
    requires CipherLaws(p) && GoodKeys(d) && |iv| == 16
    ensures AesDecrypt(p, AesEncrypt(p, plain, d.cipherKey, iv), d.cipherKey, iv) == plain
  {
  }

  lemma SignedSays(p: Primitives, d: Direction, iv: Bytes, sequence: nat, offline: Bytes)
    requires CipherLaws(p) && |iv| == 16 && |offline| < TWO31 - 1000
    ensures var signed := HeaderAndBody(p, d, iv, sequence, offline);
      && GetBytes(signed, 1) == Some(Header(iv))
      && GetBytes(signed, 2) == Some(AesEncrypt(p, Plain(offline, sequence), d.cipherKey, iv))
  {
    hide Encode, GetBytes, Header, Plain, AesEncrypt, CipherLaws;
    PlainSize(offline, sequence);
    HeaderSize(iv);
    CiphertextSize(p, Plain(offline, sequence), d.cipherKey, iv);
    var fields := [B(1, Header(iv)), B(2, AesEncrypt(p, Plain(offline, sequence), d.cipherKey, iv))];
    BytesAt(fields, 1, 0);
    BytesAt(fields, 2, 1);
  }

  lemma HeaderFields(iv: Bytes)
    requires |iv| == 16
    ensures var h := Header(iv);
      && GetVarint(h, 1) == Some(1) && GetVarint(h, 2) == Some(2) && GetBytes(h, 5) == Some(iv)
      && GetBytes(h, 6).Some?
      && GetVarint(GetBytes(h, 6).value, 1) == Some(13) && GetVarint(GetBytes(h, 6).value, 2) == Some(1)
  {
    hide Encode, GetBytes, GetVarint;
    var meta := [V(1, 13), V(2, 1)];
    SmallSize(meta);
    VarintAt(meta, 1, 0);
    VarintAt(meta, 2, 1);
    var fields := [V(1, 1), V(2, 2), B(5, iv), B(6, Encode(meta))];
    VarintAt(fields, 1, 0);
    VarintAt(fields, 2, 1);
    BytesAt(fields, 5, 2);
    BytesAt(fields, 6, 3);
  }

  lemma PlainSays(offline: Bytes, sequence: nat)
    requires |offline| < TWO31
    ensures GetBytes(Plain(offline, sequence), 1) == Some(offline)
    ensures GetVarint(Plain(offline, sequence), 2) == Some(sequence % TWO64)
  {
    hide Encode, GetBytes, GetVarint;
    var fields := [B(1, offline), V(2, sequence % TWO64)];
    BytesAt(fields, 1, 0);
    VarintAt(fields, 2, 1);
  }

  // ---------------------------------------------------------------- UKEY2

  /** ServerInit: kind 3, version 1, the nonce, cipher 100, and the receiver's own point. */
  lemma ServerInitSays(e: R.Env)
    requires R.GoodEnv(e) && CurveLaws(e.p)
    ensures var frame := R.ServerInit(e);
      && Inner(frame, [2, 2]) == Some(e.nonce)
      && exists generic: Bytes :: Offers(frame, generic) && Presents(generic, e.p.publicPoint(e.secret))
  {
    hide Encode, GetBytes, GetVarint, V1, GenericPublic, ParsePublic, Presents;
    var q := e.p.publicPoint(e.secret);
    var generic := GenericPublic(q);
    PublicRoundTrip(q);
    PublicMeaning(generic, q);
    var fields := [V(1, 1), B(2, e.nonce), V(3, 100), B(4, generic)];
    VarintAt(fields, 1, 0);
    BytesAt(fields, 2, 1);
    VarintAt(fields, 3, 2);
    BytesAt(fields, 4, 3);
    SmallSize(fields);
    V1Parts(3, 2, Encode(fields));
    FieldPaths(R.ServerInit(e), 2, 2, 0);
    FieldPaths(R.ServerInit(e), 2, 4, 0);
    assert Offers(R.ServerInit(e), generic);
  }

  /** ClientFinish: kind 4 and the sender's own point; and ClientInit: kind 2, version 1, the nonce, the one
      protocol, and the commitment to ClientFinish. */
  lemma ClientFramesSay(e: S.SenderEnv)
    requires S.GoodSenderEnv(e) && CurveLaws(e.p) && HashLaws(e.p)
    ensures exists generic: Bytes ::
      Finishes(S.ClientFinish(e), generic) && Presents(generic, e.p.publicPoint(e.secret))
    ensures Initiates(S.ClientInit(e), e.p.sha512(S.ClientFinish(e)))
    ensures Inner(S.ClientInit(e), [2, 2]) == Some(e.nonce)
  {
    hide Encode, GetBytes, GetVarint, V1, GenericPublic, ParsePublic, Presents, Initiates, Finishes, S.ClientFinish,
         R.ParseClientFinish, R.ParseClientInit, S.Commitment;
    var q := e.p.publicPoint(e.secret);
    PublicRoundTrip(q);
    PublicMeaning(GenericPublic(q), q);
    FinishRead(e);
    FinishMeaning(S.ClientFinish(e), GenericPublic(q));
    assert Finishes(S.ClientFinish(e), GenericPublic(q));
    InitRead(e);
    InitMeaning(S.ClientInit(e), e.p.sha512(S.ClientFinish(e)));
    NonceSent(e);
  }

  lemma NonceSent(e: S.SenderEnv)
    requires S.GoodSenderEnv(e) && HashLaws(e.p)
    ensures Inner(S.ClientInit(e), [2, 2]) == Some(e.nonce)
  {
    hide Encode, GetBytes, GetVarint, V1, S.Commitment;
    CommitmentFound(e);
    var protocol := Ascii("AES_256_CBC-HMAC_SHA256");
    var fields := [V(1, 1), B(2, e.nonce), B(3, S.Commitment(e)), B(4, protocol)];
    BytesAt(fields, 2, 1);
    SmallSize(fields);
    V1Parts(2, 2, Encode(fields));
    FieldPaths(S.ClientInit(e), 2, 2, 0);
  }

  // ---------------------------------------------------------------- responses and the paired key

  /** Both accept in field 3 and name their system, 100; the receiver adds the legacy status of zero and the
      sender asks for a safe disconnection. */
  lemma ConnectionResponsesSay()
    ensures var frame := R.ConnectionResponse();
      && VarintIn(frame, [], 1) == Some(1) && VarintIn(frame, [2], 1) == Some(2)
      && VarintIn(frame, [2, 3], 3) == Some(1) && VarintIn(frame, [2, 3, 4], 1) == Some(100)
      && VarintIn(frame, [2, 3], 1) == Some(0)
    ensures var frame := S.ConnectionResponse();
      && VarintIn(frame, [], 1) == Some(1) && VarintIn(frame, [2], 1) == Some(2)
      && VarintIn(frame, [2, 3], 3) == Some(1) && VarintIn(frame, [2, 3, 4], 1) == Some(100)
      && VarintIn(frame, [2, 3], 7) == Some(1)
  {
    hide Encode, GetBytes, GetVarint, V1, Versioned;
    var system := [V(1, 100)];
    SmallSize(system);
    VarintAt(system, 1, 0);
    var first := [V(1, 0), V(3, 1), B(4, Encode(system))];
    VarintAt(first, 1, 0);
    VarintAt(first, 3, 1);
    BytesAt(first, 4, 2);
    SmallSize(first);
    VersionedFrame(2, 3, Encode(first));
    FieldPaths(R.ConnectionResponse(), 2, 3, 4);
    var second := [V(3, 1), V(7, 1), B(4, Encode(system))];
    VarintAt(second, 3, 0);
    VarintAt(second, 7, 1);
    BytesAt(second, 4, 2);
    SmallSize(second);
    VersionedFrame(2, 3, Encode(second));
    FieldPaths(S.ConnectionResponse(), 2, 3, 4);
  }

  /** The paired key: kind 3, with signed data and hash; its result: kind 4, status 3. Both ends say the same. */
  lemma PairedSays(data: Bytes, hash: Bytes)
    requires |data| == 72 && |hash| == 6
    ensures var frame := R.PairedKeyEncryption(data, hash);
      && VarintIn(frame, [2], 1) == Some(3)
      && Inner(frame, [2, 4, 1]) == Some(data) && Inner(frame, [2, 4, 2]) == Some(hash)
    ensures VarintIn(R.PairedKeyResult(), [2], 1) == Some(4) && VarintIn(R.PairedKeyResult(), [2, 5], 1) == Some(3)
    ensures S.PairedKeyResult() == R.PairedKeyResult()
    ensures forall e: S.SenderEnv :: e.pairedData == data && e.pairedHash == hash ==>
      S.PairedKeyEncryption(e) == R.PairedKeyEncryption(data, hash)
  {
    hide Encode, GetBytes, GetVarint, V1, Versioned;
    var fields := [B(1, data), B(2, hash)];
    BytesAt(fields, 1, 0);
    BytesAt(fields, 2, 1);
    SmallSize(fields);
    VersionedFrame(3, 4, Encode(fields));
    FieldPaths(R.PairedKeyEncryption(data, hash), 2, 4, 1);
    FieldPaths(R.PairedKeyEncryption(data, hash), 2, 4, 2);
    var status := [V(1, 3)];
    VarintAt(status, 1, 0);
    SmallSize(status);
    VersionedFrame(4, 5, Encode(status));
    FieldPaths(R.PairedKeyResult(), 2, 5, 0);
  }

  // ---------------------------------------------------------------- payloads

  /** The header of a payload: its identifier, kind and size, not sensitive, and the name of a file if it has one. */
  lemma PayloadHeaderSays(id: u64, kind: u64, total: u64, name: Option<Bytes>)
    requires name.Some? ==> |name.value| < TWO31
    ensures var header := PayloadHeader(id, kind, total, name);
      && GetVarint(header, 1) == Some(id) && GetVarint(header, 2) == Some(kind) && GetVarint(header, 3) == Some(total)
      && GetVarint(header, 4) == Some(0) && GetBytes(header, 5) == name
  {
    hide Encode, GetVarint, GetBytes;
    HeaderParts(id, kind, total, name);
    var fields := [V(1, id), V(2, kind), V(3, total), V(4, 0)] + if name.Some? then [B(5, name.value)] else [];
    VarintAt(fields, 4, 3);
    if name.Some? {
      BytesAt(fields, 5, 4);
    } else {
      BytesAbsent(fields, 5);
    }
  }
}
