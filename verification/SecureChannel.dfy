/** The sealed message layer: sendEncryptedOffline and decryptOffline of both ends. */
module SecureChannel {
  import opened ByteStrings
  import opened ProtoWire
  import opened Crypto
  import opened Framing

  /** The keys of one direction of the channel. */
  datatype Direction = Direction(cipherKey: Bytes, macKey: Bytes)

  ghost predicate GoodKeys(d: Direction) { |d.cipherKey| == 32 && |d.macKey| == 32 }

  /** The random IV of the k-th message. */
  type Ivs = nat -> Bytes
  ghost predicate GoodIvs(ivs: Ivs) { forall k: nat :: |ivs(k)| == 16 }

  // ---------------------------------------------------------------- layout

  function Plain(offline: Bytes, sequence: nat): Bytes {
    Encode([B(1, offline), V(2, sequence % TWO64)])
  }

  function Header(iv: Bytes): Bytes {
    Encode([V(1, 1), V(2, 2), B(5, iv), B(6, Encode([V(1, 13), V(2, 1)]))])
  }

  function HeaderAndBody(p: Primitives, d: Direction, iv: Bytes, sequence: nat, offline: Bytes): Bytes {
    Encode([B(1, Header(iv)), B(2, AesEncrypt(p, Plain(offline, sequence), d.cipherKey, iv))])
  }

  function Seal(p: Primitives, d: Direction, iv: Bytes, sequence: nat, offline: Bytes): Bytes {
    var signed := HeaderAndBody(p, d, iv, sequence, offline);
    Encode([B(1, signed), B(2, p.hmac(d.macKey, signed))])
  }

  // ---------------------------------------------------------------- opening

  /** The signed part, when its MAC matches. */
  function Verified(p: Primitives, d: Direction, secure: Bytes): Option<Bytes> {
    match (GetBytes(secure, 1), GetBytes(secure, 2))
    case (Some(signed), Some(mac)) => if mac == p.hmac(d.macKey, signed) then Some(signed) else None
    case _ => None
  }

  datatype Opened = Opened(offline: Bytes, sequence: u64)

  function Decrypted(p: Primitives, d: Direction, signed: Bytes): Option<Opened> {
    match (GetBytes(signed, 1), GetBytes(signed, 2))
    case (Some(header), Some(body)) =>
      (match GetBytes(header, 5)
       case None => None
       case Some(iv) =>
         var plain := AesDecrypt(p, body, d.cipherKey, iv);
         if plain == [] then None
         else match (GetBytes(plain, 1), GetVarint(plain, 2))
              case (Some(offline), Some(sequence)) => Some(Opened(offline, sequence))
              case _ => None)
    case _ => None
  }

  /** decryptOffline with `counter` messages already accepted. */
  function Open(p: Primitives, d: Direction, counter: nat, secure: Bytes): Option<Bytes> {
    match Verified(p, d, secure)
    case None => None
    case Some(signed) =>
      match Decrypted(p, d, signed)
      case None => None
      case Some(m) => if m.sequence == (counter + 1) % TWO64 then Some(m.offline) else None
  }

  /** Field 2 of the message is the MAC of field 1. */
  ghost predicate Authentic(p: Primitives, d: Direction, secure: Bytes) {
    && GetBytes(secure, 1).Some?
    && GetBytes(secure, 2) == Some(p.hmac(d.macKey, GetBytes(secure, 1).value))
  }

  /** The plaintext inside its signed part: IV in field 5 of the header, ciphertext beside the header. */
  function Inside(p: Primitives, d: Direction, signed: Bytes): Option<Bytes> {
    var header, body := GetBytes(signed, 1), GetBytes(signed, 2);
    if header.Some? && body.Some? && GetBytes(header.value, 5).Some?
    then Some(AesDecrypt(p, body.value, d.cipherKey, GetBytes(header.value, 5).value)) else None
  }

  /** A message opens exactly if its MAC is right, its inside decrypts to something, and that carries the
      next sequence number beside the offline frame. */
  lemma OpenMeaning(p: Primitives, d: Direction, counter: nat, secure: Bytes, offline: Bytes)
    ensures Open(p, d, counter, secure) == Some(offline) <==>
      && Authentic(p, d, secure)
      && var plain := Inside(p, d, GetBytes(secure, 1).value);
         plain.Some? && plain.value != []
         && GetBytes(plain.value, 1) == Some(offline) && GetVarint(plain.value, 2) == Some((counter + 1) % TWO64)
  {
    hide GetBytes, GetVarint, AesDecrypt;
  }

  /** So no message with another MAC opens, whoever wrote it. */
  lemma OnlyAuthentic(p: Primitives, d: Direction, counter: nat, secure: Bytes)
    ensures Open(p, d, counter, secure).Some? ==>
      Authentic(p, d, secure) && Verified(p, d, secure) == Some(GetBytes(secure, 1).value)
  {
    hide GetBytes, GetVarint, Decrypted;
  }

  method SealOffline(p: Primitives, d: Direction, iv: Bytes, sequence: nat, offline: Bytes) returns (secure: Bytes)
    requires CipherLaws(p) && HashLaws(p) && |offline| < TWO31 - 1000 && |iv| <= 16
    ensures secure == Seal(p, d, iv, sequence, offline)
  {
    hide Encode;
    SealSizes(p, d, iv, sequence, offline);
    var d2d := new Message();
    AppendBytes(d2d, 1, offline);
    AppendVarint(d2d, 2, sequence % TWO64);
    assert d2d.fields == [B(1, offline), V(2, sequence % TWO64)];
    PlainSize(offline, sequence);
    CiphertextSize(p, d2d.bytes, d.cipherKey, iv);
    var encrypted := AesEncrypt(p, d2d.bytes, d.cipherKey, iv);
    var header := SealHeader(iv);
    var headerAndBody := new Message();
    AppendBytes(headerAndBody, 1, header);
    AppendBytes(headerAndBody, 2, encrypted);
    assert headerAndBody.fields == [B(1, header), B(2, encrypted)];
    TwoPartsSize(header, encrypted);
    var mac := p.hmac(d.macKey, headerAndBody.bytes);
    assert |mac| == 32;
    var secureMessage := new Message();
    AppendBytes(secureMessage, 1, headerAndBody.bytes);
    AppendBytes(secureMessage, 2, mac);
    assert secureMessage.fields == [B(1, headerAndBody.bytes), B(2, mac)];
    return secureMessage.bytes;
  }

  method SealHeader(iv: Bytes) returns (r: Bytes)
    requires |iv| <= 16
    ensures r == Header(iv) && |r| <= 140
  {
    hide Encode;
    HeaderSize(iv);
    var metadata := new Message();
    AppendVarint(metadata, 1, 13);
    AppendVarint(metadata, 2, 1);
    assert metadata.fields == [V(1, 13), V(2, 1)];
    SmallSize(metadata.fields);
    var header := new Message();
    AppendVarint(header, 1, 1);
    AppendVarint(header, 2, 2);
    AppendBytes(header, 5, iv);
    AppendBytes(header, 6, metadata.bytes);
    assert header.fields == [V(1, 1), V(2, 2), B(5, iv), B(6, metadata.bytes)];
    return header.bytes;
  }

  /** The counter moves with the check of the sequence number, whether that succeeds or not. */
  function CountAfter(p: Primitives, d: Direction, counter: nat, secure: Bytes): nat {
    match Verified(p, d, secure)
    case None => counter
    case Some(signed) => if Decrypted(p, d, signed) == None then counter else counter + 1
  }

  method DecryptOffline(p: Primitives, d: Direction, counter: nat, secure: Bytes) returns (r: Option<Bytes>, next: nat)
    ensures r == Open(p, d, counter, secure) && next == CountAfter(p, d, counter, secure)
  {
    hide GetBytes, GetVarint;
    next := counter;
    var headerAndBody := FindBytes(secure, 1);
    var signature := FindBytes(secure, 2);
    if headerAndBody == None || signature == None || signature.value != p.hmac(d.macKey, headerAndBody.value) {
      return None, next;
    }
    var header := FindBytes(headerAndBody.value, 1);
    var body := FindBytes(headerAndBody.value, 2);
    if header == None || body == None {
      return None, next;
    }
    var iv := FindBytes(header.value, 5);
    if iv == None {
      return None, next;
    }
    var plain := AesDecrypt(p, body.value, d.cipherKey, iv.value);
    if plain == [] {
      return None, next;
    }
    var message := FindBytes(plain, 1);
    var sequence := FindVarint(plain, 2);
    if message == None || sequence == None {
      return None, next;
    }
    next := next + 1;
    return if sequence.value == next % TWO64 then message else None, next;
  }

  // ---------------------------------------------------------------- sizes

  lemma PlainSize(offline: Bytes, sequence: nat)
    requires |offline| < TWO31
    ensures |offline| <= |Plain(offline, sequence)| <= |offline| + 40
  {
    SmallSize([B(1, offline), V(2, sequence % TWO64)]);
  }

  lemma HeaderSize(iv: Bytes)
    requires |iv| <= 16
    ensures |Header(iv)| <= 140
  {
    var metadata := Encode([V(1, 13), V(2, 1)]);
    SmallSize([V(1, 13), V(2, 1)]);
    SmallSize([V(1, 1), V(2, 2), B(5, iv), B(6, metadata)]);
  }

  lemma CiphertextSize(p: Primitives, plain: Bytes, key: Bytes, iv: Bytes)
    requires CipherLaws(p)
    ensures |AesEncrypt(p, plain, key, iv)| <= |plain| + 16
  {
  }

  lemma TwoPartsSize(first: Bytes, second: Bytes)
    requires |first| < TWO63 && |second| < TWO63
    ensures 0 < |Encode([B(1, first), B(2, second)])| <= |first| + |second| + 40
  {
    SmallSize([B(1, first), B(2, second)]);
  }

  /** Everything sealing adds fits in 320 bytes. */
  lemma SealSizes(p: Primitives, d: Direction, iv: Bytes, sequence: nat, offline: Bytes)
    requires CipherLaws(p) && HashLaws(p) && |offline| < TWO31 && |iv| <= 16
    ensures |HeaderAndBody(p, d, iv, sequence, offline)| <= |offline| + 240
    ensures 0 < |Seal(p, d, iv, sequence, offline)| <= |offline| + 320
  {
    hide Encode, Header, Plain, AesEncrypt, CipherLaws;
    var plain := Plain(offline, sequence);
    PlainSize(offline, sequence);
    HeaderSize(iv);
    CiphertextSize(p, plain, d.cipherKey, iv);
    TwoPartsSize(Header(iv), AesEncrypt(p, plain, d.cipherKey, iv));
    var signed := HeaderAndBody(p, d, iv, sequence, offline);
    TwoPartsSize(signed, p.hmac(d.macKey, signed));
  }

  // ---------------------------------------------------------------- sealing and opening are inverse

  lemma PlainParts(offline: Bytes, sequence: nat)
    requires |offline| < TWO31
    ensures GetBytes(Plain(offline, sequence), 1) == Some(offline)
    ensures GetVarint(Plain(offline, sequence), 2) == Some(sequence % TWO64)
    ensures Plain(offline, sequence) != []
  {
    var fields := [B(1, offline), V(2, sequence % TWO64)];
    BytesAt(fields, 1, 0);
    VarintAt(fields, 2, 1);
  }

  lemma HeaderIv(iv: Bytes)
    requires |iv| <= 16
    ensures GetBytes(Header(iv), 5) == Some(iv)
  {
    SmallSize([V(1, 13), V(2, 1)]);
    BytesAt([V(1, 1), V(2, 2), B(5, iv), B(6, Encode([V(1, 13), V(2, 1)]))], 5, 2);
  }

  lemma TwoParts(first: Bytes, second: Bytes)
    requires |first| < TWO64 && |second| < TWO64
    ensures var message := Encode([B(1, first), B(2, second)]);
      GetBytes(message, 1) == Some(first) && GetBytes(message, 2) == Some(second)
  {
    hide Encode, GetBytes;
    BytesAt([B(1, first), B(2, second)], 1, 0);
    BytesAt([B(1, first), B(2, second)], 2, 1);
  }

  lemma Verifies(p: Primitives, d: Direction, signed: Bytes)
    requires HashLaws(p) && |signed| < TWO63
    ensures Verified(p, d, Encode([B(1, signed), B(2, p.hmac(d.macKey, signed))])) == Some(signed)
  {
    hide Encode, GetBytes;
    TwoParts(signed, p.hmac(d.macKey, signed));
  }

  lemma Decrypts(p: Primitives, d: Direction, iv: Bytes, plain: Bytes)
    requires CipherLaws(p) && GoodKeys(d) && |iv| == 16 && |plain| < TWO32 && plain != []
    ensures var signed := Encode([B(1, Header(iv)), B(2, AesEncrypt(p, plain, d.cipherKey, iv))]);
      Decrypted(p, d, signed) ==
        match (GetBytes(plain, 1), GetVarint(plain, 2))
        case (Some(offline), Some(sequence)) => Some(Opened(offline, sequence))
        case _ => None
  {
    hide Encode, GetBytes, GetVarint, Header;
    HeaderSize(iv);
    HeaderIv(iv);
    TwoParts(Header(iv), AesEncrypt(p, plain, d.cipherKey, iv));
    assert AesDecrypt(p, AesEncrypt(p, plain, d.cipherKey, iv), d.cipherKey, iv) == plain;
  }

  lemma SealedContents(p: Primitives, d: Direction, iv: Bytes, sequence: nat, offline: Bytes)
    requires CipherLaws(p) && HashLaws(p) && GoodKeys(d) && |iv| == 16 && |offline| < TWO31
    ensures var signed := HeaderAndBody(p, d, iv, sequence, offline);
      && Verified(p, d, Seal(p, d, iv, sequence, offline)) == Some(signed)
      && Decrypted(p, d, signed) == Some(Opened(offline, sequence % TWO64))
  {
    hide Encode, GetBytes, GetVarint, Header, Plain, Verified, Decrypted;
    var plain := Plain(offline, sequence);
    PlainSize(offline, sequence);
    PlainParts(offline, sequence);
    Decrypts(p, d, iv, plain);
    SealSizes(p, d, iv, sequence, offline);
    Verifies(p, d, HeaderAndBody(p, d, iv, sequence, offline));
  }

  /** The message sealed under sequence n opens exactly for a receiver that has accepted n - 1. */
  lemma SealOpen(p: Primitives, d: Direction, iv: Bytes, sequence: nat, offline: Bytes, counter: nat)
    requires CipherLaws(p) && HashLaws(p) && GoodKeys(d) && |iv| == 16 && |offline| < TWO31
    requires counter < TWO32 && 0 < sequence <= TWO32
    ensures Open(p, d, counter, Seal(p, d, iv, sequence, offline))
         == if sequence == counter + 1 then Some(offline) else None
  {
    hide Verified, Decrypted, HeaderAndBody, Seal, GoodKeys;
    SealedContents(p, d, iv, sequence, offline);
    assert sequence % TWO64 == sequence && (counter + 1) % TWO64 == counter + 1;
  }

  // ---------------------------------------------------------------- runs of the channel

  /** What a sender that has already sealed `counter` messages puts on the wire. */
  function SealAll(p: Primitives, d: Direction, ivs: Ivs, counter: nat, messages: seq<Bytes>): (r: seq<Bytes>)
    ensures |r| == |messages|
    decreases |messages|
  {
    if messages == [] then []
    else [Seal(p, d, ivs(counter + 1), counter + 1, messages[0])] + SealAll(p, d, ivs, counter + 1, messages[1..])
  }

  lemma {:induction false} SealAllAppend(p: Primitives, d: Direction, ivs: Ivs, n: nat, first: seq<Bytes>,
                                         more: seq<Bytes>)
    ensures SealAll(p, d, ivs, n, first + more) == SealAll(p, d, ivs, n, first) + SealAll(p, d, ivs, n + |first|, more)
    decreases |first|
  {
    hide Seal;
    if first == [] {
      assert first + more == more;
    } else {
      assert (first + more)[1..] == first[1..] + more;
      SealAllAppend(p, d, ivs, n + 1, first[1..], more);
    }
  }

  /** The plaintexts a receiver accepts before the first frame it refuses, which ends its run. */
  function AcceptAll(p: Primitives, d: Direction, counter: nat, delivered: seq<Bytes>): seq<Bytes>
    decreases |delivered|
  {
    hide Open;
    if delivered == [] then []
    else match Open(p, d, counter, delivered[0])
         case None => []
         case Some(m) => [m] + AcceptAll(p, d, counter + 1, delivered[1..])
  }

  /** Only what the peer signed carries its MAC: the channel may drop, repeat, reorder and rewrap
      messages, and insert anything whose MAC is wrong. */
  ghost predicate Unforged(p: Primitives, d: Direction, ivs: Ivs, sent: seq<Bytes>, delivered: seq<Bytes>) {
    forall f :: f in delivered && Authentic(p, d, f) ==>
      exists k :: 0 <= k < |sent| && GetBytes(f, 1).value == HeaderAndBody(p, d, ivs(k + 1), k + 1, sent[k])
  }

  ghost predicate Sendable(messages: seq<Bytes>) {
    |messages| < TWO31 && forall m :: m in messages ==> |m| < TWO31
  }

  /** A message that opens is the next one sent. */
  lemma OpensAsNext(p: Primitives, d: Direction, ivs: Ivs, sent: seq<Bytes>, counter: nat, f: Bytes, k: nat)
    requires CipherLaws(p) && HashLaws(p) && GoodKeys(d) && |ivs(k + 1)| == 16
    requires k < |sent| < TWO31 && |sent[k]| < TWO31 && counter <= |sent|
    requires Verified(p, d, f) == Some(HeaderAndBody(p, d, ivs(k + 1), k + 1, sent[k]))
    ensures Open(p, d, counter, f).Some? ==> k == counter && Open(p, d, counter, f) == Some(sent[k])
  {
    hide Verified, Decrypted, HeaderAndBody, Seal, GoodKeys, CipherLaws, HashLaws;
    SealedContents(p, d, ivs(k + 1), k + 1, sent[k]);
    assert (k + 1) % TWO64 == k + 1 && (counter + 1) % TWO64 == counter + 1;
  }

  /** Whatever the channel does, each side has accepted a prefix of what its peer sent. */
  lemma {:induction false} PrefixSafety(p: Primitives, d: Direction, ivs: Ivs, sent: seq<Bytes>,
                                        counter: nat, delivered: seq<Bytes>)
    requires CipherLaws(p) && HashLaws(p) && GoodKeys(d) && GoodIvs(ivs) && Sendable(sent)
    requires counter <= |sent| && Unforged(p, d, ivs, sent, delivered)
    ensures AcceptAll(p, d, counter, delivered) <= sent[counter..]
    decreases |delivered|
  {
    hide Verified, Decrypted, HeaderAndBody, Seal, GoodKeys, CipherLaws, HashLaws, GetBytes;
    if delivered != [] && Open(p, d, counter, delivered[0]).Some? {
      var f := delivered[0];
      assert f in delivered;
      OnlyAuthentic(p, d, counter, f);
      var k :| 0 <= k < |sent| && GetBytes(f, 1).value == HeaderAndBody(p, d, ivs(k + 1), k + 1, sent[k]);
      assert sent[k] in sent;
      OpensAsNext(p, d, ivs, sent, counter, f, k);
      PrefixSafety(p, d, ivs, sent, counter + 1, delivered[1..]);
      assert sent[counter..] == [sent[counter]] + sent[counter + 1..];
    }
  }

  /** And a faithful channel delivers everything. */
  lemma {:induction false} ChannelDelivers(p: Primitives, d: Direction, ivs: Ivs, counter: nat, sent: seq<Bytes>)
    requires CipherLaws(p) && HashLaws(p) && GoodKeys(d) && GoodIvs(ivs)
    requires counter + |sent| < TWO31 && forall m :: m in sent ==> |m| < TWO31
    ensures AcceptAll(p, d, counter, SealAll(p, d, ivs, counter, sent)) == sent
    decreases |sent|
  {
    hide Open, Seal, GoodKeys;
    if sent != [] {
      SealOpen(p, d, ivs(counter + 1), counter + 1, sent[0], counter);
      ChannelDelivers(p, d, ivs, counter + 1, sent[1..]);
      assert [sent[0]] + sent[1..] == sent;
    }
  }
}
