/** The states the two ends pass through from the first frame to the question put to the receiver's
    user, in terms of how many frames each has taken, and the frames each has sent by then. */
module HandshakeStates {
  import opened ByteStrings
  import opened ProtoWire
  import opened Crypto
  import opened Framing
  import opened SecureChannel
  import opened KeyAgreement
  import opened Frames
  import opened Exchange
  import opened Announcement
  import opened HandshakeFrames
  import Destination
  import R = Receiver
  import S = Sender

  /** Two ends about to meet. The links carry at least the frames of the handshake. */
  datatype Peers = Peers(e: S.SenderEnv, g: R.Env, disk: map<Destination.Path, Bytes>, space: nat, consent: int,
                         senderLink: nat, receiverLink: nat)

  ghost predicate Compatible(h: Peers) {
    && h.e.p == h.g.p && Lawful(h.e.p) && S.GoodSenderEnv(h.e) && R.GoodEnv(h.g)
    && h.senderLink >= 10 && h.receiverLink >= 6 && h.consent != 0
    && Announceable(h.e.files) && h.e.files != []
    && |S.IntroductionBody(h.e.files)| <= 5 * 1024 * 1024 - 1100
    && h.g.preflight(TotalSize(h.e.files))
  }

  // ---------------------------------------------------------------- what they agree on

  function Transcript(h: Peers): Bytes { S.ClientInit(h.e) + R.ServerInit(h.g) }

  function Agreed(h: Peers): Agreement {
    Derive(h.e.p, h.e.p.ecdh(h.e.secret, h.e.p.publicPoint(h.g.secret)), Transcript(h))
  }

  lemma AgreedByBoth(h: Peers)
    requires Compatible(h)
    ensures Agree(h.e.p, h.e.secret, h.g.p.publicPoint(h.g.secret), Transcript(h)) == Some(Agreed(h))
    ensures Agree(h.g.p, h.g.secret, h.e.p.publicPoint(h.e.secret), Transcript(h)) == Some(Agreed(h))
    ensures GoodKeys(Agreed(h).client) && GoodKeys(Agreed(h).server)
  {
    hide Derive, Transcript;
    AgreementsMatch(h.e.p, h.e.secret, h.g.secret, Transcript(h));
    AgreementKeys(h.e.p, h.e.p.ecdh(h.e.secret, h.e.p.publicPoint(h.g.secret)), Transcript(h));
  }

  /** What most steps need of it. */
  lemma Basics(h: Peers)
    requires Compatible(h)
    ensures h.e.p == h.g.p && ChannelLaws(h.e.p) && GoodIvs(h.e.ivs) && GoodIvs(h.g.ivs)
    ensures h.senderLink >= 10 && h.receiverLink >= 6 && h.consent != 0
  {
    hide HashLaws, CipherLaws, CurveLaws, Announceable;
  }

  lemma IvSize(ivs: Ivs, k: nat)
    requires GoodIvs(ivs)
    ensures |ivs(k)| == 16
  {
  }

  lemma KeysGood(h: Peers)
    requires Compatible(h)
    ensures GoodKeys(Agreed(h).client) && GoodKeys(Agreed(h).server)
  {
    hide Agree, Agreed, Compatible;
    AgreedByBoth(h);
  }

  // ---------------------------------------------------------------- sealed pairs

  /** The two frames of a sharing frame, sealed after n others. */
  function SealedPair(p: Primitives, d: Direction, ivs: Ivs, n: nat, id: u64, sharing: Bytes): (r: seq<Bytes>)
    requires |sharing| < TWO64
    ensures |r| == 2
  {
    [Seal(p, d, ivs(n + 1), n + 1, Pair(id, sharing)[0]), Seal(p, d, ivs(n + 2), n + 2, Pair(id, sharing)[1])]
  }

  lemma NeverEmpty(p: Primitives, plain: Bytes, key: Bytes, iv: Bytes)
    requires CipherLaws(p) && |key| == 32 && |iv| == 16
    ensures AesEncrypt(p, plain, key, iv) != []
  {
  }

  lemma SenderSendsPair(e: S.SenderEnv, s: S.Sender, sharing: Bytes)
    requires ChannelLaws(e.p) && GoodIvs(e.ivs) && GoodKeys(s.sendKeys) && s.link >= 2 && |sharing| < TWO31
    ensures S.SendSharing(e, s, sharing) == S.Sent(
      s.(drawn := s.drawn + 1, sendSequence := s.sendSequence + 2, link := s.link - 2,
         outbox := s.outbox + SealedPair(e.p, s.sendKeys, e.ivs, s.sendSequence, S.Negative(e.ids(s.drawn)),
                                           sharing)), true)
  {
    hide Seal, DataFrame, LastFrame, AesEncrypt, CipherLaws, Plain;
    var n, pair := s.sendSequence, Pair(S.Negative(e.ids(s.drawn)), sharing);
    NeverEmpty(e.p, Plain(pair[0], n + 1), s.sendKeys.cipherKey, e.ivs(n + 1));
    NeverEmpty(e.p, Plain(pair[1], n + 2), s.sendKeys.cipherKey, e.ivs(n + 2));
    var sealed := SealedPair(e.p, s.sendKeys, e.ivs, n, S.Negative(e.ids(s.drawn)), sharing);
    assert s.outbox + [sealed[0]] + [sealed[1]] == s.outbox + sealed;
  }

  lemma ReceiverSendsPair(g: R.Env, r: R.Session, sharing: Bytes)
    requires ChannelLaws(g.p) && GoodIvs(g.ivs) && GoodKeys(r.sendKeys) && r.link >= 2 && |sharing| < TWO31
    ensures R.SendSharing(g, r, sharing) == R.Result(
      r.(drawn := r.drawn + 1, serverSequence := r.serverSequence + 2, link := r.link - 2,
         outbox := r.outbox + SealedPair(g.p, r.sendKeys, g.ivs, r.serverSequence, g.ids(r.drawn), sharing)), true)
  {
    hide Seal, DataFrame, LastFrame, AesEncrypt, CipherLaws, Plain;
    var n, pair := r.serverSequence, Pair(g.ids(r.drawn), sharing);
    NeverEmpty(g.p, Plain(pair[0], n + 1), r.sendKeys.cipherKey, g.ivs(n + 1));
    NeverEmpty(g.p, Plain(pair[1], n + 2), r.sendKeys.cipherKey, g.ivs(n + 2));
    var sealed := SealedPair(g.p, r.sendKeys, g.ivs, n, g.ids(r.drawn), sharing);
    assert r.outbox + [sealed[0]] + [sealed[1]] == r.outbox + sealed;
  }

  // ---------------------------------------------------------------- the transcripts

  function ReceiverPairedKey(h: Peers): Bytes { R.PairedKeyEncryption(h.g.pairedData, h.g.pairedHash) }

  lemma SharingSizes(h: Peers)
    requires Compatible(h)
    ensures forall k: nat :: |Said(h, k)| <= 5 * 1024 * 1024 - 1000
    ensures |ReceiverPairedKey(h)| <= 300 && |R.PairedKeyResult()| <= 300
  {
    hide Encode, Versioned, S.IntroductionBody, Announceable, TotalSize, Lawful;
    PairedSizes(h.e.pairedData, h.e.pairedHash);
    PairedSizes(h.g.pairedData, h.g.pairedHash);
    SharingRead(3, 4, Encode([B(1, h.e.pairedData), B(2, h.e.pairedHash)]));
    SharingRead(3, 4, Encode([B(1, h.g.pairedData), B(2, h.g.pairedHash)]));
    SharingRead(4, 5, Encode([V(1, 3)]));
    SharingRead(1, 2, S.IntroductionBody(h.e.files));
  }

  function SenderPair(h: Peers, k: nat, sharing: Bytes): (r: seq<Bytes>)
    ensures |r| == 2
  {
    if |sharing| < TWO64 then SealedPair(h.e.p, Agreed(h).client, h.e.ivs, 2 * k, S.Negative(h.e.ids(k)), sharing)
    else [[], []]
  }

  function ReceiverPair(h: Peers, k: nat, sharing: Bytes): (r: seq<Bytes>)
    ensures |r| == 2
  {
    if |sharing| < TWO64 then SealedPair(h.g.p, Agreed(h).server, h.g.ivs, 2 * k, h.g.ids(k), sharing) else [[], []]
  }

  /** What the sender has said after each of its five turns to speak, and the receiver after each of its three. */
  function Spoken(h: Peers, turns: nat): seq<Bytes> {
    if turns == 0 then []
    else if turns == 1 then [S.ConnectionRequest(h.e), S.ClientInit(h.e)]
    else if turns == 2 then Spoken(h, 1) + [S.ClientFinish(h.e), S.ConnectionResponse()]
    else if turns == 3 then Spoken(h, 2) + SenderPair(h, 0, Said(h, 0))
    else if turns == 4 then Spoken(h, 3) + SenderPair(h, 1, Said(h, 1))
    else Spoken(h, 4) + SenderPair(h, 2, Said(h, 2))
  }

  /** The sender's three sharing frames. */
  function Said(h: Peers, k: nat): Bytes {
    if k == 0 then S.PairedKeyEncryption(h.e) else if k == 1 then S.PairedKeyResult() else S.Introduction(h.e.files)
  }

  function Answered(h: Peers, turns: nat): seq<Bytes> {
    if turns == 0 then []
    else if turns == 1 then [R.ServerInit(h.g)]
    else if turns == 2 then Answered(h, 1) + [R.ConnectionResponse()] + ReceiverPair(h, 0, ReceiverPairedKey(h))
    else Answered(h, 2) + ReceiverPair(h, 1, R.PairedKeyResult())
  }

  lemma SpokenNext(h: Peers, k: nat)
    requires k <= 2
    ensures Spoken(h, k + 3) == Spoken(h, k + 2) + SenderPair(h, k, Said(h, k))
  {
    hide SenderPair, Said, S.ConnectionRequest, S.ClientInit, S.ClientFinish, S.ConnectionResponse;
  }

  lemma SenderPairParts(h: Peers, k: nat, sharing: Bytes)
    requires |sharing| < TWO31
    ensures var pair := SenderPair(h, k, sharing);
      && pair == SealedPair(h.e.p, Agreed(h).client, h.e.ivs, 2 * k, S.Negative(h.e.ids(k)), sharing)
      && pair[0] == Seal(h.e.p, Agreed(h).client, h.e.ivs(2 * k + 1), 2 * k + 1,
                          Pair(S.Negative(h.e.ids(k)), sharing)[0])
      && pair[1] == Seal(h.e.p, Agreed(h).client, h.e.ivs(2 * k + 2), 2 * k + 2,
                          Pair(S.Negative(h.e.ids(k)), sharing)[1])
  {
    hide Seal, Agreed, DataFrame, LastFrame;
  }

  lemma ReceiverPairParts(h: Peers, k: nat, sharing: Bytes)
    requires |sharing| < TWO31
    ensures var pair := ReceiverPair(h, k, sharing);
      && pair == SealedPair(h.g.p, Agreed(h).server, h.g.ivs, 2 * k, h.g.ids(k), sharing)
      && pair[0] == Seal(h.g.p, Agreed(h).server, h.g.ivs(2 * k + 1), 2 * k + 1, Pair(h.g.ids(k), sharing)[0])
      && pair[1] == Seal(h.g.p, Agreed(h).server, h.g.ivs(2 * k + 2), 2 * k + 2, Pair(h.g.ids(k), sharing)[1])
  {
    hide Seal, Agreed, DataFrame, LastFrame;
  }

  // ---------------------------------------------------------------- the states

  /** The sender's steps: the opening is the first, and the others take one frame each. */
  function SenderAt(h: Peers, step: nat): S.Sender {
    if step == 0 then S.FreshSender(h.senderLink)
    else if step == 1 then
      S.FreshSender(Minus(h.senderLink, 2)).(stage := S.AwaitServerInit, clientInit := S.ClientInit(h.e),
                                           outbox := Spoken(h, 1))
    else if step == 2 then SenderTalking(h, S.AwaitConnectionResponse, 2)
    else if step == 3 then SenderTalking(h, S.AwaitPairedKey, 3)
    else if step == 4 then Hearing(SenderTalking(h, S.AwaitPairedKey, 3), 1, map[h.g.ids(0) := ReceiverPairedKey(h)])
    else if step == 5 then Hearing(SenderTalking(h, S.AwaitPairedResult, 4), 2, map[])
    else if step == 6 then Hearing(SenderTalking(h, S.AwaitPairedResult, 4), 3, map[h.g.ids(1) := R.PairedKeyResult()])
    else Hearing(SenderTalking(h, S.AwaitDecision, 5), 4, map[])
  }

  function Hearing(s: S.Sender, heard: nat, controls: map<u64, Bytes>): S.Sender {
    s.(receiveSequence := heard, controls := controls)
  }

  function Minus(a: nat, b: nat): nat { if a >= b then a - b else 0 }

  /** The sender after so many turns, from the second on, with nothing received under the keys. */
  function SenderTalking(h: Peers, stage: S.Stage, turns: nat): S.Sender {
    S.Sender(stage, S.ClientInit(h.e), Agreed(h).pin, Agreed(h).client, Agreed(h).server,
             Minus(2 * turns, 4), 0, Minus(turns, 2), map[], false, Minus(h.senderLink, 2 * turns), Spoken(h, turns))
  }

  /** The receiver after `taken` frames. */
  function ReceiverAt(h: Peers, taken: nat): R.Session {
    if taken <= 1 then R.Fresh(h.disk, h.space, h.receiverLink, h.consent).(stage := taken)
    else if taken == 2 then
      Anonymous(ReceiverTalking(h, R.PlainHandshake, 1))
    else if taken == 3 then ReceiverTalking(h, R.PlainHandshake, 1).(stage := 3)
    else if taken == 4 then ReceiverTalking(h, R.AwaitPairedEncryption, 2)
    else if taken == 5 then
      Collecting(ReceiverTalking(h, R.AwaitPairedEncryption, 2), 1, S.Negative(h.e.ids(0)), Said(h, 0))
    else if taken == 6 then ReceiverTalking(h, R.AwaitPairedResult, 3).(clientSequence := 2)
    else if taken == 7 then
      Collecting(ReceiverTalking(h, R.AwaitPairedResult, 3), 3, S.Negative(h.e.ids(1)), Said(h, 1))
    else if taken == 8 then ReceiverTalking(h, R.AwaitIntroduction, 3).(clientSequence := 4)
    else if taken == 9 then
      Collecting(ReceiverTalking(h, R.AwaitIntroduction, 3), 5, S.Negative(h.e.ids(2)), Said(h, 2))
    else Asking(h)
  }

  /** Before the keys are agreed. */
  function Anonymous(r: R.Session): R.Session {
    r.(pin := "", receiveKeys := Direction([], []), sendKeys := Direction([], []), stage := 2)
  }

  function ReceiverTalking(h: Peers, state: R.State, turns: nat): R.Session {
    R.Fresh(h.disk, h.space, Minus(h.receiverLink, if turns == 1 then 1 else 2 * turns), h.consent).(
      state := state, stage := 4, clientInit := S.ClientInit(h.e), serverInit := R.ServerInit(h.g),
      commitment := h.e.p.sha512(S.ClientFinish(h.e)), pin := Agreed(h).pin, receiveKeys := Agreed(h).client,
      sendKeys := Agreed(h).server, serverSequence := Minus(2 * turns, 2), drawn := Minus(turns, 1),
      outbox := Answered(h, turns))
  }

  function Collecting(r: R.Session, taken: nat, id: u64, sharing: Bytes): R.Session {
    r.(clientSequence := taken, buffers := map[ToInt64(id) := sharing], buffered := |sharing|)
  }

  /** The receiver once its user has been asked. */
  function Asking(h: Peers): R.Session {
    Announce(h.g, ReceiverTalking(h, R.AwaitIntroduction, 3).(clientSequence := 6), h.e.files).(
      total := TotalSize(h.e.files), received := 0, consent := 0, state := R.AwaitConsent)
  }
}
