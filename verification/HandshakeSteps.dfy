/** Each end takes the frames of the other in turn and moves to its next state. */
module HandshakeSteps {
  import opened ByteStrings
  import opened ProtoWire
  import opened Crypto
  import opened Framing
  import opened SecureChannel
  import opened KeyAgreement
  import opened Frames
  import opened Exchange
  import opened Announcement
  import opened HandshakeFrames
  import opened HandshakeStates
  import R = Receiver
  import S = Sender

  // ---------------------------------------------------------------- the sender's steps

  lemma SenderOpens(h: Peers)
    requires Compatible(h)
    ensures S.Begin(h.e, SenderAt(h, 0)) == S.Sent(SenderAt(h, 1), true)
  {
    hide S.ConnectionRequest, S.ClientInit, Compatible, ChannelLaws;
    Basics(h);
    assert [] + [S.ConnectionRequest(h.e)] + [S.ClientInit(h.e)] == Spoken(h, 1);
  }

  lemma SenderAgrees(h: Peers)
    requires Compatible(h)
    ensures S.TakeFrame(h.e, SenderAt(h, 1), R.ServerInit(h.g)) == S.Sent(SenderAt(h, 2), true)
  {
    hide S.ClientFinish, S.ClientInit, S.ConnectionResponse, S.ConnectionRequest, R.ServerInit, Agreed, Agree,
         S.ParseServerInit, Compatible, ChannelLaws, GoodIvs, GoodKeys, S.TakeSecure, S.TakeConnectionResponse,
         S.TakeSharing;
    Basics(h);
    ServerInitParsed(h);
    AgreedByBoth(h);
    assert Spoken(h, 1) + [S.ClientFinish(h.e)] + [S.ConnectionResponse()] == Spoken(h, 2);
  }

  lemma ServerInitParsed(h: Peers)
    requires Compatible(h)
    ensures S.ParseServerInit(R.ServerInit(h.g)) == Some(h.g.p.publicPoint(h.g.secret)) && Acceptable(R.ServerInit(h.g))
  {
    hide S.ParseServerInit, R.ServerInit, Announceable, TotalSize;
    ServerInitRead(h.g);
  }

  lemma SenderConnected(h: Peers)
    requires Compatible(h)
    ensures S.TakeFrame(h.e, SenderAt(h, 2), R.ConnectionResponse()) == S.Sent(SenderAt(h, 3), true)
  {
    hide S.ClientInit, R.ConnectionResponse, Agreed, Spoken, S.ParseConnectionResponse, S.SendSharing, Compatible,
         ChannelLaws, GoodIvs, GoodKeys, S.TakeSecure, S.TakeServerInit, S.TakeSharing;
    ConnectionResponseRead();
    LinksLong(h);
    SenderSays(h, SenderTalking(h, S.AwaitPairedKey, 2), 0);
  }

  /** The sender's third, fourth and fifth turn. */
  lemma SenderSays(h: Peers, s: S.Sender, k: nat)
    requires Compatible(h) && k <= 2 && s.sendSequence == 2 * k && s.drawn == k
    requires s.sendKeys == Agreed(h).client && s.link == h.senderLink - 2 * k - 4 && s.outbox == Spoken(h, k + 2)
    ensures S.SendSharing(h.e, s, Said(h, k)) == S.Sent(
      s.(drawn := k + 1, sendSequence := 2 * k + 2, link := s.link - 2, outbox := Spoken(h, k + 3)), true)
  {
    hide S.SendSharing, Agreed, Compatible, ChannelLaws, GoodIvs, GoodKeys, Said, SealedPair, SenderPair, Spoken,
         ReceiverPairedKey, R.PairedKeyResult;
    Basics(h);
    SharingSizes(h);
    KeysGood(h);
    SpokenNext(h, k);
    SenderPairParts(h, k, Said(h, k));
    SenderSendsPair(h.e, s, Said(h, k));
  }

  /** The sender takes a sharing frame of the receiver in two parts. */
  ghost predicate SenderHeard(h: Peers, s: S.Sender, k: nat, sharing: Bytes) {
    hide S.TakeFrame, S.TakeSharing, ReceiverPair;
    var pair := ReceiverPair(h, k, sharing);
    var middle := Hearing(s, 2 * k + 1, map[h.g.ids(k) := sharing]);
    && S.TakeFrame(h.e, s, pair[0]) == S.Sent(middle, true)
    && S.TakeFrame(h.e, middle, pair[1]) == S.TakeSharing(h.e, Hearing(s, 2 * k + 2, map[]), sharing)
  }

  lemma SenderHears(h: Peers, s: S.Sender, k: nat, sharing: Bytes)
    requires Compatible(h) && |sharing| <= 300 && k <= 2
    requires s.receiveKeys == Agreed(h).server && s.receiveSequence == 2 * k && s.controls == map[]
    requires s.stage != S.Start && s.stage != S.Sending && s.stage != S.AwaitServerInit
    requires s.stage != S.AwaitConnectionResponse
    ensures SenderHeard(h, s, k, sharing)
  {
    hide S.TakeFrame, S.TakeSharing, Seal, Agreed, Compatible, ChannelLaws, GoodIvs, GoodKeys, Pair, ReceiverPair,
         SealedPair;
    Basics(h);
    KeysGood(h);
    ReceiverPairParts(h, k, sharing);
    IvSize(h.g.ivs, 2 * k + 1);
    IvSize(h.g.ivs, 2 * k + 2);
    SenderHearsPair(h.e, s, h.g.ivs(2 * k + 1), h.g.ivs(2 * k + 2), h.g.ids(k), sharing, 2 * k);
  }

  lemma SenderHearsPair(e: S.SenderEnv, s: S.Sender, iv1: Bytes, iv2: Bytes, id: u64, sharing: Bytes, n: nat)
    requires Waiting(e, s) && s.receiveSequence == n < 6 && |iv1| == 16 && |iv2| == 16
    requires |sharing| <= 300 && s.controls == map[]
    requires s.stage != S.AwaitServerInit && s.stage != S.AwaitConnectionResponse
    ensures var middle := Hearing(s, n + 1, map[id := sharing]);
      && S.TakeFrame(e, s, Seal(e.p, s.receiveKeys, iv1, n + 1, Pair(id, sharing)[0])) == S.Sent(middle, true)
      && S.TakeFrame(e, middle, Seal(e.p, s.receiveKeys, iv2, n + 2, Pair(id, sharing)[1]))
           == S.TakeSharing(e, Hearing(s, n + 2, map[]), sharing)
  {
    hide S.TakeFrame, S.TakeSecure, S.TakeSharing, Seal, GoodKeys, ChannelLaws, DataFrame, LastFrame;
    SenderTakesPair(e, s, iv1, iv2, id, sharing);
    var middle := Hearing(s, n + 1, map[id := sharing]);
    assert s.controls[id := sharing] == map[id := sharing];
    assert middle == s.(receiveSequence := n + 1, controls := s.controls[id := sharing]);
    TakesSealed(e, s, Seal(e.p, s.receiveKeys, iv1, n + 1, Pair(id, sharing)[0]));
    TakesSealed(e, middle, Seal(e.p, s.receiveKeys, iv2, n + 2, Pair(id, sharing)[1]));
  }

  lemma TakesSealed(e: S.SenderEnv, s: S.Sender, frame: Bytes)
    requires s.stage != S.AwaitServerInit && s.stage != S.AwaitConnectionResponse && Acceptable(frame)
    ensures S.TakeFrame(e, s, frame) ==
      match S.TakeSecure(e, s, frame)
      case Failed(s1) => S.Sent(s1, false)
      case Nothing(s1) => S.Sent(s1, true)
      case Got(s1, sharing) => S.TakeSharing(e, s1, sharing)
  {
    hide S.TakeSecure, S.TakeSharing;
  }

  lemma SenderPaired(h: Peers)
    requires Compatible(h)
    ensures var pair := ReceiverPair(h, 0, ReceiverPairedKey(h));
      && S.TakeFrame(h.e, SenderAt(h, 3), pair[0]) == S.Sent(SenderAt(h, 4), true)
      && S.TakeFrame(h.e, SenderAt(h, 4), pair[1]) == S.Sent(SenderAt(h, 5), true)
  {
    hide S.TakeFrame, S.ClientInit, Agreed, Spoken, S.SendSharing, ReceiverPair, ReceiverPairedKey, Compatible,
         S.PairedKeyEncryption, S.PairedKeyResult, S.Introduction, R.PairedKeyResult, S.DecisionAccepted;
    SharingSizes(h);
    SenderHears(h, SenderAt(h, 3), 0, ReceiverPairedKey(h));
    LinksLong(h);
    SenderSays(h, Hearing(SenderTalking(h, S.AwaitPairedResult, 3), 2, map[]), 1);
  }

  lemma LinksLong(h: Peers)
    requires Compatible(h)
    ensures h.senderLink >= 10 && h.receiverLink >= 6
  {
    hide ChannelLaws;
    Basics(h);
  }

  lemma SenderIntroduces(h: Peers)
    requires Compatible(h)
    ensures var pair := ReceiverPair(h, 1, R.PairedKeyResult());
      && S.TakeFrame(h.e, SenderAt(h, 5), pair[0]) == S.Sent(SenderAt(h, 6), true)
      && S.TakeFrame(h.e, SenderAt(h, 6), pair[1]) == S.Sent(SenderAt(h, 7), true)
  {
    hide S.TakeFrame, S.ClientInit, Agreed, Spoken, S.SendSharing, ReceiverPair, ReceiverPairedKey, Compatible,
         S.PairedKeyEncryption, S.PairedKeyResult, S.Introduction, R.PairedKeyResult, S.DecisionAccepted;
    SharingSizes(h);
    SenderHears(h, SenderAt(h, 5), 1, R.PairedKeyResult());
    LinksLong(h);
    SenderSays(h, Hearing(SenderTalking(h, S.AwaitDecision, 4), 4, map[]), 2);
  }

  // ---------------------------------------------------------------- the receiver's steps

  function Goes(r: R.Session): R.Turned { R.Turned(r, R.Running) }

  lemma ReceiverGreeted(h: Peers)
    requires Compatible(h)
    ensures R.Step(h.g, ReceiverAt(h, 0), Arrives(S.ConnectionRequest(h.e))) == Goes(ReceiverAt(h, 1))
  {
    hide R.ConnectionRequestValid, S.ConnectionRequest, Lawful, Announceable, R.GoodEnv;
    ConnectionRequestRead(h.e);
  }

  lemma ReceiverCommits(h: Peers)
    requires Compatible(h)
    ensures R.Step(h.g, ReceiverAt(h, 1), Arrives(S.ClientInit(h.e))) == Goes(ReceiverAt(h, 2))
  {
    hide R.ParseClientInit, S.ClientInit, S.ClientFinish, Agreed, R.ServerInit, CipherLaws, CurveLaws, Announceable,
         R.GoodEnv;
    InitRead(h.e);
    assert [] + [R.ServerInit(h.g)] == Answered(h, 1);
  }

  lemma FinishParsed(h: Peers)
    requires Compatible(h)
    ensures R.ParseClientFinish(S.ClientFinish(h.e)) == Some(GenericPublic(h.e.p.publicPoint(h.e.secret)))
    ensures ParsePublic(GenericPublic(h.e.p.publicPoint(h.e.secret))) == Some(h.e.p.publicPoint(h.e.secret))
    ensures Acceptable(S.ClientFinish(h.e))
  {
    hide R.ParseClientFinish, S.ClientFinish, GenericPublic, ParsePublic, Announceable, R.GoodEnv;
    FinishRead(h.e);
    PublicRoundTrip(h.e.p.publicPoint(h.e.secret));
  }

  lemma ReceiverAgrees(h: Peers)
    requires Compatible(h)
    ensures R.Step(h.g, ReceiverAt(h, 2), Arrives(S.ClientFinish(h.e))) == Goes(ReceiverAt(h, 3))
  {
    hide R.ParseClientFinish, S.ClientInit, S.ClientFinish, Agreed, Agree, R.ServerInit, Answered, GenericPublic,
         ParsePublic, Compatible, ChannelLaws, GoodIvs, GoodKeys;
    Basics(h);
    FinishParsed(h);
    AgreedByBoth(h);
  }

  lemma ReceiverConnected(h: Peers)
    requires Compatible(h)
    ensures R.Step(h.g, ReceiverAt(h, 3), Arrives(S.ConnectionResponse())) == Goes(ReceiverAt(h, 4))
  {
    hide R.ClientResponseValid, S.ClientInit, S.ClientFinish, S.ConnectionResponse, R.ConnectionResponse,
         R.ConsentPhase, Agreed, R.ServerInit, R.SendSharing, SealedPair, R.PairedKeyEncryption, R.PairedKeyResult,
         Compatible, ChannelLaws, GoodIvs, GoodKeys;
    ResponseRead();
    Basics(h);
    var r := ReceiverTalking(h, R.AwaitPairedEncryption, 1);
    ReceiverSays(h, r.(link := h.receiverLink - 2, outbox := Answered(h, 1) + [R.ConnectionResponse()]), 1,
                 ReceiverPairedKey(h));
  }

  /** The sealed part of the receiver's second and third turn. */
  lemma ReceiverSays(h: Peers, r: R.Session, turns: nat, sharing: Bytes)
    requires Compatible(h) && 1 <= turns <= 2 && r.serverSequence == 2 * turns - 2 && r.drawn == turns - 1
    requires r.sendKeys == Agreed(h).server && r.link == h.receiverLink - 2 * turns
    requires r.outbox == if turns == 1 then Answered(h, 1) + [R.ConnectionResponse()] else Answered(h, 2)
    requires sharing == if turns == 1 then ReceiverPairedKey(h) else R.PairedKeyResult()
    ensures R.SendSharing(h.g, r, sharing) == R.Result(
      r.(drawn := turns, serverSequence := 2 * turns, link := h.receiverLink - 2 * turns - 2,
         outbox := Answered(h, turns + 1)), true)
  {
    hide R.SendSharing, Agreed, Compatible, ChannelLaws, GoodIvs, GoodKeys, S.PairedKeyEncryption, S.PairedKeyResult,
         S.Introduction, SealedPair, ReceiverPairedKey, R.PairedKeyResult, R.ConnectionResponse, R.ServerInit;
    Basics(h);
    SharingSizes(h);
    KeysGood(h);
    ReceiverSendsPair(h.g, r, sharing);
  }

  /** The receiver takes a sharing frame of the sender in two parts. */
  ghost predicate ReceiverHeard(h: Peers, r: R.Session, k: nat, sharing: Bytes) {
    hide R.Step, R.SharingFrame, SenderPair;
    var pair := SenderPair(h, k, sharing);
    var middle := Collecting(r, 2 * k + 1, S.Negative(h.e.ids(k)), sharing);
    && R.Step(h.g, r, Arrives(pair[0])) == Goes(middle)
    && R.Step(h.g, middle, Arrives(pair[1])) == Ended(R.SharingFrame(h.g, r.(clientSequence := 2 * k + 2), sharing))
  }

  lemma ReceiverHears(h: Peers, r: R.Session, k: nat, sharing: Bytes)
    requires Compatible(h) && |sharing| <= 5 * 1024 * 1024 - 1000 && k <= 2
    requires r.receiveKeys == Agreed(h).client && r.clientSequence == 2 * k && r.buffers == map[] && r.buffered == 0
    requires r.state == R.AwaitPairedEncryption || r.state == R.AwaitPairedResult || r.state == R.AwaitIntroduction
    ensures ReceiverHeard(h, r, k, sharing)
  {
    hide R.Step, R.SharingFrame, Seal, Agreed, GoodKeys, Compatible, ChannelLaws, GoodIvs, Pair, S.Negative,
         SenderPair, SealedPair;
    Basics(h);
    KeysGood(h);
    SenderPairParts(h, k, sharing);
    IvSize(h.e.ivs, 2 * k + 1);
    IvSize(h.e.ivs, 2 * k + 2);
    ReceiverHearsPair(h.g, r, h.e.ivs(2 * k + 1), h.e.ivs(2 * k + 2), S.Negative(h.e.ids(k)), sharing, 2 * k);
  }

  lemma ReceiverHearsPair(g: R.Env, r: R.Session, iv1: Bytes, iv2: Bytes, id: u64, sharing: Bytes, n: nat)
    requires Listening(g, r) && r.clientSequence == n < 6 && |iv1| == 16 && |iv2| == 16
    requires |sharing| <= 5 * 1024 * 1024 - 1000 && r.buffers == map[] && r.buffered == 0 && r.state != R.Receiving
    ensures var middle := Collecting(r, n + 1, id, sharing);
      && R.Step(g, r, Arrives(Seal(g.p, r.receiveKeys, iv1, n + 1, Pair(id, sharing)[0]))) == Goes(middle)
      && R.Step(g, middle, Arrives(Seal(g.p, r.receiveKeys, iv2, n + 2, Pair(id, sharing)[1])))
           == Ended(R.SharingFrame(g, r.(clientSequence := n + 2), sharing))
  {
    hide R.Step, R.SharingFrame, Seal, GoodKeys, ChannelLaws, DataFrame, LastFrame;
    ReceiverTakesPair(g, r, iv1, iv2, id, sharing);
    assert r.buffers[ToInt64(id) := sharing] == map[ToInt64(id) := sharing];
  }

  lemma PairedKeyRead(h: Peers)
    requires Compatible(h)
    ensures var sharing := Said(h, 0);
      R.ParseSharing(sharing).Some? && R.ParseSharing(sharing).value.kind == 3
      && GetBytes(R.ParseSharing(sharing).value.v1, 4).Some?
  {
    hide GetBytes, Encode, Versioned, V1, R.ParseSharing, Lawful, Announceable, R.GoodEnv;
    PairedSizes(h.e.pairedData, h.e.pairedHash);
    SharingRead(3, 4, Encode([B(1, h.e.pairedData), B(2, h.e.pairedHash)]));
  }

  lemma ReceiverPaired(h: Peers)
    requires Compatible(h)
    ensures var pair := SenderPair(h, 0, Said(h, 0));
      && R.Step(h.g, ReceiverAt(h, 4), Arrives(pair[0])) == Goes(ReceiverAt(h, 5))
      && R.Step(h.g, ReceiverAt(h, 5), Arrives(pair[1])) == Goes(ReceiverAt(h, 6))
  {
    hide R.Step, S.ClientInit, S.ClientFinish, R.ServerInit, Agreed, Answered, R.SendSharing, SenderPair,
         R.ParseSharing, GetBytes, R.PairedKeyResult, Compatible, R.Introduction, ReceiverPairedKey, Said, S.Negative;
    SharingSizes(h);
    PairedKeyRead(h);
    LinksLong(h);
    var r := ReceiverTalking(h, R.AwaitPairedEncryption, 2);
    ReceiverHears(h, r, 0, Said(h, 0));
    ReceiverSays(h, r.(clientSequence := 2), 2, R.PairedKeyResult());
  }

  lemma ResultRead(h: Peers)
    ensures var sharing := Said(h, 1);
      R.ParseSharing(sharing).Some? && R.ParseSharing(sharing).value.kind == 4
      && GetBytes(R.ParseSharing(sharing).value.v1, 5).Some?
  {
    hide GetBytes, Encode, Versioned, V1, R.ParseSharing;
    SmallSize([V(1, 3)]);
    SharingRead(4, 5, Encode([V(1, 3)]));
  }

  lemma ReceiverConfirmed(h: Peers)
    requires Compatible(h)
    ensures var pair := SenderPair(h, 1, Said(h, 1));
      && R.Step(h.g, ReceiverAt(h, 6), Arrives(pair[0])) == Goes(ReceiverAt(h, 7))
      && R.Step(h.g, ReceiverAt(h, 7), Arrives(pair[1])) == Goes(ReceiverAt(h, 8))
  {
    hide R.Step, S.ClientInit, S.ClientFinish, R.ServerInit, Agreed, Answered, R.SendSharing, SenderPair,
         R.ParseSharing, GetBytes, R.PairedKeyResult, Compatible, R.Introduction, ReceiverPairedKey, Said, S.Negative;
    SharingSizes(h);
    ResultRead(h);
    ReceiverHears(h, ReceiverTalking(h, R.AwaitPairedResult, 3).(clientSequence := 2), 1, Said(h, 1));
  }

  lemma IntroductionRead(h: Peers)
    requires Compatible(h)
    ensures var sharing := Said(h, 2);
      && R.ParseSharing(sharing).Some? && R.ParseSharing(sharing).value.kind == 1
      && GetBytes(R.ParseSharing(sharing).value.v1, 2) == Some(S.IntroductionBody(h.e.files))
  {
    hide GetBytes, Versioned, V1, R.ParseSharing, Lawful, Announceable, R.GoodEnv, S.IntroductionBody;
    SharingRead(1, 2, S.IntroductionBody(h.e.files));
  }

  lemma Introduced(h: Peers, r: R.Session)
    requires Compatible(h) && r.files == map[] && r.consent != 0
    ensures R.Introduction(h.g, r, S.IntroductionBody(h.e.files))
         == R.Result(Announce(h.g, r, h.e.files).(total := TotalSize(h.e.files), received := 0, consent := 0,
             state := R.AwaitConsent), true)
  {
    hide Lawful, Announceable, R.GoodEnv, S.IntroductionBody, TotalSize, Announce;
    IntroductionTaken(h.g, r, h.e.files);
  }

  lemma ReceiverAsks(h: Peers)
    requires Compatible(h)
    ensures var pair := SenderPair(h, 2, Said(h, 2));
      && R.Step(h.g, ReceiverAt(h, 8), Arrives(pair[0])) == Goes(ReceiverAt(h, 9))
      && R.Step(h.g, ReceiverAt(h, 9), Arrives(pair[1])) == Goes(ReceiverAt(h, 10))
  {
    hide R.Step, S.ClientInit, S.ClientFinish, R.ServerInit, Agreed, Answered, R.SendSharing, SenderPair,
         R.ParseSharing, GetBytes, R.PairedKeyResult, Compatible, R.Introduction, ReceiverPairedKey, Said, S.Negative,
         S.IntroductionBody, Announce, TotalSize, ChannelLaws;
    SharingSizes(h);
    IntroductionRead(h);
    Basics(h);
    var r := ReceiverTalking(h, R.AwaitIntroduction, 3);
    ReceiverHears(h, r.(clientSequence := 4), 2, Said(h, 2));
    Introduced(h, r.(clientSequence := 6));
  }
}
