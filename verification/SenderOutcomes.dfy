/** What each frame makes of the sender, and what the sender's own frames say, field by field. */
module SenderOutcomes {
  import opened ByteStrings
  import opened ProtoWire
  import opened Crypto
  import opened Framing
  import opened Frames
  import opened FrameReading
  import opened HandshakeFrames
  import opened SecureChannel
  import opened Sender
  import R = Receiver
  import ReceiverOutcomes

  // ---------------------------------------------------------------- the connection response

  /** A response that cannot be read, or that does not agree, ends the run with nothing more said; one that
      agrees is followed by the paired key, and its word on safe disconnection is kept. */
  lemma ResponseOutcome(e: SenderEnv, s: Sender, frame: Bytes)
    requires s.stage == AwaitConnectionResponse && Acceptable(frame)
    ensures var t := TakeFrame(e, s, frame);
      if VarintIn(frame, [], 1) == Some(1) && VarintIn(frame, [2], 1) == Some(2) && Inner(frame, [2, 3]).Some?
         && Agrees(frame)
      then
        var safe := VarintIn(frame, [2, 3], 7);
        t == SendSharing(e, s.(stage := AwaitPairedKey, safeDisconnect := safe.Some? && safe.value > 0),
                         PairedKeyEncryption(e))
      else !t.ok && t.sender.outbox == s.outbox && t.sender.stage != Sending
  {
    hide ParseConnectionResponse, SendSharing, PairedKeyEncryption, Inner, Agrees;
    VerdictMeaning(frame);
  }

  // ---------------------------------------------------------------- sealed frames

  lemma AckMeaning()
    ensures ReceiverOutcomes.Acknowledges(KeepAliveAck())
  {
    hide KeepAliveAck;
    assert KeepAliveAck() == R.KeepAliveAck() by {
      SameAck();
    }
    ReceiverOutcomes.AckMeaning();
  }

  lemma SameAck()
    ensures KeepAliveAck() == R.KeepAliveAck()
  {
    hide Encode, Versioned;
  }

  /** A keep-alive is answered under the next number, or the run ends. */
  ghost predicate Acked(e: SenderEnv, s: Sender, r: Received) {
    var n := s.sendSequence + 1;
    r.Failed? || (r.Nothing? && exists ack ::
      ReceiverOutcomes.Acknowledges(ack) && r.sender.outbox == s.outbox + [Seal(e.p, s.sendKeys, e.ivs(n), n, ack)])
  }

  /** What a frame that opens does, by the kind of the offline frame inside: a transfer is collected and a
      keep-alive answered; everything else is a fault, a disconnection among it. */
  lemma SealedOutcome(e: SenderEnv, s: Sender, frame: Bytes, offline: Bytes)
    requires Open(e.p, s.receiveKeys, s.receiveSequence, frame) == Some(offline)
    ensures var r, s1 := TakeSecure(e, s, frame), s.(receiveSequence := s.receiveSequence + 1);
      var kind, transfer := VarintIn(offline, [2], 1), Inner(offline, [2, 4]);
      && (kind == Some(5) ==> Acked(e, s, r))
      && (kind !in {Some(3), Some(5)} ==> r == Failed(s1))
      && (kind == Some(3) && transfer == None ==> r == Failed(s1))
      && (kind == Some(3) && transfer.Some? ==>
            r == match ParseControl(transfer.value) case None => Failed(s1) case Some(c) => TakeControl(s1, c))
  {
    hide Verified, Decrypted, ParseControl, TakeControl, ParseOffline, Inner, KeepAliveAck, Seal, AesEncrypt, Plain,
         ReceiverOutcomes.Acknowledges;
    OfflineMeaning(offline);
    AckMeaning();
  }

  // ---------------------------------------------------------------- between two chunks

  lemma {:induction false} PollOn(e: SenderEnv, s: Sender, waiting: seq<Bytes>, more: seq<Bytes>)
    ensures Poll(e, s, waiting + more) ==
      if Poll(e, s, waiting).ok then Poll(e, Poll(e, s, waiting).sender, more) else Poll(e, s, waiting)
    decreases |waiting|
  {
    hide TakeSecure, Cancels;
    if waiting == [] {
      assert waiting + more == more;
    } else {
      assert (waiting + more)[1..] == waiting[1..] + more;
      PollOn(e, TakeSecure(e, s, waiting[0]).sender, waiting[1..], more);
    }
  }

  lemma FramePolled(e: SenderEnv, s: Sender, frame: Bytes, more: seq<Bytes>)
    requires Acceptable(frame) && TakeSecure(e, s, frame).Got?
    ensures var r := TakeSecure(e, s, frame);
      Poll(e, s, [frame] + more) ==
        if VarintIn(r.sharing, [2], 1) in {None, Some(6)} then Sent(r.sender, false) else Poll(e, r.sender, more)
  {
    hide TakeSecure, Cancels;
    CancelMeaning(TakeSecure(e, s, frame).sharing);
    assert ([frame] + more)[1..] == more;
  }

  /** Whatever it has said before: a cancellation, or a sharing frame that cannot be read, found anywhere among
      the frames that wait ends the run right there, whatever it had still to say; any other is passed over. */
  lemma CancelStops(e: SenderEnv, s: Sender, before: seq<Action>, waiting: seq<Bytes>, frame: Bytes, more: seq<Bytes>,
                    after: seq<Action>)
    requires Acceptable(frame)
    requires Act(e, s, before).ok && Poll(e, Act(e, s, before).sender, waiting).ok
    requires TakeSecure(e, Poll(e, Act(e, s, before).sender, waiting).sender, frame).Got?
    ensures var r := TakeSecure(e, Poll(e, Act(e, s, before).sender, waiting).sender, frame);
      Act(e, s, before + ([Hears(waiting + ([frame] + more))] + after)) ==
        if VarintIn(r.sharing, [2], 1) in {None, Some(6)} then Sent(r.sender, false)
        else Act(e, r.sender, [Hears(more)] + after)
  {
    hide Act, Poll, TakeSecure, Inner;
    var s1 := Act(e, s, before).sender;
    var rest := [Hears(waiting + ([frame] + more))] + after;
    ActAppend(e, s, before, rest);
    HearsNext(e, s1, waiting + ([frame] + more), after);
    PollOn(e, s1, waiting, [frame] + more);
    FramePolled(e, Poll(e, s1, waiting).sender, frame, more);
    HearsNext(e, TakeSecure(e, Poll(e, s1, waiting).sender, frame).sender, more, after);
  }

  lemma HearsNext(e: SenderEnv, s: Sender, frames: seq<Bytes>, after: seq<Action>)
    ensures Act(e, s, [Hears(frames)] + after) ==
      if Poll(e, s, frames).ok then Act(e, Poll(e, s, frames).sender, after) else Poll(e, s, frames)
  {
    hide Poll;
    assert ([Hears(frames)] + after)[1..] == after;
  }

  // ---------------------------------------------------------------- the memory of the control payloads

  /** No control payload is collected beyond five mebibytes. */
  ghost predicate Bounded(s: Sender) {
    forall id :: id in s.controls ==> |s.controls[id]| <= 5 * 1024 * 1024
  }

  lemma SendingBounded(e: SenderEnv, s: Sender, offline: Bytes, sharing: Bytes)
    ensures SendOffline(e, s, offline).sender.controls == s.controls
    ensures SendSharing(e, s, sharing).sender.controls == s.controls
  {
    hide Seal, AesEncrypt, Plain, DataFrame, LastFrame;
  }

  lemma SecureBounded(e: SenderEnv, s: Sender, secure: Bytes)
    requires Bounded(s)
    ensures Bounded(TakeSecure(e, s, secure).sender)
  {
    hide CountAfter, Open, ParseOffline, ParseControl, SendOffline, KeepAliveAck;
    SendingBounded(e, Counted(e, s, secure), KeepAliveAck(), []);
  }

  lemma FrameBounded(e: SenderEnv, s: Sender, frame: Bytes)
    requires Bounded(s)
    ensures Bounded(TakeFrame(e, s, frame).sender)
  {
    hide TakeSecure, ParseServerInit, ParseConnectionResponse, SendSharing, PairedKeyEncryption, PairedKeyResult,
         Introduction, DecisionAccepted, ClientFinish, ConnectionResponse;
    SecureBounded(e, s, frame);
    var r := TakeSecure(e, s, frame).sender;
    SendingBounded(e, r.(stage := AwaitPairedResult), [], PairedKeyResult());
    SendingBounded(e, r.(stage := AwaitDecision), [], Introduction(e.files));
    var verdict := ParseConnectionResponse(frame);
    if verdict.Some? {
      SendingBounded(e, s.(safeDisconnect := verdict.value.safeDisconnect, stage := AwaitPairedKey), [],
                     PairedKeyEncryption(e));
    }
  }

  lemma {:induction false} TalkBounded(e: SenderEnv, s: Sender, incoming: seq<Bytes>)
    requires Bounded(s)
    ensures Bounded(Talk(e, s, incoming).sender)
    decreases |incoming|
  {
    hide TakeFrame, Bounded;
    if s.stage != Sending && incoming != [] {
      FrameBounded(e, s, incoming[0]);
      TalkBounded(e, TakeFrame(e, s, incoming[0]).sender, incoming[1..]);
    }
  }

  lemma {:induction false} PollBounded(e: SenderEnv, s: Sender, frames: seq<Bytes>)
    requires Bounded(s)
    ensures Bounded(Poll(e, s, frames).sender)
    decreases |frames|
  {
    hide TakeSecure, Bounded, Cancels;
    if frames != [] {
      SecureBounded(e, s, frames[0]);
      PollBounded(e, TakeSecure(e, s, frames[0]).sender, frames[1..]);
    }
  }

  lemma {:induction false} ActBounded(e: SenderEnv, s: Sender, actions: seq<Action>)
    requires Bounded(s)
    ensures Bounded(Act(e, s, actions).sender)
    decreases |actions|
  {
    hide Bounded, SendOffline, Poll;
    if actions != [] {
      match actions[0]
      case Hears(frames) =>
        PollBounded(e, s, frames);
        ActBounded(e, Poll(e, s, frames).sender, actions[1..]);
      case Says(message) =>
        SendingBounded(e, s, message, []);
        BoundedBy(s, SendOffline(e, s, message).sender);
        ActBounded(e, SendOffline(e, s, message).sender, actions[1..]);
    }
  }

  lemma BoundedBy(s: Sender, t: Sender)
    requires Bounded(s) && t.controls == s.controls
    ensures Bounded(t)
  {
  }

  /** Over the whole run, from the opening frames to the goodbye and on any frames, the sender holds at most
      five mebibytes for each payload identifier. */
  lemma ControlsHold(e: SenderEnv, link: nat, incoming: seq<Bytes>, actions: seq<Action>)
    ensures var begun := Begin(e, FreshSender(link));
      var talked := Talk(e, begun.sender, incoming);
      Bounded(begun.sender) && Bounded(talked.sender) && Bounded(Act(e, talked.sender, actions).sender)
  {
    hide Talk, Act, ConnectionRequest, ClientInit;
    var begun := Begin(e, FreshSender(link)).sender;
    assert begun.controls == map[];
    TalkBounded(e, begun, incoming);
    ActBounded(e, Talk(e, begun, incoming).sender, actions);
  }

  // ---------------------------------------------------------------- what the sender's frames say

  /** The goodbye is a disconnection that asks for an acknowledgement exactly when one was promised. */
  lemma GoodbyeMeaning(s: Sender)
    ensures VarintIn(Goodbye(s), [2], 1) == Some(6)
    ensures VarintIn(Goodbye(s), [2, 7], 1) == if s.safeDisconnect then Some(1) else None
  {
    hide Encode, GetBytes, GetVarint, V1, Versioned;
    var fields := if s.safeDisconnect then [V(1, 1)] else [];
    if s.safeDisconnect {
      VarintAt(fields, 1, 0);
    } else {
      VarintAbsent(fields, 1);
    }
    EncodeSize(fields);
    VersionedFrame(6, 7, Encode(fields));
    FieldPaths(Goodbye(s), 2, 7, 0);
  }

  /** The name it goes by: its own or the default, cut to 45 bytes. */
  ghost predicate GoesBy(e: SenderEnv, name: Bytes) {
    var full := if e.localName == [] then Ascii("BBX Share") else e.localName;
    |name| <= 45 && name <= full && (|full| <= 45 ==> name == full) && (|full| > 45 ==> |name| == 45)
  }

  /** The connection request: the endpoint's identifier and name, its information, and the medium. */
  lemma RequestSays(e: SenderEnv)
    requires GoodSenderEnv(e)
    ensures var frame := ConnectionRequest(e);
      var name, info := Inner(frame, [2, 2, 2]), Inner(frame, [2, 2, 6]);
      && VarintIn(frame, [], 1) == Some(1) && VarintIn(frame, [2], 1) == Some(1)
      && Inner(frame, [2, 2, 1]) == Some(e.endpointId) && VarintIn(frame, [2, 2], 5) == Some(5)
      && name.Some? && GoesBy(e, name.value)
      && info == Some([2] + e.endpointRandom + [|name.value|] + name.value)
  {
    hide Encode, GetBytes, GetVarint, V1, Versioned, EndpointInfo, ShortName, Ascii;
    NameFits(e);
    var fields := [B(1, e.endpointId), B(2, ShortName(e)), B(6, EndpointInfo(e)), V(5, 5)];
    BytesAt(fields, 1, 0);
    BytesAt(fields, 2, 1);
    BytesAt(fields, 6, 2);
    VarintAt(fields, 5, 3);
    SmallSize(fields);
    VersionedFrame(1, 2, Encode(fields));
    FieldPaths(ConnectionRequest(e), 2, 2, 1);
    FieldPaths(ConnectionRequest(e), 2, 2, 2);
    FieldPaths(ConnectionRequest(e), 2, 2, 6);
    NameIs(e);
  }

  lemma NameIs(e: SenderEnv)
    ensures GoesBy(e, ShortName(e)) && EndpointInfo(e) == [2] + e.endpointRandom + [|ShortName(e)|] + ShortName(e)
  {
    hide Ascii;
  }

  /** The kind of file as it is announced: 1 for images, 2 for videos, 3 for applications, 4 for sounds. */
  ghost predicate KindOf(f: OutgoingFile, kind: Option<u64>) {
    var image, video, audio := Ascii("image/") <= f.mime, Ascii("video/") <= f.mime, Ascii("audio/") <= f.mime;
    && (kind == Some(1) <==> image) && (kind == Some(2) <==> video && !image)
    && (kind == Some(3) <==> f.apk && !image && !video)
    && (kind == Some(4) <==> audio && !f.apk && !image && !video)
    && (kind == None <==> !image && !video && !f.apk && !audio)
  }

  /** The entry for a file: name, kind, identifier twice, size and MIME type. */
  lemma MetadataSays(f: OutgoingFile)
    requires |f.name| < TWO31 && |f.mime| < TWO31 && |f.content| < TWO63
    ensures var m := Metadata(f);
      && GetBytes(m, 1) == Some(f.name) && KindOf(f, GetVarint(m, 2))
      && GetVarint(m, 3) == Some(f.id) && GetVarint(m, 6) == Some(f.id)
      && GetVarint(m, 4) == Some(|f.content|) && GetBytes(m, 5) == Some(f.mime)
  {
    hide Encode, GetBytes, GetVarint, MetadataType;
    var kind := MetadataType(f);
    var fields := [B(1, f.name)] + (if kind != 0 then [V(2, kind)] else [])
                  + [V(3, f.id), V(4, SizeOf(f.content)), B(5, f.mime), V(6, f.id)];
    var k := if kind != 0 then 2 else 1;
    BytesAt(fields, 1, 0);
    if kind != 0 {
      VarintAt(fields, 2, 1);
    } else {
      NoKind(f.name, f.id, SizeOf(f.content), f.mime);
      assert fields == [B(1, f.name), V(3, f.id), V(4, SizeOf(f.content)), B(5, f.mime), V(6, f.id)];
    }
    VarintAt(fields, 3, k);
    VarintAt(fields, 4, k + 1);
    BytesAt(fields, 5, k + 2);
    VarintAt(fields, 6, k + 3);
    TypeIs(f);
  }

  lemma NoKind(name: Bytes, id: u64, size: u64, mime: Bytes)
    requires |name| < TWO31 && |mime| < TWO31
    ensures GetVarint(Encode([B(1, name), V(3, id), V(4, size), B(5, mime), V(6, id)]), 2) == None
  {
    hide Encode;
    var fields := [B(1, name), V(3, id), V(4, size), B(5, mime), V(6, id)];
    ParseEncode(fields);
    var rest := fields;
    while rest != []
      invariant |rest| <= 5 && forall f :: f in rest ==> f.number != 2
      invariant FirstVarint(fields, 2) == FirstVarint(rest, 2)
      decreases |rest|
    {
      rest := rest[1..];
    }
  }

  lemma TypeIs(f: OutgoingFile)
    ensures KindOf(f, if MetadataType(f) == 0 then None else Some(MetadataType(f)))
  {
    hide Ascii;
    MimesDiffer(f.mime);
  }

  /** No MIME type begins in two of these ways. */
  lemma MimesDiffer(mime: Bytes)
    ensures !(Ascii("image/") <= mime && Ascii("video/") <= mime)
    ensures !(Ascii("image/") <= mime && Ascii("audio/") <= mime)
    ensures !(Ascii("video/") <= mime && Ascii("audio/") <= mime)
  {
    assert Ascii("image/")[0] == 105 && Ascii("video/")[0] == 118 && Ascii("audio/")[0] == 97;
  }
}
