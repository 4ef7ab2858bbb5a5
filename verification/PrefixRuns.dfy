/** Prefix safety of the two programs: whatever the channel does with sealed messages, the plaintexts
    that a run of either end acts on are a prefix of those its peer sent. */
module PrefixRuns {
  import opened ByteStrings
  import opened ProtoWire
  import opened Crypto
  import opened Framing
  import opened SecureChannel
  import opened KeyAgreement
  import opened Frames
  import R = Receiver
  import S = Sender
  import Destination

  // ---------------------------------------------------------------- the receiver's counter

  /** The keys, the counter and being past the plain handshake are left alone. */
  ghost predicate Same(s: R.Session, t: R.Session) {
    && t.receiveKeys == s.receiveKeys && t.sendKeys == s.sendKeys && t.pin == s.pin
    && t.clientSequence == s.clientSequence
    && (s.state != R.PlainHandshake ==> t.state != R.PlainHandshake)
  }

  lemma SendsSame(e: R.Env, s: R.Session, offline: Bytes, sharing: Bytes)
    ensures Same(s, R.SendOffline(e, s, offline).session) && Same(s, R.SendSharing(e, s, sharing).session)
  {
    hide Seal, AesEncrypt, Plain, DataFrame, LastFrame;
  }

  lemma {:induction false} AddsSame(e: R.Env, s: R.Session, metadata: seq<Bytes>, index: nat, total: nat, text: bool)
    requires index <= |metadata|
    ensures Same(s, R.AddAll(e, s, metadata, index, total, text).session)
    decreases |metadata| - index
  {
    hide GetBytes, GetVarint, Destination.Choose;
    if index < |metadata| {
      var added := if text then R.AddTextMetadata(e, s, metadata[index], index)
                   else R.AddFileMetadata(e, s, metadata[index]);
      if added.size.Some? && total <= R.MAX_INT64 - added.size.value {
        AddsSame(e, added.session, metadata, index + 1, total + added.size.value, text);
      }
    }
  }

  lemma IntroductionSame(e: R.Env, s: R.Session, introduction: Bytes)
    ensures Same(s, R.Introduction(e, s, introduction).session)
  {
    hide R.AddAll, GetAll;
    AddsSame(e, s, GetAll(introduction, 1), 0, 0, false);
    var files := R.AddAll(e, s, GetAll(introduction, 1), 0, 0, false);
    AddsSame(e, files.session, GetAll(introduction, 2), 0, files.total, true);
  }

  lemma SameIn(s: R.Session, t: R.Session, state: R.State)
    requires Same(s, t) && state != R.PlainHandshake
    ensures Same(s, t.(state := state))
  {
  }

  lemma SharingSame(e: R.Env, s: R.Session, frame: Bytes)
    ensures Same(s, R.SharingFrame(e, s, frame).session)
  {
    hide R.ParseSharing, GetBytes, R.SendSharing, R.Introduction, R.PairedKeyResult, Same;
    SendsSame(e, s, [], R.PairedKeyResult());
    Itself(s);
    SameIn(s, s, R.AwaitIntroduction);
    SameIn(s, R.SendSharing(e, s, R.PairedKeyResult()).session, R.AwaitPairedResult);
    if R.ParseSharing(frame).Some? && GetBytes(R.ParseSharing(frame).value.v1, 2).Some? {
      IntroductionSame(e, s, GetBytes(R.ParseSharing(frame).value.v1, 2).value);
    }
  }

  lemma Itself(s: R.Session)
    ensures Same(s, s)
  {
  }

  lemma PacketSame(e: R.Env, s: R.Session, packet: Packet)
    ensures Same(s, R.TakePacket(e, s, packet).session)
  {
    hide R.SharingFrame;
    match R.Reassemble(s, packet)
    case Refused(_) =>
    case Partial(_) =>
    case Complete(t, payload) => SharingSame(e, t, payload);
  }

  lemma OfflineSame(e: R.Env, s: R.Session, offline: Bytes)
    ensures Same(s, R.TakeOffline(e, s, offline).session)
  {
    hide ParseOffline, ParsePacket, R.TakePacket, R.SendOffline, R.KeepAliveAck;
    SendsSame(e, s, R.KeepAliveAck(), []);
    match ParseOffline(offline)
    case TransferOf(Some(transfer)) =>
      if ParsePacket(transfer).Some? {
        PacketSame(e, s, ParsePacket(transfer).value);
      }
    case _ =>
  }

  lemma {:induction false} OpensSame(e: R.Env, s: R.Session, ids: seq<int>)
    ensures Same(s, R.OpenFiles(e, s, ids).session)
    decreases |ids|
  {
    if ids != [] {
      if ids[0] !in s.files {
        OpensSame(e, s, ids[1..]);
      } else {
        var f := s.files[ids[0]];
        OpensSame(e, s.(files := s.files[ids[0] := f.(created := true)], disk := s.disk[f.path := []]), ids[1..]);
      }
    }
  }

  lemma ConsentSame(e: R.Env, s: R.Session, elapsed: bool)
    ensures Same(s, R.ConsentPhase(e, s, elapsed).session)
  {
    hide R.SendSharing, R.OpenFiles, R.IntroductionResponse;
    OpensSame(e, s, e.order(s.files.Keys));
    SendsSame(e, R.OpenFiles(e, s, e.order(s.files.Keys)).session, [], R.IntroductionResponse(true));
    SendsSame(e, s, [], R.IntroductionResponse(false));
  }

  // ---------------------------------------------------------------- one event more

  lemma {:induction false} RunSnoc(e: R.Env, s: R.Session, events: seq<R.Event>, last: R.Event)
    ensures R.Run(e, s, events + [last]) ==
      var t := R.Run(e, s, events); if t.outcome == R.Running then R.Step(e, t.session, last) else t
    decreases |events|
  {
    hide R.Step;
    if events == [] {
      assert events + [last] == [last] && [last][1..] == [];
      OneEvent(e, s, last);
    } else {
      assert (events + [last])[1..] == events[1..] + [last];
      var t := R.Step(e, s, events[0]);
      if t.outcome == R.Running {
        RunSnoc(e, t.session, events[1..], last);
      }
    }
  }

  lemma OneEvent(e: R.Env, s: R.Session, event: R.Event)
    ensures R.Run(e, s, [event]) == R.Step(e, s, event)
  {
    hide R.Step;
    var t := R.Step(e, s, event);
    assert [event][1..] == [];
    assert R.Run(e, t.session, []) == R.Turned(t.session, R.Running);
  }

  // ---------------------------------------------------------------- what the receiver acts on

  /** The plaintext one event makes the receiver act on, if any. */
  function ActsOn(e: R.Env, s: R.Session, event: R.Event): seq<Bytes> {
    match event
    case Turn(elapsed, Arrived(frame)) =>
      var asked := R.ConsentPhase(e, s, elapsed);
      if asked.outcome != R.Running || !Acceptable(frame) then []
      else (match Open(e.p, asked.session.receiveKeys, asked.session.clientSequence, frame)
            case None => []
            case Some(offline) => [offline])
    case _ => []
  }

  function ActsOnAll(e: R.Env, s: R.Session, events: seq<R.Event>): seq<Bytes>
    decreases |events|
  {
    if events == [] then []
    else
      var t := R.Step(e, s, events[0]);
      ActsOn(e, s, events[0]) + if t.outcome != R.Running then [] else ActsOnAll(e, t.session, events[1..])
  }

  /** The frames the channel brings. */
  function Delivered(events: seq<R.Event>): seq<Bytes> {
    if events == [] then []
    else match events[0]
         case Turn(_, Arrived(frame)) => [frame] + Delivered(events[1..])
         case _ => Delivered(events[1..])
  }

  /** Past the plain handshake the PIN and the keys stay as they are. */
  ghost predicate SameAgreement(s: R.Session, t: R.Session) {
    && t.receiveKeys == s.receiveKeys && t.sendKeys == s.sendKeys && t.pin == s.pin
    && t.state != R.PlainHandshake
  }

  lemma StepSameAgreement(e: R.Env, s: R.Session, event: R.Event)
    requires s.state != R.PlainHandshake
    ensures SameAgreement(s, R.Step(e, s, event).session)
  {
    hide R.ConsentPhase, R.TakeOffline, Open, Verified, Decrypted;
    if event.Turn? {
      ConsentSame(e, s, event.elapsed);
      var asked := R.ConsentPhase(e, s, event.elapsed).session;
      if event.input.Arrived? {
        var frame := event.input.frame;
        var offline := Open(e.p, asked.receiveKeys, asked.clientSequence, frame);
        if offline.Some? {
          OfflineSame(e, R.Counted(e, asked, frame), offline.value);
        }
      }
    }
  }

  lemma QuietStep(e: R.Env, s: R.Session, event: R.Event)
    requires s.state != R.PlainHandshake && !(event.Turn? && event.input.Arrived?)
    ensures Same(s, R.Step(e, s, event).session) && ActsOn(e, s, event) == []
  {
    hide R.ConsentPhase, Open;
    if event.Turn? {
      ConsentSame(e, s, event.elapsed);
    }
  }

  /** A frame either ends the run or is the next one to open. */
  lemma FrameStep(e: R.Env, s: R.Session, elapsed: bool, frame: Bytes)
    requires s.state != R.PlainHandshake
    ensures var event := R.Turn(elapsed, R.Arrived(frame)); var t := R.Step(e, s, event);
      match Open(e.p, s.receiveKeys, s.clientSequence, frame)
      case None => t.outcome != R.Running && ActsOn(e, s, event) == []
      case Some(m) =>
        && (ActsOn(e, s, event) == [m] || (ActsOn(e, s, event) == [] && t.outcome != R.Running))
        && (t.outcome == R.Running ==>
              t.session.receiveKeys == s.receiveKeys && t.session.clientSequence == s.clientSequence + 1
              && t.session.state != R.PlainHandshake)
  {
    hide R.ConsentPhase, R.TakeOffline, Verified, Decrypted;
    ConsentSame(e, s, elapsed);
    var asked := R.ConsentPhase(e, s, elapsed).session;
    match Open(e.p, s.receiveKeys, s.clientSequence, frame)
    case None =>
    case Some(m) => OfflineSame(e, asked.(clientSequence := asked.clientSequence + 1), m);
  }

  lemma {:induction false} ActsAsAccepted(e: R.Env, s: R.Session, events: seq<R.Event>)
    requires s.state != R.PlainHandshake
    ensures ActsOnAll(e, s, events) <= AcceptAll(e.p, s.receiveKeys, s.clientSequence, Delivered(events))
    decreases |events|
  {
    hide R.Step, ActsOn, Open;
    if events != [] {
      var t := R.Step(e, s, events[0]);
      match events[0]
      case Turn(elapsed, Arrived(frame)) =>
        FrameStep(e, s, elapsed, frame);
        assert ([frame] + Delivered(events[1..]))[1..] == Delivered(events[1..]);
        if t.outcome == R.Running {
          ActsAsAccepted(e, t.session, events[1..]);
        }
      case _ =>
        QuietStep(e, s, events[0]);
        if t.outcome == R.Running {
          ActsAsAccepted(e, t.session, events[1..]);
        }
    }
  }

  /** The receiver: the channel may drop, repeat and reorder, and the user and the clock may do what they like. */
  lemma ReceiverPrefix(e: R.Env, s: R.Session, events: seq<R.Event>, ivs: Ivs, sent: seq<Bytes>)
    requires s.state != R.PlainHandshake && CipherLaws(e.p) && HashLaws(e.p) && GoodKeys(s.receiveKeys)
    requires GoodIvs(ivs) && Sendable(sent)
    requires s.clientSequence <= |sent| && Unforged(e.p, s.receiveKeys, ivs, sent, Delivered(events))
    ensures ActsOnAll(e, s, events) <= sent[s.clientSequence..]
  {
    hide CipherLaws, HashLaws, Unforged, AcceptAll, ActsOnAll;
    ActsAsAccepted(e, s, events);
    PrefixSafety(e.p, s.receiveKeys, ivs, sent, s.clientSequence, Delivered(events));
  }

  // ---------------------------------------------------------------- the sender

  ghost predicate SameSender(s: S.Sender, t: S.Sender) {
    t.receiveKeys == s.receiveKeys && t.receiveSequence == s.receiveSequence
  }

  lemma SenderSendsSame(e: S.SenderEnv, s: S.Sender, offline: Bytes, sharing: Bytes)
    ensures SameSender(s, S.SendOffline(e, s, offline).sender) && SameSender(s, S.SendSharing(e, s, sharing).sender)
  {
    hide Seal, AesEncrypt, Plain, DataFrame, LastFrame;
  }

  function After(r: S.Received): S.Sender {
    match r
    case Failed(s) => s
    case Nothing(s) => s
    case Got(s, _) => s
  }

  lemma ControlSame(e: S.SenderEnv, s: S.Sender, offline: Bytes)
    ensures SameSender(s, After(S.TakeOffline(e, s, offline))) && After(S.TakeOffline(e, s, offline)).stage == s.stage
  {
    hide ParseOffline, S.ParseControl, S.KeepAliveAck, Seal, AesEncrypt, Plain;
  }

  /** Past the connection response every frame is sealed. */
  ghost predicate Sealed(s: S.Sender) {
    s.stage == S.AwaitPairedKey || s.stage == S.AwaitPairedResult || s.stage == S.AwaitDecision || s.stage == S.Sending
  }

  function SenderActsOn(e: S.SenderEnv, s: S.Sender, frame: Bytes): seq<Bytes> {
    if !Acceptable(frame) then []
    else match Open(e.p, s.receiveKeys, s.receiveSequence, frame)
         case None => []
         case Some(offline) => [offline]
  }

  function SenderActsOnAll(e: S.SenderEnv, s: S.Sender, frames: seq<Bytes>): seq<Bytes>
    decreases |frames|
  {
    if frames == [] then []
    else
      var t := S.TakeFrame(e, s, frames[0]);
      SenderActsOn(e, s, frames[0]) + if !t.ok then [] else SenderActsOnAll(e, t.sender, frames[1..])
  }

  lemma SharingTaken(e: S.SenderEnv, s: S.Sender, sharing: Bytes)
    requires Sealed(s)
    ensures var t := S.TakeSharing(e, s, sharing); SameSender(s, t.sender) && (t.ok ==> Sealed(t.sender))
  {
    hide S.SendSharing, S.PairedKeyResult, S.Introduction, S.DecisionAccepted;
    SenderSendsSame(e, s.(stage := S.AwaitPairedResult), [], S.PairedKeyResult());
    SenderSendsSame(e, s.(stage := S.AwaitDecision), [], S.Introduction(e.files));
    StageKept(e, s.(stage := S.AwaitPairedResult), S.PairedKeyResult());
    StageKept(e, s.(stage := S.AwaitDecision), S.Introduction(e.files));
  }

  lemma StageKept(e: S.SenderEnv, s: S.Sender, sharing: Bytes)
    ensures S.SendSharing(e, s, sharing).sender.stage == s.stage
  {
    hide Seal, AesEncrypt, Plain, DataFrame, LastFrame;
  }

  lemma SenderFrameStep(e: S.SenderEnv, s: S.Sender, frame: Bytes)
    requires Sealed(s)
    ensures var t := S.TakeFrame(e, s, frame);
      match Open(e.p, s.receiveKeys, s.receiveSequence, frame)
      case None => !t.ok && SenderActsOn(e, s, frame) == []
      case Some(m) =>
        && (SenderActsOn(e, s, frame) == [m] || (SenderActsOn(e, s, frame) == [] && !t.ok))
        && (t.ok ==> t.sender.receiveKeys == s.receiveKeys && t.sender.receiveSequence == s.receiveSequence + 1
                     && Sealed(t.sender))
  {
    hide S.TakeOffline, S.TakeSharing, Verified, Decrypted;
    match Open(e.p, s.receiveKeys, s.receiveSequence, frame)
    case None =>
    case Some(m) =>
      var s1 := s.(receiveSequence := s.receiveSequence + 1);
      ControlSame(e, s1, m);
      if S.TakeOffline(e, s1, m).Got? {
        SharingTaken(e, S.TakeOffline(e, s1, m).sender, S.TakeOffline(e, s1, m).sharing);
      }
  }

  lemma {:induction false} SenderActsAsAccepted(e: S.SenderEnv, s: S.Sender, frames: seq<Bytes>)
    requires Sealed(s)
    ensures SenderActsOnAll(e, s, frames) <= AcceptAll(e.p, s.receiveKeys, s.receiveSequence, frames)
    decreases |frames|
  {
    hide S.TakeFrame, SenderActsOn, Open;
    if frames != [] {
      SenderFrameStep(e, s, frames[0]);
      var t := S.TakeFrame(e, s, frames[0]);
      if t.ok {
        SenderActsAsAccepted(e, t.sender, frames[1..]);
      }
    }
  }

  lemma SenderPrefix(e: S.SenderEnv, s: S.Sender, frames: seq<Bytes>, ivs: Ivs, sent: seq<Bytes>)
    requires Sealed(s) && CipherLaws(e.p) && HashLaws(e.p) && GoodKeys(s.receiveKeys) && GoodIvs(ivs) && Sendable(sent)
    requires s.receiveSequence <= |sent| && Unforged(e.p, s.receiveKeys, ivs, sent, frames)
    ensures SenderActsOnAll(e, s, frames) <= sent[s.receiveSequence..]
  {
    hide CipherLaws, HashLaws, Unforged, AcceptAll, SenderActsOnAll;
    SenderActsAsAccepted(e, s, frames);
    PrefixSafety(e.p, s.receiveKeys, ivs, sent, s.receiveSequence, frames);
  }
}
