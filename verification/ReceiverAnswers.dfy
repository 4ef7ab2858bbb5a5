/** What the receiver says: over every run, an acceptance goes out only if the user has accepted. */
module ReceiverAnswers {
  import opened ByteStrings
  import opened ProtoWire
  import opened Crypto
  import opened Destination
  import opened Framing
  import opened Frames
  import opened FrameReading
  import opened HandshakeFrames
  import opened MapSum
  import opened KeyAgreement
  import opened SecureChannel
  import opened Receiver
  import opened ReceiverSafety
  import opened ReceiverChunks
  import opened ReceiverRuns
  import PrefixRuns
  import S = Sender

  // ---------------------------------------------------------------- acceptances

  /** A sharing frame that makes the peer send: kind 2, status 1. */
  ghost predicate Accepts(sharing: Bytes) {
    VarintIn(sharing, [2], 1) == Some(2) && VarintIn(sharing, [2, 3], 1) == Some(1)
  }

  /** An offline frame that carries one. */
  ghost predicate Accepting(offline: Bytes) {
    exists p: Packet :: Brings(offline, p) && Accepts(p.body)
  }

  ghost predicate Mild(messages: seq<Bytes>) { forall m :: m in messages ==> !Accepting(m) }

  lemma CarriedIs(offline: Bytes, p: Packet)
    requires CarriesPacket(offline, p)
    ensures Accepting(offline) ==> Accepts(p.body)
  {
    hide Carries, Inner, ParsePacket, ParseOffline, Accepts;
    OfflineMeaning(offline);
    if Accepting(offline) {
      var q :| Brings(offline, q) && Accepts(q.body);
      PacketMeaning(Inner(offline, [2, 4]).value, q);
    }
  }

  lemma NothingAccepts()
    ensures !Accepts([])
  {
    hide GetBytes, GetVarint;
    FieldPaths([], 2, 3, 0);
    assert GetBytes([], 2) == None by {
      EmptyMessage();
    }
  }

  lemma EmptyMessage()
    ensures GetBytes([], 2) == None
  {
    var none: seq<Field> := [];
    ParseEncode(none);
    assert Encode(none) == [];
  }

  lemma MildPair(id: u64, sharing: Bytes)
    requires !Accepts(sharing) && |sharing| < TWO31 - 200
    ensures !Accepting(DataFrame(id, BYTES_PAYLOAD, SizeOf(sharing), None, 0, sharing))
    ensures !Accepting(LastFrame(id, BYTES_PAYLOAD, SizeOf(sharing), None, SizeOf(sharing)))
  {
    hide Accepts, Accepting, DataFrame, LastFrame, CarriesPacket;
    var n := SizeOf(sharing);
    NothingAccepts();
    DataFrameCarries(id, BYTES_PAYLOAD, n, None, 0, sharing);
    LastFrameCarries(id, BYTES_PAYLOAD, n, None, n);
    CarriedIs(DataFrame(id, BYTES_PAYLOAD, n, None, 0, sharing), Packet(id, BYTES_PAYLOAD, n, 0, 0, sharing));
    CarriedIs(LastFrame(id, BYTES_PAYLOAD, n, None, n), Packet(id, BYTES_PAYLOAD, n, 1, n, []));
  }

  /** A frame of another kind is no acceptance. */
  lemma OtherKind(kind: u64, number: nat, payload: Bytes)
    requires 0 < number < TWO31 && |payload| < TWO32
    ensures kind != 2 ==> !Accepts(Versioned(kind, number, payload))
    ensures kind != 3 ==> !Accepting(Versioned(kind, number, payload))
  {
    hide GetBytes, GetVarint, Versioned, V1, Carries;
    VersionedFrame(kind, number, payload);
    FieldPaths(Versioned(kind, number, payload), 2, 3, 0);
  }

  lemma Polite(e: Env)
    requires GoodEnv(e)
    ensures !Accepts(PairedKeyEncryption(e.pairedData, e.pairedHash)) && !Accepts(PairedKeyResult())
    ensures !Accepts(IntroductionResponse(false)) && !Accepting(KeepAliveAck())
    ensures |PairedKeyEncryption(e.pairedData, e.pairedHash)| <= 1000 && |PairedKeyResult()| <= 1000
    ensures |IntroductionResponse(false)| <= 1000
  {
    hide Encode, Versioned, Accepting;
    PairedSizes(e.pairedData, e.pairedHash);
    OtherKind(3, 4, Encode([B(1, e.pairedData), B(2, e.pairedHash)]));
    OtherKind(4, 5, Encode([V(1, 3)]));
    SharingRead(3, 4, Encode([B(1, e.pairedData), B(2, e.pairedHash)]));
    SharingRead(4, 5, Encode([V(1, 3)]));
    DecisionRead(false);
    DecisionMeaning(IntroductionResponse(false));
    SmallSize([V(1, 1)]);
    OtherKind(5, 6, Encode([V(1, 1)]));
  }

  // ---------------------------------------------------------------- what a step adds to the outbox

  /** The step has sealed and sent these messages and nothing else. */
  ghost predicate Said(e: Env, s: Session, r: Result, said: seq<Bytes>) {
    && r.session.sendKeys == s.sendKeys
    && r.session.outbox == s.outbox + SealAll(e.p, s.sendKeys, e.ivs, s.serverSequence, said)
    && (r.ok ==> r.session.serverSequence == s.serverSequence + |said|)
  }

  /** And no acceptance among them. */
  ghost predicate Mildly(e: Env, s: Session, r: Result) { exists said :: Said(e, s, r, said) && Mild(said) }

  lemma SaysNothing(e: Env, s: Session, r: Result)
    requires r.session.sendKeys == s.sendKeys && r.session.outbox == s.outbox
    requires r.session.serverSequence == s.serverSequence
    ensures Mildly(e, s, r)
  {
    assert s.outbox + [] == s.outbox;
    assert SealAll(e.p, s.sendKeys, e.ivs, s.serverSequence, []) == [];
    assert Said(e, s, r, []) && Mild([]);
  }

  lemma OfflineSaid(e: Env, s: Session, m: Bytes)
    ensures var r := SendOffline(e, s, m); Said(e, s, r, [m]) || (Said(e, s, r, []) && !r.ok)
  {
    hide Seal, AesEncrypt, Plain;
    var n := s.serverSequence;
    assert [m][1..] == [];
    assert SealAll(e.p, s.sendKeys, e.ivs, n + 1, []) == [] && SealAll(e.p, s.sendKeys, e.ivs, n, []) == [];
    assert SealAll(e.p, s.sendKeys, e.ivs, n, [m]) == [Seal(e.p, s.sendKeys, e.ivs(n + 1), n + 1, m)];
    assert s.outbox + [] == s.outbox;
  }

  lemma SaysMore(e: Env, s: Session, r: Result, first: seq<Bytes>, t: Result, second: seq<Bytes>)
    requires Said(e, s, r, first) && r.ok && Said(e, r.session, t, second)
    ensures Said(e, s, t, first + second)
  {
    hide SealAll;
    SealAllAppend(e.p, s.sendKeys, e.ivs, s.serverSequence, first, second);
  }

  lemma OfflineMildly(e: Env, s: Session, m: Bytes)
    requires !Accepting(m)
    ensures Mildly(e, s, SendOffline(e, s, m))
  {
    hide SendOffline, Said, Accepting;
    OfflineSaid(e, s, m);
    assert Mild([m]) && Mild([]);
  }

  lemma SharingMildly(e: Env, s: Session, sharing: Bytes)
    requires !Accepts(sharing) && |sharing| <= 1000
    ensures Mildly(e, s, SendSharing(e, s, sharing))
  {
    hide SendOffline, Accepting, Accepts, DataFrame, LastFrame, SealAll;
    var id := e.ids(s.drawn);
    MildPair(id, sharing);
    var m0 := DataFrame(id, BYTES_PAYLOAD, SizeOf(sharing), None, 0, sharing);
    var m1 := LastFrame(id, BYTES_PAYLOAD, SizeOf(sharing), None, SizeOf(sharing));
    var s1 := s.(drawn := s.drawn + 1);
    var first := SendOffline(e, s1, m0);
    OfflineSaid(e, s1, m0);
    assert Mild([m0]) && Mild([]);
    if first.ok {
      assert Said(e, s, first, [m0]);
      var second := SendOffline(e, first.session, m1);
      OfflineSaid(e, first.session, m1);
      var rest := if Said(e, first.session, second, [m1]) then [m1] else [];
      SaysMore(e, s, first, [m0], second, rest);
      assert Mild([m0] + rest);
    } else {
      var said := if Said(e, s1, first, [m0]) then [m0] else [];
      assert Said(e, s, first, said);
    }
  }

  // ---------------------------------------------------------------- the steps of a session without consent

  /** Only the files, what they are counted by, and the question. */
  lemma {:induction false} AddsSilently(e: Env, s: Session, metadata: seq<Bytes>, index: nat, total: nat, text: bool)
    requires index <= |metadata|
    ensures var t := AddAll(e, s, metadata, index, total, text).session;
      t.sendKeys == s.sendKeys && t.outbox == s.outbox && t.serverSequence == s.serverSequence
    decreases |metadata| - index
  {
    hide GetBytes, GetVarint, Choose;
    if index < |metadata| {
      var added := if text then AddTextMetadata(e, s, metadata[index], index)
                   else AddFileMetadata(e, s, metadata[index]);
      if added.size.Some? && total <= MAX_INT64 - added.size.value {
        AddsSilently(e, added.session, metadata, index + 1, total + added.size.value, text);
      }
    }
  }

  lemma IntroductionSilent(e: Env, s: Session, introduction: Bytes)
    ensures var t := Introduction(e, s, introduction).session;
      t.sendKeys == s.sendKeys && t.outbox == s.outbox && t.serverSequence == s.serverSequence
  {
    hide AddAll, GetAll;
    AddsSilently(e, s, GetAll(introduction, 1), 0, 0, false);
    var files := AddAll(e, s, GetAll(introduction, 1), 0, 0, false);
    AddsSilently(e, files.session, GetAll(introduction, 2), 0, files.total, true);
  }

  lemma StateLater(e: Env, s: Session, r: Result, state: State)
    requires Mildly(e, s, r)
    ensures Mildly(e, s, Result(r.session.(state := state), r.ok))
  {
    hide SealAll, Mild;
    var said :| Said(e, s, r, said) && Mild(said);
    assert Said(e, s, Result(r.session.(state := state), r.ok), said);
  }

  lemma SharingFrameMildly(e: Env, s: Session, frame: Bytes)
    requires GoodEnv(e)
    ensures Mildly(e, s, SharingFrame(e, s, frame))
  {
    hide ParseSharing, GetBytes, SendSharing, Introduction, PairedKeyResult, Mildly, GoodEnv, Accepts;
    Polite(e);
    SharingMildly(e, s, PairedKeyResult());
    StateLater(e, s, SendSharing(e, s, PairedKeyResult()), AwaitPairedResult);
    SaysNothing(e, s, Result(s, true));
    SaysNothing(e, s, Result(s, false));
    StateLater(e, s, Result(s, true), AwaitIntroduction);
    if ParseSharing(frame).Some? && GetBytes(ParseSharing(frame).value.v1, 2).Some? {
      var introduction := GetBytes(ParseSharing(frame).value.v1, 2).value;
      IntroductionSilent(e, s, introduction);
      SaysNothing(e, s, Introduction(e, s, introduction));
    }
  }

  /** A change of other fields before the step makes no difference. */
  lemma OtherFields(e: Env, s: Session, s1: Session, r: Result)
    requires Mildly(e, s1, r)
    requires s1.sendKeys == s.sendKeys && s1.outbox == s.outbox && s1.serverSequence == s.serverSequence
    ensures Mildly(e, s, r)
  {
    hide SealAll, Mild;
    var said :| Said(e, s1, r, said) && Mild(said);
    assert Said(e, s, r, said);
  }

  lemma ChunkSilent(s: Session, id: int, offset: nat, flags: u64, body: Bytes)
    ensures var t := FileChunk(s, id, offset, flags, body).session;
      t.sendKeys == s.sendKeys && t.outbox == s.outbox && t.serverSequence == s.serverSequence
  {
  }

  lemma PacketMildly(e: Env, s: Session, packet: Packet)
    requires GoodEnv(e)
    ensures Mildly(e, s, TakePacket(e, s, packet))
  {
    hide Mildly, FileChunk, SharingFrame, Reassemble, GoodEnv;
    var id := ToInt64(packet.id);
    SaysNothing(e, s, Result(s, false));
    ChunkSilent(s, id, packet.offset, packet.flags, packet.body);
    SaysNothing(e, s, FileChunk(s, id, packet.offset, packet.flags, packet.body));
    var re := Reassemble(s, packet);
    BuffersOnly(s, packet);
    SaysNothing(e, s, Result(re.session, true));
    SaysNothing(e, s, Result(re.session, false));
    if re.Complete? {
      ChunkSilent(re.session, id, 0, 1, re.payload);
      SaysNothing(e, s, FileChunk(re.session, id, 0, 1, re.payload));
      SharingFrameMildly(e, re.session, re.payload);
      OtherFields(e, s, re.session, SharingFrame(e, re.session, re.payload));
    }
  }

  lemma BuffersOnly(s: Session, packet: Packet)
    ensures var t := Reassemble(s, packet).session; t == s.(buffers := t.buffers, buffered := t.buffered)
  {
  }

  lemma FrameMildly(e: Env, s: Session, secure: Bytes)
    requires GoodEnv(e)
    ensures Mildly(e, s, EncryptedFrame(e, s, secure))
  {
    hide Mildly, TakePacket, Open, SendOffline, KeepAliveAck, CountAfter, ParseOffline, ParsePacket, GoodEnv;
    var s1 := Counted(e, s, secure);
    SaysNothing(e, s, Result(s1, false));
    SaysNothing(e, s, Result(s1, true));
    Polite(e);
    OfflineMildly(e, s1, KeepAliveAck());
    OtherFields(e, s, s1, SendOffline(e, s1, KeepAliveAck()));
    var offline := Open(e.p, s.receiveKeys, s.clientSequence, secure);
    if offline.Some? {
      match ParseOffline(offline.value)
      case TransferOf(Some(transfer)) =>
        if ParsePacket(transfer).Some? {
          PacketMildly(e, s1, ParsePacket(transfer).value);
          OtherFields(e, s, s1, TakePacket(e, s1, ParsePacket(transfer).value));
        }
      case _ =>
    }
  }

  // ---------------------------------------------------------------- runs

  /** Two frames in the clear, and then, under the session's keys, no acceptance. */
  ghost predicate Reserved(e: Env, s: Session, said: seq<Bytes>) {
    Mild(said) && exists clear: seq<Bytes> ::
      |clear| <= 2 && s.outbox == clear + SealAll(e.p, s.sendKeys, e.ivs, 0, said)
  }

  ghost predicate NeverAccepted(e: Env, s: Session) { exists said :: Reserved(e, s, said) }

  /** While the session lives, the counter is the number of sealed messages. */
  ghost predicate SoFar(e: Env, s: Session) {
    if s.state == PlainHandshake then s.serverSequence == 0 && |s.outbox| <= (if s.stage <= 1 then 0 else 1)
    else exists said :: Reserved(e, s, said) && |said| == s.serverSequence
  }

  lemma SoFarNever(e: Env, s: Session)
    requires SoFar(e, s)
    ensures NeverAccepted(e, s)
  {
    if s.state == PlainHandshake {
      ClearOnly(e, s);
    }
  }

  lemma ClearOnly(e: Env, s: Session)
    requires |s.outbox| <= 2
    ensures Reserved(e, s, [])
  {
    assert SealAll(e.p, s.sendKeys, e.ivs, 0, []) == [];
    assert s.outbox + [] == s.outbox;
  }

  lemma MildlyReserved(e: Env, s: Session, said: seq<Bytes>, r: Result)
    requires Reserved(e, s, said) && |said| == s.serverSequence && Mildly(e, s, r)
    ensures NeverAccepted(e, r.session)
    ensures r.ok && r.session.state != PlainHandshake ==> SoFar(e, r.session)
  {
    hide SealAll, Accepting;
    var clear: seq<Bytes> :| |clear| <= 2 && s.outbox == clear + SealAll(e.p, s.sendKeys, e.ivs, 0, said);
    var more :| Said(e, s, r, more) && Mild(more);
    SealAllAppend(e.p, s.sendKeys, e.ivs, 0, said, more);
    assert r.session.outbox == clear + SealAll(e.p, s.sendKeys, e.ivs, 0, said + more);
    assert Reserved(e, r.session, said + more);
  }

  lemma HandshakeReserved(e: Env, s: Session, frame: Bytes)
    requires GoodEnv(e) && s.state == PlainHandshake && SoFar(e, s)
    ensures var r := Handshake(e, s, frame);
      NeverAccepted(e, r.session) && (r.ok ==> SoFar(e, r.session))
  {
    hide ConnectionRequestValid, ParseClientInit, ParseClientFinish, ParsePublic, Agree, ServerInit,
         ClientResponseValid, SendSharing, ConnectionResponse, PairedKeyEncryption, Mildly, Reserved, GoodEnv, Accepts;
    var r := Handshake(e, s, frame);
    if s.stage <= 2 {
      ClearOnly(e, r.session);
    } else {
      var sent := SendFrame(s.(stage := s.stage + 1), ConnectionResponse());
      ClearOnly(e, sent.session);
      ClearOnly(e, s.(stage := s.stage + 1));
      var talking := sent.session.(state := AwaitPairedEncryption);
      ClearOnly(e, talking);
      Polite(e);
      SharingMildly(e, talking, PairedKeyEncryption(e.pairedData, e.pairedHash));
      MildlyReserved(e, talking, [], SendSharing(e, talking, PairedKeyEncryption(e.pairedData, e.pairedHash)));
      PrefixRuns.SendsSame(e, talking, [], PairedKeyEncryption(e.pairedData, e.pairedHash));
    }
  }

  /** Without an accepted question the consent phase sends a refusal or nothing. */
  lemma ConsentMildly(e: Env, s: Session, elapsed: bool)
    requires GoodEnv(e) && !(s.state == AwaitConsent && s.consent == 1)
    ensures var t := ConsentPhase(e, s, elapsed);
      Mildly(e, s, Result(t.session, false)) && (t.outcome == Running ==> t.session == s)
  {
    hide SendSharing, IntroductionResponse, Mild, SealAll, GoodEnv, Accepts;
    Polite(e);
    SharingMildly(e, s, IntroductionResponse(false));
    SaysNothing(e, s, Result(s, false));
    var t := ConsentPhase(e, s, elapsed).session;
    if t != s {
      var r := SendSharing(e, s, IntroductionResponse(false));
      var said :| Said(e, s, r, said) && Mild(said);
      assert Said(e, s, Result(t, false), said);
    }
  }

  lemma StepReserved(e: Env, s: Session, event: Event)
    requires GoodEnv(e) && SoFar(e, s) && !(s.state == AwaitConsent && s.consent == 1)
    ensures var t := Step(e, s, event);
      NeverAccepted(e, t.session) && (t.outcome == Running ==> SoFar(e, t.session))
  {
    hide Handshake, ConsentPhase, EncryptedFrame, Mildly, NeverAccepted, Reserved, GoodEnv;
    SoFarNever(e, s);
    var t := Step(e, s, event);
    match event
    case Accept => SlotOnly(e, s, t.session);
    case Reject => SlotOnly(e, s, t.session);
    case Turn(elapsed, input) =>
      if s.state == PlainHandshake {
        if input.Arrived? {
          HandshakeReserved(e, s, input.frame);
        }
      } else {
        var said :| Reserved(e, s, said) && |said| == s.serverSequence;
        ConsentMildly(e, s, elapsed);
        var asked := ConsentPhase(e, s, elapsed);
        MildlyReserved(e, s, said, Result(asked.session, false));
        if asked.outcome == Running && input.Arrived? {
          FrameMildly(e, s, input.frame);
          MildlyReserved(e, s, said, EncryptedFrame(e, s, input.frame));
          StaysSealed(e, s, input.frame);
        }
      }
  }

  lemma SlotOnly(e: Env, s: Session, t: Session)
    requires SoFar(e, s) && t == s.(consent := t.consent)
    ensures SoFar(e, t) && NeverAccepted(e, t)
  {
    hide SealAll, Mild;
    if s.state != PlainHandshake {
      var said :| Reserved(e, s, said) && |said| == s.serverSequence;
      assert Reserved(e, t, said);
    }
    SoFarNever(e, t);
  }

  lemma StaysSealed(e: Env, s: Session, frame: Bytes)
    requires s.state != PlainHandshake
    ensures EncryptedFrame(e, s, frame).session.state != PlainHandshake
  {
    hide Open, CountAfter, TakeOffline;
    var offline := Open(e.p, s.receiveKeys, s.clientSequence, frame);
    if offline.Some? {
      PrefixRuns.OfflineSame(e, Counted(e, s, frame), offline.value);
    }
  }

  lemma {:induction false} RunReserved(e: Env, disk0: map<Path, Bytes>, done: set<Landed>, s: Session,
                                       events: seq<Event>)
    requires GoodEnv(e) && Inv(disk0, done, s) && GateInv(false, disk0, s) && SoFar(e, s)
    requires !Granted(e, s, events)
    ensures NeverAccepted(e, Run(e, s, events).session)
    decreases |events|
  {
    hide Step, Inv, GoodEnv, Grants, SoFar, NeverAccepted;
    SoFarNever(e, s);
    if events != [] {
      var t := Step(e, s, events[0]);
      StepGate(e, disk0, done, s, events[0]);
      StepKeeps(e, disk0, done, s, events[0]);
      StepReserved(e, s, events[0]);
      if t.outcome == Running {
        TurnInv(disk0, done, s, t);
        RunReserved(e, disk0, done + Finished(s, t.session), t.session, events[1..]);
      }
    }
  }

  /** Unless the user accepted this session's question while it was pending, everything the receiver has
      sent is two frames in the clear and sealed messages none of which is an acceptance. */
  lemma AcceptanceNeedsConsent(e: Env, disk0: map<Path, Bytes>, space: nat, link: nat, consent: int, events: seq<Event>)
    requires GoodEnv(e)
    ensures Granted(e, Fresh(disk0, space, link, consent), events)
            || NeverAccepted(e, Run(e, Fresh(disk0, space, link, consent), events).session)
  {
    hide Run, GoodEnv, Granted, NeverAccepted;
    var s := Fresh(disk0, space, link, consent);
    if !Granted(e, s, events) {
      FreshInv(disk0, space, link, consent);
      assert OpenPaths(s) == {};
      RunReserved(e, disk0, {}, s, events);
    }
  }
}
