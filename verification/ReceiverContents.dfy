/** What is in the files of a run: the bodies the receiver accepted for each of them, in order. */
module ReceiverContents {
  import opened ByteStrings
  import opened Destination
  import opened Framing
  import opened Frames
  import opened SecureChannel
  import opened MapSum
  import opened Receiver
  import opened ReceiverSafety

  // ---------------------------------------------------------------- the log of a run

  /** A body that processIncomingFile has accepted, the destination of its file and the offset in its frame. */
  datatype Chunk = Chunk(path: Path, offset: nat, body: Bytes)

  /** What the log holds for one destination. */
  function Content(log: seq<Chunk>, path: Path): Bytes {
    if log == [] then [] else Part(log[0], path) + Content(log[1..], path)
  }

  function Part(chunk: Chunk, path: Path): Bytes { if chunk.path == path then chunk.body else [] }

  lemma {:induction false} ContentSnoc(log: seq<Chunk>, chunk: Chunk, path: Path)
    ensures Content(log + [chunk], path) == Content(log, path) + Part(chunk, path)
  {
    hide Part;
    if log == [] {
      assert log + [chunk] == [chunk] && [chunk][1..] == [];
    } else {
      assert (log + [chunk])[1..] == log[1..] + [chunk];
      ContentSnoc(log[1..], chunk, path);
    }
  }

  lemma {:induction false} ContentAppend(log: seq<Chunk>, more: seq<Chunk>, path: Path)
    ensures Content(log + more, path) == Content(log, path) + Content(more, path)
    decreases |log|
  {
    hide Part;
    if log == [] {
      assert log + more == more;
    } else {
      assert (log + more)[1..] == log[1..] + more;
      ContentAppend(log[1..], more, path);
    }
  }

  /** Each body came with the offset at which its file then ended. */
  ghost predicate Placed(log: seq<Chunk>) {
    forall i :: 0 <= i < |log| ==> log[i].offset == |Content(log[..i], log[i].path)|
  }

  lemma PlacedNext(log: seq<Chunk>, chunk: Chunk)
    requires Placed(log) && chunk.offset == |Content(log, chunk.path)|
    ensures Placed(log + [chunk])
  {
    hide Content;
    var next := log + [chunk];
    forall i | 0 <= i < |next|
      ensures next[i].offset == |Content(next[..i], next[i].path)|
    {
      if i < |log| {
        assert next[..i] == log[..i];
      } else {
        assert next[..i] == log;
      }
    }
  }

  /** So it lies there in the finished file. */
  lemma LiesAtOffset(log: seq<Chunk>, i: nat)
    requires Placed(log) && i < |log|
    ensures var c, content := log[i], Content(log, log[i].path);
      c.offset + |c.body| <= |content| && content[c.offset..c.offset + |c.body|] == c.body
  {
    hide Content;
    var c := log[i];
    var before, after := log[..i], log[i + 1..];
    assert log == before + [c] + after;
    ContentAppend(before + [c], after, c.path);
    ContentSnoc(before, c, c.path);
  }

  function ChunkLog(s: Session, id: int, offset: nat, flags: u64, body: Bytes): seq<Chunk> {
    if FileChunk(s, id, offset, flags, body).ok then [Chunk(s.files[id].path, offset, body)] else []
  }

  /** A file payload is one chunk; a byte payload is one when it is complete. */
  function PacketLog(s: Session, packet: Packet): seq<Chunk> {
    var id := ToInt64(packet.id);
    if packet.offset > MAX_INT64 then []
    else if packet.kind == FILE_PAYLOAD then
      if id !in s.files || packet.total != s.files[id].size then []
      else ChunkLog(s, id, packet.offset, packet.flags, packet.body)
    else if packet.kind != BYTES_PAYLOAD then []
    else match Reassemble(s, packet)
         case Complete(s1, payload) =>
           if s1.state == Receiving && id in s1.files && s1.files[id].bytePayload
           then ChunkLog(s1, id, 0, 1, payload) else []
         case _ => []
  }

  function OfflineLog(s: Session, offline: Bytes): seq<Chunk> {
    match ParseOffline(offline)
    case TransferOf(Some(transfer)) =>
      if ParsePacket(transfer).Some? then PacketLog(s, ParsePacket(transfer).value) else []
    case _ => []
  }

  function FrameLog(e: Env, s: Session, secure: Bytes): seq<Chunk> {
    match Open(e.p, s.receiveKeys, s.clientSequence, secure)
    case None => []
    case Some(offline) => OfflineLog(Counted(e, s, secure), offline)
  }

  function StepLog(e: Env, s: Session, event: Event): seq<Chunk> {
    match event
    case Turn(elapsed, Arrived(frame)) =>
      if s.state == PlainHandshake || !Acceptable(frame) then []
      else
        var asked := ConsentPhase(e, s, elapsed);
        if asked.outcome != Running then [] else FrameLog(e, asked.session, frame)
    case _ => []
  }

  /** Every body accepted in the course of a run, in order. */
  function Log(e: Env, s: Session, events: seq<Event>): seq<Chunk>
    decreases |events|
  {
    if events == [] then []
    else
      var t := Step(e, s, events[0]);
      StepLog(e, s, events[0]) + if t.outcome == Running then Log(e, t.session, events[1..]) else []
  }

  // ---------------------------------------------------------------- the disk follows the log

  /** The finished files hold what was accepted for them. */
  ghost predicate Told(done: set<Landed>, s: Session, log: seq<Chunk>) {
    Placed(log) && forall d :: d in done ==> d.path in s.disk && s.disk[d.path] == Content(log, d.path)
  }

  /** While files come in, so do the unfinished ones, each at a path of its own. */
  ghost predicate Traced(done: set<Landed>, s: Session, log: seq<Chunk>) {
    && Told(done, s, log) && s.state == Receiving
    && (forall i, j :: i in s.files && j in s.files && s.files[i].path == s.files[j].path ==> i == j)
    && (forall i :: i in s.files ==>
          && s.files[i].path !in Paths(done) && s.files[i].path in s.disk
          && s.files[i].received == |s.disk[s.files[i].path]|
          && s.disk[s.files[i].path] == Content(log, s.files[i].path))
  }

  /** What a step in that state keeps. */
  ghost predicate TracedOn(done: set<Landed>, s: Session, log: seq<Chunk>, r: Result) {
    && r.session.state == Receiving && Told(done + Finished(s, r.session), r.session, log)
    && (r.ok ==> Traced(done + Finished(s, r.session), r.session, log))
  }

  lemma NothingTouched(done: set<Landed>, s: Session, log: seq<Chunk>, r: Result)
    requires Traced(done, s, log) && r.session.files == s.files && r.session.disk == s.disk
    requires r.session.state == s.state
    ensures TracedOn(done, s, log + [], r)
  {
    assert log + [] == log;
    NothingFinished(done, s, r.session);
  }

  /** A body goes to its own file and to no other. */
  lemma WriteTraced(done: set<Landed>, s: Session, log: seq<Chunk>, t: Session, id: int, offset: nat, body: Bytes)
    requires Traced(done, s, log) && id in s.files && id in t.files && t.state == Receiving
    requires t.disk == s.disk[s.files[id].path := s.disk[s.files[id].path] + body]
    requires t.files == s.files[id := t.files[id]] && t.files[id].path == s.files[id].path
    requires t.files[id].received == s.files[id].received + |body| && offset == s.files[id].received
    ensures Traced(done, t, log + [Chunk(s.files[id].path, offset, body)])
  {
    var chunk := Chunk(s.files[id].path, offset, body);
    PlacedNext(log, chunk);
    forall d | d in done
      ensures d.path in t.disk && t.disk[d.path] == Content(log + [chunk], d.path)
    {
      assert d.path in Paths(done);
      ContentSnoc(log, chunk, d.path);
    }
    forall i | i in t.files
      ensures t.files[i].path in t.disk && t.disk[t.files[i].path] == Content(log + [chunk], t.files[i].path)
    {
      ContentSnoc(log, chunk, t.files[i].path);
    }
  }

  lemma LandTraced(done: set<Landed>, s: Session, log: seq<Chunk>, id: int)
    requires Traced(done, s, log) && id in s.files
    ensures Traced(done + {Landed(s.files[id].path, s.files[id].size)}, Land(s, id), log)
  {
    var d := Landed(s.files[id].path, s.files[id].size);
    assert Paths(done + {d}) == Paths(done) + {d.path};
  }

  /** A write that fails spoils an unfinished file only. */
  lemma SpoiltTold(done: set<Landed>, s: Session, log: seq<Chunk>, t: Session, id: int)
    requires Traced(done, s, log) && id in s.files && t.files.Keys == s.files.Keys && t.state == Receiving
    requires s.files[id].path in t.disk && t.disk == s.disk[s.files[id].path := t.disk[s.files[id].path]]
    ensures TracedOn(done, s, log + [], Result(t, false))
  {
    assert log + [] == log;
    NothingFinished(done, s, t);
    forall d | d in done
      ensures d.path in t.disk && t.disk[d.path] == Content(log, d.path)
    {
      assert d.path in Paths(done);
    }
  }

  lemma ChunkTraced(done: set<Landed>, s: Session, log: seq<Chunk>, id: int, offset: nat, flags: u64, body: Bytes)
    requires Traced(done, s, log)
    ensures TracedOn(done, s, log + ChunkLog(s, id, offset, flags, body), FileChunk(s, id, offset, flags, body))
  {
    hide Traced, TracedOn;
    var r := FileChunk(s, id, offset, flags, body);
    InReceiving(done, s, log);
    if id !in s.files || offset != s.files[id].received || !s.files[id].created
       || s.files[id].received + |body| > s.files[id].size {
      NothingTouched(done, s, log, Result(s, false));
    } else {
      var f := s.files[id];
      PathKnown(done, s, log, id);
      var written := Write(s, f.path, body);
      if !r.ok {
        SpoiltTold(done, s, log, r.session, id);
      } else {
        assert body[..|body|] == body;
        var credited := Credit(written.session, id, |body|);
        var chunk := Chunk(f.path, offset, body);
        WriteTraced(done, s, log, credited, id, offset, body);
        if Last(flags) {
          LandTraced(done, credited, log + [chunk], id);
          assert Finished(s, r.session) == {Landed(f.path, f.size)};
        } else {
          NothingFinished(done, s, r.session);
        }
        TracedMeans(done, s, log + [chunk], r);
      }
    }
  }

  lemma InReceiving(done: set<Landed>, s: Session, log: seq<Chunk>)
    requires Traced(done, s, log)
    ensures s.state == Receiving
  {
  }

  lemma PathKnown(done: set<Landed>, s: Session, log: seq<Chunk>, id: int)
    requires Traced(done, s, log) && id in s.files
    ensures s.files[id].path in s.disk
  {
  }

  lemma TracedMeans(done: set<Landed>, s: Session, log: seq<Chunk>, r: Result)
    requires Traced(done + Finished(s, r.session), r.session, log)
    ensures TracedOn(done, s, log, r)
  {
  }

  /** A change of the buffers, the counter or what has been sent, before or after. */
  lemma Elsewhere(done: set<Landed>, s: Session, s1: Session, log: seq<Chunk>)
    requires Traced(done, s, log) && s1.files == s.files && s1.disk == s.disk && s1.state == s.state
    ensures Traced(done, s1, log)
  {
  }

  lemma SharingTouchesNothing(e: Env, s: Session, frame: Bytes)
    requires s.state == Receiving
    ensures SharingFrame(e, s, frame).session == s
  {
    hide ParseSharing;
  }

  lemma SameFinishedBy(done: set<Landed>, s: Session, s1: Session, log: seq<Chunk>, r: Result)
    requires TracedOn(done, s1, log, r) && s1.files == s.files
    ensures TracedOn(done, s, log, r)
  {
    assert Finished(s, r.session) == Finished(s1, r.session);
  }

  lemma PacketTraced(e: Env, done: set<Landed>, s: Session, log: seq<Chunk>, packet: Packet)
    requires Traced(done, s, log)
    ensures TracedOn(done, s, log + PacketLog(s, packet), TakePacket(e, s, packet))
  {
    hide Traced, TracedOn, FileChunk, ChunkLog, SharingFrame, Reassemble;
    InReceiving(done, s, log);
    var id := ToInt64(packet.id);
    NothingTouched(done, s, log, Result(s, false));
    ReassemblyShape(s, packet);
    if packet.offset <= MAX_INT64 {
      if packet.kind == FILE_PAYLOAD {
        ChunkTraced(done, s, log, id, packet.offset, packet.flags, packet.body);
      } else if packet.kind == BYTES_PAYLOAD {
        var re := Reassemble(s, packet);
        Elsewhere(done, s, re.session, log);
        NothingTouched(done, s, log, Result(re.session, true));
        NothingTouched(done, s, log, Result(re.session, false));
        if re.Complete? {
          SharingTouchesNothing(e, re.session, re.payload);
          ChunkTraced(done, re.session, log, id, 0, 1, re.payload);
          SameFinishedBy(done, s, re.session, log + ChunkLog(re.session, id, 0, 1, re.payload),
                         FileChunk(re.session, id, 0, 1, re.payload));
        }
      }
    }
  }

  lemma ReassemblyShape(s: Session, packet: Packet)
    ensures var r := Reassemble(s, packet).session; r == s.(buffers := r.buffers, buffered := r.buffered)
  {
  }

  lemma FrameTraced(e: Env, done: set<Landed>, s: Session, log: seq<Chunk>, secure: Bytes)
    requires Traced(done, s, log)
    ensures TracedOn(done, s, log + FrameLog(e, s, secure), EncryptedFrame(e, s, secure))
  {
    hide Traced, TracedOn, TakePacket, PacketLog, Open, SendOffline, Verified, Decrypted, ParseOffline, ParsePacket;
    var s1 := Counted(e, s, secure);
    Elsewhere(done, s, s1, log);
    NothingTouched(done, s, log, Result(s1, false));
    NothingTouched(done, s, log, Result(s1, true));
    match Open(e.p, s.receiveKeys, s.clientSequence, secure)
    case None =>
    case Some(offline) =>
      SendsOnlyWire(e, s1, KeepAliveAck(), []);
      NothingTouched(done, s, log, SendOffline(e, s1, KeepAliveAck()));
      var parsed := ParseOffline(offline);
      if parsed.TransferOf? && parsed.transfer.Some? && ParsePacket(parsed.transfer.value).Some? {
        var packet := ParsePacket(parsed.transfer.value).value;
        PacketTraced(e, done, s1, log, packet);
        SameFinishedBy(done, s, s1, log + PacketLog(s1, packet), TakePacket(e, s1, packet));
      }
  }

  // ---------------------------------------------------------------- before the files

  /** Before the user's consent nothing has been accepted and nothing finished. */
  ghost predicate Followed(done: set<Landed>, s: Session, log: seq<Chunk>) {
    if s.state == Receiving then Traced(done, s, log) else done == {} && log == []
  }

  /** The finished files are on disk, and nothing is open before the consent. */
  lemma NoneFinished(disk0: map<Path, Bytes>, s: Session, r: Result)
    requires Inv(disk0, {}, s) && s.state != Receiving && Kept(disk0, {}, s, r)
    ensures Finished(s, r.session) == {}
  {
    hide BufferInv, Sum, Remaining;
    assert OpenPaths(s) == {};
    var none, landed: set<Landed> := {}, Finished(s, r.session);
    assert none + landed == landed && Paths(none) == {};
    assert Paths(landed) <= r.session.disk.Keys && s.disk.Keys <= disk0.Keys;
    SomePath(landed);
  }

  lemma SomePath(done: set<Landed>)
    ensures done != {} ==> Paths(done) != {}
  {
    if done != {} {
      var d :| d in done;
      assert d.path in Paths(done);
    }
  }

  lemma NothingAccepted(disk0: map<Path, Bytes>, done: set<Landed>, s: Session, id: int, offset: nat, flags: u64,
                        body: Bytes)
    requires Inv(disk0, done, s) && s.state != Receiving
    ensures ChunkLog(s, id, offset, flags, body) == []
  {
    hide DiskInv, BufferInv, Write, Sum, Remaining;
  }

  lemma NothingLogged(e: Env, disk0: map<Path, Bytes>, done: set<Landed>, s: Session, secure: Bytes)
    requires Inv(disk0, done, s) && s.state != Receiving
    ensures FrameLog(e, s, secure) == []
  {
    hide Inv, ChunkLog, Reassemble, Open, Verified, Decrypted, ParseOffline, ParsePacket;
    var offline := Open(e.p, s.receiveKeys, s.clientSequence, secure);
    if offline.Some? {
      var s1 := Counted(e, s, secure);
      InvBuffers(disk0, done, s);
      SameBuffers(s, s1);
      BuffersInv(disk0, done, s, s1);
      var parsed := ParseOffline(offline.value);
      if parsed.TransferOf? && parsed.transfer.Some? && ParsePacket(parsed.transfer.value).Some? {
        var packet := ParsePacket(parsed.transfer.value).value;
        ReassemblyShape(s1, packet);
        NothingAccepted(disk0, done, s1, ToInt64(packet.id), packet.offset, packet.flags, packet.body);
      }
    }
  }

  /** The consent phase opens the destinations empty, or leaves everything as it is. */
  lemma ConsentFollowed(e: Env, disk0: map<Path, Bytes>, done: set<Landed>, s: Session, log: seq<Chunk>, elapsed: bool)
    requires GoodEnv(e) && Inv(disk0, done, s) && Followed(done, s, log)
    ensures var t := ConsentPhase(e, s, elapsed);
      && Told(done, t.session, log) && Finished(s, t.session) == {}
      && (t.outcome == Running ==> Followed(done, t.session, log))
  {
    hide SendSharing, OpenFiles, BufferInv, Sum, Remaining, LiveInv, DiskInv;
    ConsentKeeps(e, disk0, done, s, elapsed);
    var t := ConsentPhase(e, s, elapsed);
    NothingFinished(done, s, t.session);
    if s.state == AwaitConsent && t.session.state == Receiving {
      OpenedEmpty(e, disk0, s, elapsed);
    }
  }

  lemma OpenedEmpty(e: Env, disk0: map<Path, Bytes>, s: Session, elapsed: bool)
    requires GoodEnv(e) && Inv(disk0, {}, s) && s.state == AwaitConsent
    requires ConsentPhase(e, s, elapsed).session.state == Receiving
    ensures Traced({}, ConsentPhase(e, s, elapsed).session, [])
  {
    hide SendSharing, OpenFiles, BufferInv, Sum, Remaining, LiveInv, DiskInv;
    var ids := e.order(s.files.Keys);
    OpeningStart(e, disk0, {}, s);
    OpenFilesKeeps(e, disk0, {}, s, ids);
    var t := OpenFiles(e, s, ids).session;
    SendsOnlyWire(e, t, [], IntroductionResponse(true));
    SendsOnlyWire(e, s, [], IntroductionResponse(false));
    DiskPaths(disk0, {}, t);
    assert Paths({}) == {};
  }

  // ---------------------------------------------------------------- runs

  lemma StepFollowed(e: Env, disk0: map<Path, Bytes>, done: set<Landed>, s: Session, log: seq<Chunk>, event: Event)
    requires GoodEnv(e) && Inv(disk0, done, s) && Followed(done, s, log)
    ensures var t := Step(e, s, event);
      var log', done' := log + StepLog(e, s, event), done + Finished(s, t.session);
      Told(done', t.session, log') && (t.outcome == Running ==> Followed(done', t.session, log'))
  {
    hide ConsentPhase, EncryptedFrame, FrameLog, Handshake, Inv, GoodEnv, Traced;
    var t := Step(e, s, event);
    assert log + [] == log;
    FollowedTold(done, s, log);
    match event
    case Accept => AnswerFollowed(done, s, t.session, log);
    case Reject => AnswerFollowed(done, s, t.session, log);
    case Turn(elapsed, input) =>
      if s.state == PlainHandshake {
        if input.Arrived? {
          HandshakeFollowed(e, disk0, done, s, log, input.frame);
        }
        NothingFinished(done, s, s);
      } else {
        ConsentKeeps(e, disk0, done, s, elapsed);
        ConsentFollowed(e, disk0, done, s, log, elapsed);
        var asked := ConsentPhase(e, s, elapsed);
        assert done + {} == done;
        if asked.outcome == Running {
          TurnAsked(disk0, done, s, asked);
          FollowedTold(done, asked.session, log);
          NothingFinished(done, asked.session, asked.session);
          if input.Arrived? {
            FrameFollowed(e, disk0, done, asked.session, log, input.frame);
          }
          SameFinished(s, asked.session, t.session);
        }
      }
  }

  lemma TurnAsked(disk0: map<Path, Bytes>, done: set<Landed>, s: Session, t: Turned)
    requires TurnKept(disk0, done, s, t) && t.outcome == Running && Finished(s, t.session) == {}
    ensures Inv(disk0, done, t.session)
  {
    assert done + {} == done;
  }

  lemma FollowedTold(done: set<Landed>, s: Session, log: seq<Chunk>)
    requires Followed(done, s, log)
    ensures Told(done, s, log)
  {
  }

  lemma AnswerFollowed(done: set<Landed>, s: Session, t: Session, log: seq<Chunk>)
    requires Followed(done, s, log) && t == s.(consent := t.consent)
    ensures Followed(done + Finished(s, t), t, log) && Told(done + Finished(s, t), t, log)
  {
    NothingFinished(done, s, t);
  }

  lemma HandshakeFollowed(e: Env, disk0: map<Path, Bytes>, done: set<Landed>, s: Session, log: seq<Chunk>, frame: Bytes)
    requires Inv(disk0, done, s) && Followed(done, s, log) && s.state == PlainHandshake
    ensures var t := Handshake(e, s, frame).session;
      Told(done + Finished(s, t), t, log) && Followed(done + Finished(s, t), t, log)
  {
    hide Handshake, Inv;
    HandshakeShape(e, s, frame);
    NothingFinished(done, s, Handshake(e, s, frame).session);
  }

  lemma FrameFollowed(e: Env, disk0: map<Path, Bytes>, done: set<Landed>, s: Session, log: seq<Chunk>, frame: Bytes)
    requires Inv(disk0, done, s) && Followed(done, s, log)
    ensures var r := EncryptedFrame(e, s, frame); var log' := log + FrameLog(e, s, frame);
      var done' := done + Finished(s, r.session);
      Told(done', r.session, log') && (r.ok ==> Followed(done', r.session, log'))
  {
    hide EncryptedFrame, FrameLog, Inv, Traced;
    if s.state == Receiving {
      FrameTraced(e, done, s, log, frame);
    } else {
      EncryptedFrameKeeps(e, disk0, done, s, frame);
      var r := EncryptedFrame(e, s, frame);
      NoneFinished(disk0, s, r);
      NothingLogged(e, disk0, done, s, frame);
      KeptState(disk0, done, s, r);
      assert log + [] == log && done + {} == done;
    }
  }

  lemma KeptState(disk0: map<Path, Bytes>, done: set<Landed>, s: Session, r: Result)
    requires Kept(disk0, done, s, r)
    ensures r.session.state == Receiving <==> s.state == Receiving
  {
    hide BufferInv, DiskInv, LiveInv;
  }
}
