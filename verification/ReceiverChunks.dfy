/** Which chunks of a file a run takes, whoever sends them: stated on the offline frame. */
module ReceiverChunks {
  import opened ByteStrings
  import opened ProtoWire
  import opened Destination
  import opened Framing
  import opened Frames
  import opened FrameReading
  import opened SecureChannel
  import opened Receiver
  import opened ReceiverSafety
  import opened ReceiverContents
  import opened ReceiverRuns
  import opened MapSum
  import Exchange
  import PrefixRuns

  /** The offline frame is a payload transfer with this packet. */
  ghost predicate Brings(offline: Bytes, p: Packet) {
    var transfer := Inner(offline, [2, 4]);
    VarintIn(offline, [2], 1) == Some(3) && transfer.Some? && Carries(transfer.value, p)
  }

  lemma BringsIs(e: Env, s: Session, offline: Bytes, p: Packet)
    requires Brings(offline, p)
    ensures TakeOffline(e, s, offline) == TakePacket(e, s, p)
  {
    hide TakePacket, ParsePacket, Carries, Inner, ParseOffline;
    OfflineMeaning(offline);
    PacketMeaning(Inner(offline, [2, 4]).value, p);
  }

  /** The next piece of a pending file: of the declared total, at the offset where the file on disk ends, not
      beyond its size, with room on the disk; and if it is marked last, it completes the file. */
  ghost predicate Continues(s: Session, p: Packet) {
    var id := ToInt64(p.id);
    && p.offset <= MAX_INT64 && id in s.files && s.files[id].path in s.disk
    && var f := s.files[id];
       && p.total == f.size && p.offset == |s.disk[f.path]| && p.offset + |p.body| <= f.size
       && |p.body| <= s.space && (p.flags % 2 == 1 ==> p.offset + |p.body| == f.size)
  }

  /** A chunk of a pending file at another offset. */
  ghost predicate Misplaced(s: Session, p: Packet) {
    var id := ToInt64(p.id);
    id in s.files && s.files[id].path in s.disk && p.offset != |s.disk[s.files[id].path]|
  }

  lemma ChunkTaken(e: Env, done: set<Landed>, s: Session, log: seq<Chunk>, p: Packet)
    requires Traced(done, s, log) && p.kind == FILE_PAYLOAD && forall i :: i in s.files ==> s.files[i].created
    ensures var r, id := TakePacket(e, s, p), ToInt64(p.id);
      && (r.ok <==> Continues(s, p))
      && (r.ok ==> var path := s.files[id].path; r.session.disk == s.disk[path := s.disk[path] + p.body])
      && (id !in s.files || p.total != s.files[id].size || p.offset != |s.disk[s.files[id].path]| ==> r.session == s)
  {
    hide Told;
    assert p.body[..|p.body|] == p.body;
  }

  /** In any run, a sealed chunk of a file is taken if and only if it continues its file; any other ends
      the run with false, and with a wrong offset nothing is written. */
  lemma FilePayloadTaken(e: Env, disk0: map<Path, Bytes>, space: nat, link: nat, consent: int, events: seq<Event>,
                         elapsed: bool, frame: Bytes, offline: Bytes, p: Packet)
    requires GoodEnv(e)
    requires var t := Run(e, Fresh(disk0, space, link, consent), events);
      t.outcome == Running && t.session.state == Receiving
      && Open(e.p, t.session.receiveKeys, t.session.clientSequence, frame) == Some(offline)
    requires Acceptable(frame) && Brings(offline, p) && p.kind == FILE_PAYLOAD
    ensures var s := Run(e, Fresh(disk0, space, link, consent), events).session;
      var t := Run(e, Fresh(disk0, space, link, consent), events + [Turn(elapsed, Arrived(frame))]);
      && (t.outcome != Returned(false) <==> Continues(s, p))
      && (Continues(s, p) ==> var path := s.files[ToInt64(p.id)].path;
            t.session.disk == s.disk[path := s.disk[path] + p.body])
      && (Misplaced(s, p) ==> t.session.disk == s.disk)
  {
    hide Run, Step, TakeOffline, TakePacket, Traced, Brings, Open, Inv, GoodEnv, Completed, Log;
    var fresh0 := Fresh(disk0, space, link, consent);
    FreshInv(disk0, space, link, consent);
    RunKeeps(e, disk0, {}, fresh0, events);
    RunFollowed(e, disk0, {}, fresh0, [], events);
    var s := Run(e, fresh0, events).session;
    var done, log := {} + Completed(e, fresh0, events), [] + Log(e, fresh0, events);
    var s1 := s.(clientSequence := s.clientSequence + 1);
    PrefixRuns.RunSnoc(e, fresh0, events, Turn(elapsed, Arrived(frame)));
    TurnTakes(e, s, elapsed, frame, offline);
    BringsIs(e, s1, offline, p);
    Elsewhere(done, s, s1, log);
    AllOpen(s);
    ChunkTaken(e, done, s1, log, p);
  }

  lemma TurnTakes(e: Env, s: Session, elapsed: bool, frame: Bytes, offline: Bytes)
    requires s.state == Receiving && Acceptable(frame)
    requires Open(e.p, s.receiveKeys, s.clientSequence, frame) == Some(offline)
    ensures var r := TakeOffline(e, s.(clientSequence := s.clientSequence + 1), offline);
      Step(e, s, Turn(elapsed, Arrived(frame))) == Exchange.Ended(r)
  {
    hide TakeOffline, Verified, Decrypted;
  }

  lemma AllOpen(s: Session)
    requires LiveInv(s) && s.state == Receiving
    ensures forall i :: i in s.files ==> s.files[i].created
  {
    hide Sum, Remaining;
  }
}
