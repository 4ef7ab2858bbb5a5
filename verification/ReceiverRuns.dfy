/** The promises of the receiving side over whole runs, from the constructor to the destructor. */
module ReceiverRuns {
  import opened ByteStrings
  import opened Destination
  import opened MapSum
  import opened SecureChannel
  import opened Framing
  import opened Frames
  import opened Receiver
  import opened ReceiverSafety
  import opened ReceiverContents

  /** The files finished in the course of a run. */
  ghost function Completed(e: Env, s: Session, events: seq<Event>): set<Landed>
    decreases |events|
  {
    if events == [] then {}
    else
      var t := Step(e, s, events[0]);
      Finished(s, t.session) + if t.outcome == Running then Completed(e, t.session, events[1..]) else {}
  }

  lemma {:induction false} RunKeeps(e: Env, disk0: map<Path, Bytes>, done: set<Landed>, s: Session, events: seq<Event>)
    requires GoodEnv(e) && Inv(disk0, done, s)
    ensures var r := Run(e, s, events);
      && BufferInv(r.session) && DiskInv(disk0, done + Completed(e, s, events), r.session)
      && (r.outcome == Running ==> LiveInv(r.session))
    decreases |events|
  {
    hide Step, BufferInv, DiskInv, LiveInv, GoodEnv, Finished;
    if events == [] {
      assert done + {} == done;
    } else {
      var t := Step(e, s, events[0]);
      StepKeeps(e, disk0, done, s, events[0]);
      var now := done + Finished(s, t.session);
      if t.outcome == Running {
        RunKeeps(e, disk0, now, t.session, events[1..]);
        assert now + Completed(e, t.session, events[1..]) == done + Completed(e, s, events);
      } else {
        assert now == done + Completed(e, s, events);
      }
    }
  }

  lemma FreshInv(disk0: map<Path, Bytes>, space: nat, link: nat, consent: int)
    ensures Inv(disk0, {}, Fresh(disk0, space, link, consent))
  {
    var s := Fresh(disk0, space, link, consent);
    assert Lengths(s.buffers) == map[];
    assert OpenPaths(s) == {} && Paths({}) == {};
  }

  lemma {:induction false} RunFollowed(e: Env, disk0: map<Path, Bytes>, done: set<Landed>, s: Session, log: seq<Chunk>,
                                       events: seq<Event>)
    requires GoodEnv(e) && Inv(disk0, done, s) && Followed(done, s, log)
    ensures var r, done', log' := Run(e, s, events), done + Completed(e, s, events), log + Log(e, s, events);
      Told(done', r.session, log') && (r.outcome == Running ==> Followed(done', r.session, log'))
    decreases |events|
  {
    hide Step, StepLog, Inv, Followed, Told, GoodEnv, Finished;
    if events == [] {
      assert done + {} == done && log + [] == log;
      FollowedTold(done, s, log);
    } else {
      var t := Step(e, s, events[0]);
      StepKeeps(e, disk0, done, s, events[0]);
      StepFollowed(e, disk0, done, s, log, events[0]);
      var now, more := done + Finished(s, t.session), log + StepLog(e, s, events[0]);
      if t.outcome == Running {
        TurnInv(disk0, done, s, t);
        RunFollowed(e, disk0, now, t.session, more, events[1..]);
        assert now + Completed(e, t.session, events[1..]) == done + Completed(e, s, events);
        assert more + Log(e, t.session, events[1..]) == log + Log(e, s, events);
      } else {
        assert now == done + Completed(e, s, events) && more == log + Log(e, s, events);
      }
    }
  }

  /** After any run and the destructor, on success, error, cancellation or rejection: the disk is the
      initial one plus exactly the files whose declared size was received in full, each made up of the
      bodies accepted for it in the course of the run, each body where its frame said. No partial file is
      left and no file that was there before has changed. */
  lemma FinalDisk(e: Env, disk0: map<Path, Bytes>, space: nat, link: nat, consent: int, events: seq<Event>)
    requires GoodEnv(e)
    ensures var s := Fresh(disk0, space, link, consent);
      var disk := Finish(Run(e, s, events).session).disk;
      var done := Completed(e, s, events);
      && disk.Keys == disk0.Keys + Paths(done) && disk0.Keys !! Paths(done)
      && (forall p :: p in disk0 ==> disk[p] == disk0[p])
      && (forall d :: d in done ==> |disk[d.path]| == d.size && disk[d.path] == Content(Log(e, s, events), d.path))
    ensures var s := Fresh(disk0, space, link, consent);
      var disk := Finish(Run(e, s, events).session).disk;
      forall d, c :: d in Completed(e, s, events) && c in Log(e, s, events) && c.path == d.path ==>
        Lies(disk, d.path, c.offset, c.body)
  {
    hide Run, Completed, Log, GoodEnv, Sum, Content;
    var s := Fresh(disk0, space, link, consent);
    FreshInv(disk0, space, link, consent);
    RunKeeps(e, disk0, {}, s, events);
    var done, log := Completed(e, s, events), Log(e, s, events);
    assert {} + done == done && [] + log == log;
    var last := Run(e, s, events).session;
    RunFollowed(e, disk0, {}, s, [], events);
    FinishClean(disk0, done, last);
    forall d, c | d in done && c in log && c.path == d.path
      ensures Lies(Finish(last).disk, d.path, c.offset, c.body)
    {
      var i :| 0 <= i < |log| && log[i] == c;
      LiesAtOffset(log, i);
    }
  }

  ghost predicate Lies(disk: map<Path, Bytes>, path: Path, offset: nat, body: Bytes) {
    path in disk && offset + |body| <= |disk[path]| && disk[path][offset..offset + |body|] == body
  }

  lemma FinishClean(disk0: map<Path, Bytes>, done: set<Landed>, s: Session)
    requires DiskInv(disk0, done, s)
    ensures var disk := Finish(s).disk;
      && disk.Keys == disk0.Keys + Paths(done) && disk0.Keys !! Paths(done)
      && (forall p :: p in disk0 ==> disk[p] == disk0[p])
      && (forall d :: d in done ==> |disk[d.path]| == d.size && disk[d.path] == s.disk[d.path])
  {
    assert OpenPaths(s) !! disk0.Keys + Paths(done);
    assert forall d :: d in done ==> d.path in Paths(done);
  }

  /** Throughout, the byte buffers hold what the counter says, at most five mebibytes each and eight together,
      and while the session lives the bytes received and the bytes still due make up the agreed total. */
  lemma CountersHold(e: Env, disk0: map<Path, Bytes>, space: nat, link: nat, consent: int, events: seq<Event>)
    requires GoodEnv(e)
    ensures var r := Run(e, Fresh(disk0, space, link, consent), events);
      && r.session.buffered == Sum(Lengths(r.session.buffers)) <= 8 * 1024 * 1024
      && (forall id :: id in r.session.buffers ==> |r.session.buffers[id]| <= 5 * 1024 * 1024)
      && (r.outcome == Running && r.session.state in {AwaitConsent, Receiving} ==>
            r.session.received + Sum(Remaining(r.session.files)) == r.session.total)
  {
    hide Run, GoodEnv, Sum;
    FreshInv(disk0, space, link, consent);
    RunKeeps(e, disk0, {}, Fresh(disk0, space, link, consent), events);
  }

  // ---------------------------------------------------------------- consent

  /** The user accepted while this session's question was pending. */
  predicate Granted(e: Env, s: Session, events: seq<Event>)
    decreases |events|
  {
    events != [] &&
    (Grants(s, events[0]) ||
     (var t := Step(e, s, events[0]); t.outcome == Running && Granted(e, t.session, events[1..])))
  }

  /** Until then a step neither opens nor writes anything. */
  lemma StepGate(e: Env, disk0: map<Path, Bytes>, done: set<Landed>, s: Session, event: Event)
    requires GoodEnv(e) && Inv(disk0, done, s) && GateInv(false, disk0, s) && !Grants(s, event)
    ensures GateInv(false, disk0, Step(e, s, event).session)
  {
    hide EncryptedFrame, Handshake, GoodEnv, DiskInv, BufferInv, LiveInv, SendSharing;
    var t := Step(e, s, event).session;
    match event
    case Accept =>
      assert OpenPaths(t) == OpenPaths(s);
    case Reject =>
      assert OpenPaths(t) == OpenPaths(s);
    case Turn(elapsed, input) =>
      if s.state == PlainHandshake {
        if input.Arrived? {
          HandshakeKeeps(e, disk0, done, s, input.frame);
        }
      } else {
        ConsentKeeps(e, disk0, done, s, elapsed);
        SendsOnlyWire(e, s, [], IntroductionResponse(false));
        var asked := ConsentPhase(e, s, elapsed);
        assert OpenPaths(asked.session) == OpenPaths(s);
        if asked.outcome == Running {
          assert asked.session == s;
          if input.Arrived? {
            EncryptedFrameKeeps(e, disk0, done, s, input.frame);
          }
        }
      }
  }

  lemma {:induction false} GateHolds(e: Env, disk0: map<Path, Bytes>, done: set<Landed>, s: Session, events: seq<Event>)
    requires GoodEnv(e) && Inv(disk0, done, s) && GateInv(false, disk0, s)
    ensures GateInv(Granted(e, s, events), disk0, Run(e, s, events).session)
    decreases |events|
  {
    hide Step, Inv, GoodEnv, Grants;
    if events != [] && !Grants(s, events[0]) {
      var t := Step(e, s, events[0]);
      StepGate(e, disk0, done, s, events[0]);
      StepKeeps(e, disk0, done, s, events[0]);
      if t.outcome == Running {
        TurnInv(disk0, done, s, t);
        GateHolds(e, disk0, done + Finished(s, t.session), t.session, events[1..]);
      }
    }
  }

  lemma TurnInv(disk0: map<Path, Bytes>, done: set<Landed>, s: Session, t: Turned)
    requires TurnKept(disk0, done, s, t) && t.outcome == Running
    ensures Inv(disk0, done + Finished(s, t.session), t.session)
  {
  }

  /** No destination is created and nothing on disk changes unless the user accepted between this
      session's question and its answer. */
  lemma ConsentGate(e: Env, disk0: map<Path, Bytes>, space: nat, link: nat, consent: int, events: seq<Event>)
    requires GoodEnv(e)
    ensures var s := Fresh(disk0, space, link, consent); var r := Run(e, s, events).session;
      (r.disk != disk0 || OpenPaths(r) != {} || r.state == Receiving) ==> Granted(e, s, events)
  {
    hide Run, GoodEnv, Granted;
    var s := Fresh(disk0, space, link, consent);
    FreshInv(disk0, space, link, consent);
    assert OpenPaths(s) == {};
    GateHolds(e, disk0, {}, s, events);
  }

  // ---------------------------------------------------------------- what success means

  /** A run returns true in two ways only: the transfer was declined or timed out, with nothing written;
      or every byte of every introduced file has arrived. */
  ghost predicate Success(disk0: map<Path, Bytes>, s: Session) {
    || (s.state == AwaitConsent && s.disk == disk0 && OpenPaths(s) == {})
    || (s.state == Receiving && s.files == map[] && s.received == s.total)
  }

  lemma AllReceived(s: Session)
    requires LiveInv(s) && Done(s)
    ensures s.received == s.total
  {
    assert Remaining(s.files) == map[];
    EmptySum(Remaining(s.files));
  }

  lemma InputSuccess(e: Env, disk0: map<Path, Bytes>, done: set<Landed>, s: Session, input: Input)
    requires Inv(disk0, done, s) && (s.state != Receiving ==> s.disk == disk0 && OpenPaths(s) == {})
    ensures var t := InputPhase(e, s, input);
      && (t.outcome == Returned(true) ==> Success(disk0, t.session))
      && (t.outcome == Running && t.session.state != Receiving ==>
            t.session.disk == disk0 && OpenPaths(t.session) == {})
  {
    hide EncryptedFrame, DiskInv, BufferInv, LiveInv, OpenPaths;
    if input.Arrived? {
      EncryptedFrameKeeps(e, disk0, done, s, input.frame);
    }
    var t := InputPhase(e, s, input);
    if Done(t.session) && LiveInv(t.session) {
      AllReceived(t.session);
    }
  }

  lemma ConsentSuccess(e: Env, s: Session, elapsed: bool)
    ensures var t := ConsentPhase(e, s, elapsed);
      && (t.outcome == Returned(true) ==>
            s.state == t.session.state == AwaitConsent && t.session.disk == s.disk && t.session.files == s.files)
      && (t.outcome == Running ==> t.session == s || t.session.state == Receiving)
  {
    hide SendSharing, OpenFiles;
    SendsOnlyWire(e, s, [], IntroductionResponse(false));
  }

  lemma StepSuccess(e: Env, disk0: map<Path, Bytes>, done: set<Landed>, s: Session, event: Event)
    requires GoodEnv(e) && Inv(disk0, done, s) && (s.state != Receiving ==> s.disk == disk0 && OpenPaths(s) == {})
    ensures var t := Step(e, s, event);
      && (t.outcome == Returned(true) ==> Success(disk0, t.session))
      && (t.outcome == Running && t.session.state != Receiving ==>
            t.session.disk == disk0 && OpenPaths(t.session) == {})
  {
    hide EncryptedFrame, Handshake, GoodEnv, Inv, ConsentPhase, InputPhase;
    var t := Step(e, s, event);
    match event
    case Accept => assert OpenPaths(t.session) == OpenPaths(s);
    case Reject => assert OpenPaths(t.session) == OpenPaths(s);
    case Turn(elapsed, input) =>
      if s.state == PlainHandshake {
        if input.Arrived? {
          HandshakeKeeps(e, disk0, done, s, input.frame);
        }
      } else {
        ConsentKeeps(e, disk0, done, s, elapsed);
        ConsentSuccess(e, s, elapsed);
        var asked := ConsentPhase(e, s, elapsed);
        if asked.outcome == Running {
          TurnInv(disk0, done, s, asked);
          InputSuccess(e, disk0, done + Finished(s, asked.session), asked.session, input);
        } else if asked.session.files == s.files {
          assert OpenPaths(asked.session) == OpenPaths(s);
        }
      }
  }

  lemma {:induction false} RunSuccess(e: Env, disk0: map<Path, Bytes>, done: set<Landed>, s: Session,
                                      events: seq<Event>)
    requires GoodEnv(e) && Inv(disk0, done, s) && (s.state != Receiving ==> s.disk == disk0 && OpenPaths(s) == {})
    ensures Run(e, s, events).outcome == Returned(true) ==> Success(disk0, Run(e, s, events).session)
    decreases |events|
  {
    hide Step, Inv, GoodEnv, Success, OpenPaths;
    if events != [] {
      var t := Step(e, s, events[0]);
      StepSuccess(e, disk0, done, s, events[0]);
      StepKeeps(e, disk0, done, s, events[0]);
      if t.outcome == Running {
        TurnInv(disk0, done, s, t);
        RunSuccess(e, disk0, done + Finished(s, t.session), t.session, events[1..]);
      }
    }
  }

  lemma TrueMeansComplete(e: Env, disk0: map<Path, Bytes>, space: nat, link: nat, consent: int, events: seq<Event>)
    requires GoodEnv(e)
    requires Run(e, Fresh(disk0, space, link, consent), events).outcome == Returned(true)
    ensures Success(disk0, Run(e, Fresh(disk0, space, link, consent), events).session)
  {
    hide Run, GoodEnv, Success;
    var s := Fresh(disk0, space, link, consent);
    FreshInv(disk0, space, link, consent);
    assert OpenPaths(s) == {};
    RunSuccess(e, disk0, {}, s, events);
  }
}
