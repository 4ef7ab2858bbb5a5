/** What every run of the receiver has seen by the time it has keys, whoever the peer is: stated on the
    frames delivered. */
module HandshakeRuns {
  import opened ByteStrings
  import opened ProtoWire
  import opened Crypto
  import opened Framing
  import opened SecureChannel
  import opened KeyAgreement
  import opened Frames
  import opened FrameReading
  import opened PrefixRuns
  import Destination
  import R = Receiver
  import S = Sender

  // ---------------------------------------------------------------- the four frames

  const NO_KEYS := Direction([], [])

  /** The third frame is the one the second has committed to, and it presents this point. */
  ghost predicate Committed(e: R.Env, d: seq<Bytes>, peer: Point)
    requires |d| >= 3
  {
    && Requests(d[0])
    && Initiates(d[1], e.p.sha512(d[2]))
    && exists generic :: Finishes(d[2], generic) && Presents(generic, peer)
  }

  /** PIN and keys are those agreed with its owner over the second frame and the answer to it. */
  ghost predicate Keyed(e: R.Env, d: seq<Bytes>, s: R.Session) {
    && |d| >= 3
    && exists peer :: Committed(e, d, peer) && e.p.onCurve(peer)
         && Agree(e.p, e.secret, peer, d[1] + R.ServerInit(e)) == Some(Agreement(s.pin, s.receiveKeys, s.sendKeys))
  }

  /** A live session in the plain handshake has taken as many frames as its stage says; past it, four. */
  ghost predicate Tracked(e: R.Env, d: seq<Bytes>, s: R.Session) {
    if s.state == R.PlainHandshake then
      && s.stage == |d| <= 3
      && (s.stage >= 1 ==> Requests(d[0]))
      && (s.stage >= 2 ==> Initiates(d[1], s.commitment) && s.clientInit == d[1] && s.serverInit == R.ServerInit(e))
      && (if s.stage == 3 then Keyed(e, d, s) else s.receiveKeys == s.sendKeys == NO_KEYS && s.pin == "")
    else
      |d| >= 4 && Keyed(e, d, s) && VarintIn(d[3], [2], 1) == Some(2)
  }

  /** What can be said even after the end: no keys without the first three frames, no sealed traffic
      without the fourth. */
  ghost predicate Shown(e: R.Env, d: seq<Bytes>, s: R.Session) {
    && (s.receiveKeys != NO_KEYS || s.sendKeys != NO_KEYS || s.pin != "" || s.state != R.PlainHandshake ==>
          Keyed(e, d, s))
    && (s.state != R.PlainHandshake ==> |d| >= 4 && VarintIn(d[3], [2], 1) == Some(2))
  }

  lemma TrackedShown(e: R.Env, d: seq<Bytes>, s: R.Session)
    requires Tracked(e, d, s)
    ensures Shown(e, d, s)
  {
    hide Keyed, Inner;
  }

  lemma KeyedLater(e: R.Env, d: seq<Bytes>, more: seq<Bytes>, s: R.Session, t: R.Session)
    requires Keyed(e, d, s) && t.pin == s.pin && t.receiveKeys == s.receiveKeys && t.sendKeys == s.sendKeys
    ensures Keyed(e, d + more, t)
  {
    hide Requests, Initiates, Finishes, Presents, Agree, R.ServerInit;
    var peer :| Committed(e, d, peer) && e.p.onCurve(peer)
      && Agree(e.p, e.secret, peer, d[1] + R.ServerInit(e)) == Some(Agreement(s.pin, s.receiveKeys, s.sendKeys));
    assert Committed(e, d + more, peer);
  }

  lemma ShownLater(e: R.Env, d: seq<Bytes>, more: seq<Bytes>, s: R.Session)
    requires Shown(e, d, s)
    ensures Shown(e, d + more, s)
  {
    hide Keyed, Inner;
    if Keyed(e, d, s) {
      KeyedLater(e, d, more, s, s);
    }
  }

  // ---------------------------------------------------------------- one step

  lemma FirstFrame(e: R.Env, s: R.Session, frame: Bytes)
    requires Tracked(e, [], s) && s.state == R.PlainHandshake
    ensures var r := R.Handshake(e, s, frame);
      && Shown(e, [frame], r.session) && (r.ok ==> Tracked(e, [frame], r.session))
  {
    hide Requests, R.ConnectionRequestValid, R.ServerInit;
    RequestMeaning(frame);
  }

  lemma SecondFrame(e: R.Env, d: seq<Bytes>, s: R.Session, frame: Bytes)
    requires Tracked(e, d, s) && s.state == R.PlainHandshake && |d| == 1
    ensures var r := R.Handshake(e, s, frame);
      && Shown(e, d + [frame], r.session) && (r.ok ==> Tracked(e, d + [frame], r.session))
  {
    hide Requests, Initiates, R.ParseClientInit, R.ServerInit;
    if R.ParseClientInit(frame).Some? {
      InitMeaning(frame, R.ParseClientInit(frame).value);
    }
  }

  lemma ThirdFrame(e: R.Env, d: seq<Bytes>, s: R.Session, frame: Bytes)
    requires Tracked(e, d, s) && s.state == R.PlainHandshake && |d| == 2
    ensures var r := R.Handshake(e, s, frame);
      && Shown(e, d + [frame], r.session) && (r.ok ==> Tracked(e, d + [frame], r.session))
  {
    hide Requests, Initiates, Finishes, Presents, R.ParseClientFinish, ParsePublic, R.ServerInit, Derive, Inner;
    var r := R.Handshake(e, s, frame);
    if r.ok {
      var generic := R.ParseClientFinish(frame).value;
      FinishMeaning(frame, generic);
      var peer := ParsePublic(generic).value;
      PublicMeaning(generic, peer);
      assert Committed(e, d + [frame], peer);
    }
  }

  lemma FourthFrame(e: R.Env, d: seq<Bytes>, s: R.Session, frame: Bytes)
    requires Tracked(e, d, s) && s.state == R.PlainHandshake && |d| == 3
    ensures var r := R.Handshake(e, s, frame);
      && Shown(e, d + [frame], r.session) && (r.ok ==> Tracked(e, d + [frame], r.session))
  {
    hide Keyed, Requests, Initiates, R.ClientResponseValid, R.ServerInit, R.SendSharing, R.ConnectionResponse,
         R.PairedKeyEncryption, Inner;
    ResponseMeaning(frame);
    var next := s.(stage := s.stage + 1);
    var sent := R.SendFrame(next, R.ConnectionResponse());
    var talking := sent.session.(state := R.AwaitPairedEncryption);
    SendsSame(e, talking, [], R.PairedKeyEncryption(e.pairedData, e.pairedHash));
    KeyedLater(e, d, [frame], s, R.Handshake(e, s, frame).session);
  }

  lemma HandshakeTracked(e: R.Env, d: seq<Bytes>, s: R.Session, frame: Bytes)
    requires Tracked(e, d, s) && s.state == R.PlainHandshake
    ensures var r := R.Handshake(e, s, frame);
      && Shown(e, d + [frame], r.session) && (r.ok ==> Tracked(e, d + [frame], r.session))
  {
    hide Shown, R.Handshake, Keyed, Requests, Initiates;
    if |d| == 0 {
      assert d + [frame] == [frame] && d == [];
      FirstFrame(e, s, frame);
    } else if |d| == 1 {
      SecondFrame(e, d, s, frame);
    } else if |d| == 2 {
      ThirdFrame(e, d, s, frame);
    } else {
      FourthFrame(e, d, s, frame);
    }
  }

  /** The frame an event brings, if any. */
  function Brought(event: R.Event): seq<Bytes> {
    match event
    case Turn(_, Arrived(frame)) => [frame]
    case _ => []
  }

  lemma StepTracked(e: R.Env, d: seq<Bytes>, s: R.Session, event: R.Event)
    requires Tracked(e, d, s)
    ensures var t := R.Step(e, s, event);
      && Shown(e, d + Brought(event), t.session)
      && (t.outcome == R.Running ==> Tracked(e, d + Brought(event), t.session))
  {
    hide Shown, Keyed, R.Handshake, R.ConsentPhase, R.InputPhase, Inner, Requests, Initiates, R.ServerInit;
    var t := R.Step(e, s, event);
    TrackedShown(e, d, s);
    ShownLater(e, d, Brought(event), s);
    assert d + [] == d;
    if s.state != R.PlainHandshake {
      StepSameAgreement(e, s, event);
      KeyedLater(e, d, Brought(event), s, t.session);
      TrackedShown(e, d + Brought(event), t.session);
    } else if event.Turn? {
      if event.input.Arrived? {
        HandshakeTracked(e, d, s, event.input.frame);
      }
    } else {
      SlotOnly(e, d, s, t.session);
      TrackedShown(e, d, t.session);
    }
  }

  lemma SlotOnly(e: R.Env, d: seq<Bytes>, s: R.Session, t: R.Session)
    requires Tracked(e, d, s) && t == s.(consent := t.consent)
    ensures Tracked(e, d, t)
  {
    hide Requests, Initiates, R.ServerInit, Inner, Committed, Agree;
  }

  // ---------------------------------------------------------------- whole runs

  lemma {:induction false} RunShown(e: R.Env, d: seq<Bytes>, s: R.Session, events: seq<R.Event>)
    requires Tracked(e, d, s)
    ensures Shown(e, d + Delivered(events), R.Run(e, s, events).session)
    ensures R.Run(e, s, events).outcome == R.Running ==> Tracked(e, d + Delivered(events), R.Run(e, s, events).session)
    decreases |events|
  {
    hide Shown, Tracked, R.Step;
    assert d + [] == d;
    if events == [] {
      TrackedShown(e, d, s);
    } else {
      var t := R.Step(e, s, events[0]);
      StepTracked(e, d, s, events[0]);
      var now, more := d + Brought(events[0]), Delivered(events[1..]);
      assert d + Delivered(events) == now + more;
      if t.outcome == R.Running {
        RunShown(e, now, t.session, events[1..]);
      } else {
        ShownLater(e, now, more, t.session);
      }
    }
  }

  lemma FreshTracked(e: R.Env, disk: map<Destination.Path, Bytes>, space: nat, link: nat, consent: int)
    ensures Tracked(e, [], R.Fresh(disk, space, link, consent))
  {
    hide Requests, Initiates, R.ServerInit, Keyed;
  }

  /** Whoever is at the other end: a session that has a PIN or keys has been sent a connection request, a
      ClientInit, and as third frame a ClientFinish whose SHA-512 is the commitment that the ClientInit
      carries for cipher 100; its PIN and keys are those agreed with the point in that very frame. And
      sealed traffic starts only after a connection response. */
  lemma OnlyCommitted(e: R.Env, disk: map<Destination.Path, Bytes>, space: nat, link: nat, consent: int,
                      events: seq<R.Event>)
    ensures Shown(e, Delivered(events), R.Run(e, R.Fresh(disk, space, link, consent), events).session)
  {
    hide Shown, Tracked, R.Run, Delivered;
    FreshTracked(e, disk, space, link, consent);
    RunShown(e, [], R.Fresh(disk, space, link, consent), events);
    assert [] + Delivered(events) == Delivered(events);
  }

  /** A third frame that the second has not committed to ends the run with false, and nothing is derived. */
  lemma SubstituteRefused(e: R.Env, disk: map<Destination.Path, Bytes>, space: nat, link: nat, consent: int,
                          events: seq<R.Event>, elapsed: bool, frame: Bytes)
    requires var t := R.Run(e, R.Fresh(disk, space, link, consent), events);
      t.outcome == R.Running && t.session.state == R.PlainHandshake && |Delivered(events)| == 2
    requires !Initiates(Delivered(events)[1], e.p.sha512(frame))
    ensures var before := R.Run(e, R.Fresh(disk, space, link, consent), events).session;
      var t := R.Run(e, R.Fresh(disk, space, link, consent), events + [R.Turn(elapsed, R.Arrived(frame))]);
      && t.outcome == R.Returned(false)
      && t.session.pin == before.pin == "" && t.session.receiveKeys == before.receiveKeys == NO_KEYS
      && t.session.sendKeys == before.sendKeys == NO_KEYS && t.session.outbox == before.outbox
  {
    hide R.Run, Delivered, Initiates, R.ParseClientFinish, ParsePublic, Agree, R.ServerInit, Requests;
    var s := R.Fresh(disk, space, link, consent);
    FreshTracked(e, disk, space, link, consent);
    RunShown(e, [], s, events);
    assert [] + Delivered(events) == Delivered(events);
    RunSnoc(e, s, events, R.Turn(elapsed, R.Arrived(frame)));
  }

  // ---------------------------------------------------------------- messages with a wrong MAC

  /** A frame whose MAC is wrong is not acted on: unless the user's answer or a timeout ends the run first,
      it returns false with the session as it was. */
  lemma ForgedEndsReceiver(e: R.Env, s: R.Session, events: seq<R.Event>, elapsed: bool, frame: Bytes)
    requires var t := R.Run(e, s, events); t.outcome == R.Running && t.session.state != R.PlainHandshake
    requires Acceptable(frame) && !Authentic(e.p, R.Run(e, s, events).session.receiveKeys, frame)
    ensures var before, event := R.Run(e, s, events).session, R.Turn(elapsed, R.Arrived(frame));
      var t, asked := R.Run(e, s, events + [event]), R.ConsentPhase(e, before, elapsed);
      && ActsOn(e, before, event) == []
      && t == (if asked.outcome != R.Running then asked else R.Turned(asked.session, R.Returned(false)))
      && (before.state != R.AwaitConsent || (before.consent == 0 && !elapsed) ==>
            t == R.Turned(before, R.Returned(false)))
  {
    hide R.Run, R.ConsentPhase, GetBytes, GetVarint, R.TakeOffline, Decrypted;
    var before := R.Run(e, s, events).session;
    RunSnoc(e, s, events, R.Turn(elapsed, R.Arrived(frame)));
    ConsentSame(e, before, elapsed);
    var asked := R.ConsentPhase(e, before, elapsed).session;
    OnlyAuthentic(e.p, asked.receiveKeys, asked.clientSequence, frame);
    if before.state != R.AwaitConsent || (before.consent == 0 && !elapsed) {
      NothingAsked(e, before, elapsed);
    }
  }

  lemma NothingAsked(e: R.Env, s: R.Session, elapsed: bool)
    requires s.state != R.AwaitConsent || (s.consent == 0 && !elapsed)
    ensures R.ConsentPhase(e, s, elapsed) == R.Turned(s, R.Running)
  {
  }

  /** Nor does the sender act on one, whether it waits for a frame or finds it between two chunks. */
  lemma ForgedEndsSender(e: S.SenderEnv, s: S.Sender, frame: Bytes, more: seq<Bytes>)
    requires !Authentic(e.p, s.receiveKeys, frame)
    ensures Sealed(s) ==> S.TakeFrame(e, s, frame) == S.Sent(s, false) && SenderActsOn(e, s, frame) == []
    ensures Sealed(s) && s.stage != S.Sending ==> S.Talk(e, s, [frame] + more) == S.Talked(s, false, 1)
    ensures S.Poll(e, s, [frame] + more) == S.Sent(s, false)
  {
    hide GetBytes, GetVarint, S.TakeOffline, Decrypted;
    OnlyAuthentic(e.p, s.receiveKeys, s.receiveSequence, frame);
  }

  // ---------------------------------------------------------------- the sender's side

  /** The sender goes past ServerInit exactly on an offer of a point on the curve, with the PIN and the keys
      agreed over its own ClientInit and that frame. */
  lemma SenderKeyed(e: S.SenderEnv, s: S.Sender, frame: Bytes)
    requires s.stage == S.AwaitServerInit && Acceptable(frame)
    ensures var t := S.TakeFrame(e, s, frame);
      if t.sender.stage == s.stage then t == S.Sent(s, false)
      else
        && t.sender.stage == S.AwaitConnectionResponse
        && exists generic, peer :: Offers(frame, generic) && Presents(generic, peer) && e.p.onCurve(peer)
             && Agree(e.p, e.secret, peer, s.clientInit + frame)
                  == Some(Agreement(t.sender.pin, t.sender.sendKeys, t.sender.receiveKeys))
  {
    hide S.ParseServerInit, Offers, Presents, Derive, S.ClientFinish, S.ConnectionResponse;
    if S.ParseServerInit(frame).Some? {
      var peer := S.ParseServerInit(frame).value;
      OfferMeaning(frame, peer);
      var generic: Bytes :| Offers(frame, generic) && Presents(generic, peer);
    }
  }
}
