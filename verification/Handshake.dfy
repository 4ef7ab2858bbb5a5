/** Two ends over FIFO channels, in every interleaving: from the first frame to the question put to the
    receiver's user nothing fails, nothing deadlocks, and the ends finish with one PIN and crosswise keys. */
module Handshake {
  import opened ByteStrings
  import opened ProtoWire
  import opened Crypto
  import opened Framing
  import opened SecureChannel
  import opened KeyAgreement
  import opened Exchange
  import opened Announcement
  import opened HandshakeStates
  import opened HandshakeSteps
  import R = Receiver
  import S = Sender

  // ---------------------------------------------------------------- the next frame and who sent it

  /** How often the sender has spoken after so many steps, and the receiver after so many frames. */
  function SenderTurns(step: nat): nat {
    if step <= 3 then step else if step == 4 then 3 else if step <= 6 then 4 else 5
  }

  function ReceiverTurns(taken: nat): nat {
    if taken <= 1 then 0 else if taken <= 3 then 1 else if taken <= 5 then 2 else 3
  }

  lemma SpokenParts(h: Peers)
    ensures |Spoken(h, 0)| == 0
    ensures Spoken(h, 1) == [S.ConnectionRequest(h.e), S.ClientInit(h.e)]
    ensures Spoken(h, 2) == Spoken(h, 1) + [S.ClientFinish(h.e), S.ConnectionResponse()]
    ensures Spoken(h, 3) == Spoken(h, 2) + SenderPair(h, 0, Said(h, 0))
    ensures Spoken(h, 4) == Spoken(h, 3) + SenderPair(h, 1, Said(h, 1))
    ensures Spoken(h, 5) == Spoken(h, 4) + SenderPair(h, 2, Said(h, 2))
  {
    hide SenderPair, Said, S.ConnectionRequest, S.ClientInit, S.ClientFinish, S.ConnectionResponse;
  }

  lemma AnsweredParts(h: Peers)
    ensures |Answered(h, 0)| == 0 && Answered(h, 1) == [R.ServerInit(h.g)]
    ensures Answered(h, 2) == Answered(h, 1) + [R.ConnectionResponse()] + ReceiverPair(h, 0, ReceiverPairedKey(h))
    ensures Answered(h, 3) == Answered(h, 2) + ReceiverPair(h, 1, R.PairedKeyResult())
  {
    hide ReceiverPair, R.ServerInit, R.ConnectionResponse, ReceiverPairedKey, R.PairedKeyResult;
  }

  /** A frame keeps its place in the stream. */
  lemma SpokenAt(h: Peers, turns: nat, k: nat)
    requires turns <= 5 && k < 2 * turns
    ensures |Spoken(h, turns)| == 2 * turns && |Spoken(h, k / 2 + 1)| == 2 * (k / 2 + 1)
    ensures Spoken(h, turns)[k] == Spoken(h, k / 2 + 1)[k]
  {
    hide Spoken, SenderPair, Said, S.ConnectionRequest, S.ClientInit, S.ClientFinish, S.ConnectionResponse;
    SpokenParts(h);
  }

  function Least(k: nat): nat { if k == 0 then 1 else if k <= 3 then 2 else 3 }

  function AnsweredBy(turns: nat): nat {
    if turns == 0 then 0 else if turns == 1 then 1 else if turns == 2 then 4 else 6
  }

  lemma AnsweredAt(h: Peers, turns: nat, k: nat)
    requires turns <= 3 && k < AnsweredBy(turns)
    ensures |Answered(h, turns)| == AnsweredBy(turns) && |Answered(h, Least(k))| == AnsweredBy(Least(k)) > k
    ensures Answered(h, turns)[k] == Answered(h, Least(k))[k]
  {
    hide Answered, ReceiverPair, R.ServerInit, R.ConnectionResponse, ReceiverPairedKey, R.PairedKeyResult;
    AnsweredParts(h);
  }

  lemma SenderSaid(h: Peers, step: nat)
    requires step <= 7
    ensures SenderAt(h, step).outbox == Spoken(h, SenderTurns(step))
    ensures |Spoken(h, SenderTurns(step))| == 2 * SenderTurns(step)
    ensures SenderAt(h, step).stage == S.Start <==> step == 0
    ensures SenderAt(h, step).stage != S.Sending
  {
    hide Spoken, Agreed, S.ClientInit, ReceiverPairedKey, R.PairedKeyResult;
    SpokenSize(h, SenderTurns(step));
  }

  lemma SpokenSize(h: Peers, turns: nat)
    requires turns <= 5
    ensures |Spoken(h, turns)| == 2 * turns
  {
    hide Spoken, SenderPair, Said;
    SpokenParts(h);
  }

  lemma AnsweredSize(h: Peers, turns: nat)
    requires turns <= 3
    ensures |Answered(h, turns)| == AnsweredBy(turns)
  {
    hide Answered, ReceiverPair, R.ServerInit, R.ConnectionResponse, ReceiverPairedKey, R.PairedKeyResult;
    AnsweredParts(h);
  }

  lemma ReceiverSaid(h: Peers, taken: nat)
    requires taken <= 10
    ensures ReceiverAt(h, taken).outbox == Answered(h, ReceiverTurns(taken))
    ensures |Answered(h, ReceiverTurns(taken))| == AnsweredBy(ReceiverTurns(taken))
    ensures ReceiverAt(h, taken).state == R.AwaitConsent <==> taken == 10
    ensures ReceiverAt(h, taken).state != R.Receiving && (taken == 10 ==> ReceiverAt(h, taken).consent == 0)
  {
    hide Answered, Agreed, S.ClientInit, S.ClientFinish, R.ServerInit, Announce, TotalSize, Said;
    AnsweredSize(h, ReceiverTurns(taken));
    AnnounceKeeps(h.g, ReceiverTalking(h, R.AwaitIntroduction, 3).(clientSequence := 6), h.e.files);
  }

  // ---------------------------------------------------------------- one frame further

  lemma SenderStep(h: Peers, step: nat, turns: nat)
    requires Compatible(h) && 1 <= step <= 6 && turns <= 3 && step <= AnsweredBy(turns)
    ensures |Answered(h, turns)| == AnsweredBy(turns)
    ensures S.TakeFrame(h.e, SenderAt(h, step), Answered(h, turns)[step - 1]) == S.Sent(SenderAt(h, step + 1), true)
  {
    hide S.TakeFrame, SenderAt, Answered, ReceiverPair, ReceiverPairedKey, R.PairedKeyResult, R.ServerInit,
         R.ConnectionResponse, Compatible;
    AnsweredAt(h, turns, step - 1);
    AnsweredParts(h);
    if step == 1 {
      SenderAgrees(h);
    } else if step == 2 {
      SenderConnected(h);
    } else if step <= 4 {
      SenderPaired(h);
    } else {
      SenderIntroduces(h);
    }
  }

  lemma ReceiverStep(h: Peers, taken: nat, turns: nat)
    requires Compatible(h) && turns <= 5 && taken < 2 * turns
    ensures |Spoken(h, turns)| == 2 * turns
    ensures R.Step(h.g, ReceiverAt(h, taken), Arrives(Spoken(h, turns)[taken])) == Goes(ReceiverAt(h, taken + 1))
  {
    hide R.Step, ReceiverAt, Spoken, SenderPair, Said, S.ConnectionRequest, S.ClientInit, S.ClientFinish,
         S.ConnectionResponse, Compatible;
    SpokenAt(h, turns, taken);
    SpokenParts(h);
    if taken <= 1 {
      ReceiverGreeted(h);
      ReceiverCommits(h);
    } else if taken <= 3 {
      ReceiverAgrees(h);
      ReceiverConnected(h);
    } else if taken <= 5 {
      ReceiverPaired(h);
    } else if taken <= 7 {
      ReceiverConfirmed(h);
    } else {
      ReceiverAsks(h);
    }
  }

  // ---------------------------------------------------------------- the two ends together

  /** What has not been taken yet is in the channels: the sender's frames from `taken` on and the
      receiver's from `heard` on. */
  datatype World = World(sender: S.Sender, receiver: R.Session, taken: nat, heard: nat, failed: bool)

  /** The sender opens; the oldest frame under way reaches an end; the receiver's poll times out. */
  datatype Move = Open | ToReceiver | ToSender | Idle(tooLong: bool)

  function Opening(h: Peers): World {
    World(S.FreshSender(h.senderLink), R.Fresh(h.disk, h.space, h.receiverLink, h.consent), 0, 0, false)
  }

  function Move1(h: Peers, w: World, move: Move): World {
    match move
    case Open =>
      if w.sender.stage != S.Start then w
      else var sent := S.Begin(h.e, w.sender);
           w.(sender := sent.sender, failed := w.failed || !sent.ok)
    case ToReceiver =>
      if w.taken >= |w.sender.outbox| then w
      else var t := R.Step(h.g, w.receiver, Arrives(w.sender.outbox[w.taken]));
           w.(receiver := t.session, taken := w.taken + 1, failed := w.failed || t.outcome != R.Running)
    case ToSender =>
      if w.sender.stage == S.Start || w.sender.stage == S.Sending || w.heard >= |w.receiver.outbox| then w
      else var sent := S.TakeFrame(h.e, w.sender, w.receiver.outbox[w.heard]);
           w.(sender := sent.sender, heard := w.heard + 1, failed := w.failed || !sent.ok)
    case Idle(tooLong) =>
      var t := R.Step(h.g, w.receiver, R.Turn(false, R.Silence(tooLong)));
      w.(receiver := t.session, failed := w.failed || t.outcome != R.Running)
  }

  function Play(h: Peers, w: World, moves: seq<Move>): World
    decreases |moves|
  {
    if moves == [] then w else Play(h, Move1(h, w, moves[0]), moves[1..])
  }

  function Steps(w: World): nat { if w.sender.stage == S.Start then 0 else w.heard + 1 }

  /** Each end is where its steps have taken it, and no end has taken what the other has not sent. */
  ghost predicate OnTrack(h: Peers, w: World) {
    && !w.failed && Steps(w) <= 7 && w.taken <= 10 && (Steps(w) == 0 ==> w.heard == 0)
    && w.sender == SenderAt(h, Steps(w)) && w.receiver == ReceiverAt(h, w.taken)
    && w.taken <= 2 * SenderTurns(Steps(w)) && w.heard <= AnsweredBy(ReceiverTurns(w.taken))
  }

  /** How much of the handshake is done, out of 17. */
  function Progress(w: World): nat { Steps(w) + w.taken }

  /** The question has been put to the user; the sender awaits the answer. */
  ghost predicate Settled(h: Peers, w: World) { w == World(SenderAt(h, 7), ReceiverAt(h, 10), 10, 6, false) }

  lemma OpeningOnTrack(h: Peers)
    ensures OnTrack(h, Opening(h))
  {
    hide Agreed, Spoken, Answered, S.ClientInit, S.ClientFinish, R.ServerInit, Announce, TotalSize, Said;
    assert Opening(h).sender == SenderAt(h, 0);
    assert Opening(h).receiver == ReceiverAt(h, 0);
  }

  lemma IdleStays(h: Peers, taken: nat, tooLong: bool)
    requires taken <= 10
    ensures R.Step(h.g, ReceiverAt(h, taken), R.Turn(false, R.Silence(tooLong))) == Goes(ReceiverAt(h, taken))
  {
    hide ReceiverAt, R.SendSharing, R.OpenFiles;
    ReceiverSaid(h, taken);
  }

  lemma MoveOnTrack(h: Peers, w: World, move: Move)
    requires Compatible(h) && OnTrack(h, w)
    ensures OnTrack(h, Move1(h, w, move))
    ensures Progress(w) <= Progress(Move1(h, w, move)) <= Progress(w) + 1
    ensures move == Open && Steps(w) == 0 ==> Progress(Move1(h, w, move)) == Progress(w) + 1
    ensures move == ToReceiver && w.taken < 2 * SenderTurns(Steps(w)) ==> Progress(Move1(h, w, move)) == Progress(w) + 1
    ensures move == ToSender && Steps(w) > 0 && w.heard < AnsweredBy(ReceiverTurns(w.taken))
            ==> Progress(Move1(h, w, move)) == Progress(w) + 1
  {
    hide Compatible, SenderAt, ReceiverAt, Spoken, Answered, R.Step, S.TakeFrame, S.Begin;
    SenderSaid(h, Steps(w));
    ReceiverSaid(h, w.taken);
    match move
    case Open =>
      if Steps(w) == 0 {
        SenderOpens(h);
        SenderSaid(h, 1);
      }
    case ToReceiver =>
      if w.taken < 2 * SenderTurns(Steps(w)) {
        ReceiverStep(h, w.taken, SenderTurns(Steps(w)));
      }
    case ToSender =>
      if Steps(w) > 0 && w.heard < AnsweredBy(ReceiverTurns(w.taken)) {
        SenderStep(h, Steps(w), ReceiverTurns(w.taken));
        SenderSaid(h, Steps(w) + 1);
      }
    case Idle(tooLong) => IdleStays(h, w.taken, tooLong);
  }

  /** Safety over every interleaving: neither end ever fails. */
  lemma {:induction false} StaysOnTrack(h: Peers, w: World, moves: seq<Move>)
    requires Compatible(h) && OnTrack(h, w)
    ensures OnTrack(h, Play(h, w, moves)) && Progress(w) <= Progress(Play(h, w, moves))
    decreases |moves|
  {
    hide Compatible, OnTrack, Move1;
    if moves != [] {
      MoveOnTrack(h, w, moves[0]);
      StaysOnTrack(h, Move1(h, w, moves[0]), moves[1..]);
    }
  }

  /** Liveness: short of the end some frame can always be taken, and taking it is progress. */
  lemma NoDeadlock(h: Peers, w: World)
    requires Compatible(h) && OnTrack(h, w)
    ensures Progress(w) <= 17 && (Progress(w) == 17 <==> Settled(h, w))
    ensures Progress(w) < 17 ==> exists move :: Progress(Move1(h, w, move)) == Progress(w) + 1
  {
    hide Compatible, SenderAt, ReceiverAt, Move1, Spoken;
    SenderSaid(h, 7);
    var move := if Steps(w) == 0 then Open else if w.taken < 2 * SenderTurns(Steps(w)) then ToReceiver else ToSender;
    MoveOnTrack(h, w, move);
  }

  /** The handshake as the two programs run it: every interleaving is free of failure and of deadlock, and
      ends, if at all, with the question asked, the same PIN on both screens, and keys that fit crosswise. */
  lemma EveryHandshake(h: Peers, moves: seq<Move>)
    requires Compatible(h)
    ensures var w := Play(h, Opening(h), moves);
      && !w.failed && Progress(w) <= 17
      && (Progress(w) < 17 ==> exists move :: Progress(Move1(h, w, move)) == Progress(w) + 1)
      && (Progress(w) == 17 ==>
            && w.sender.stage == S.AwaitDecision && w.receiver.state == R.AwaitConsent && w.receiver.consent == 0
            && w.taken == |w.sender.outbox| && w.heard == |w.receiver.outbox|
            && w.sender.pin == w.receiver.pin && |w.sender.pin| == 4
            && w.sender.sendKeys == w.receiver.receiveKeys && w.sender.receiveKeys == w.receiver.sendKeys
            && w.receiver.total == TotalSize(h.e.files))
  {
    hide Compatible, OnTrack, Move1, Play;
    OpeningOnTrack(h);
    StaysOnTrack(h, Opening(h), moves);
    var w := Play(h, Opening(h), moves);
    TrackMeansNoFailure(h, w);
    NoDeadlock(h, w);
    if Progress(w) == 17 {
      WhenSettled(h);
    }
  }

  lemma TrackMeansNoFailure(h: Peers, w: World)
    requires OnTrack(h, w)
    ensures !w.failed
  {
    hide SenderAt, ReceiverAt;
  }

  lemma WhenSettled(h: Peers)
    requires Compatible(h)
    ensures var s, r := SenderAt(h, 7), ReceiverAt(h, 10);
      && s.stage == S.AwaitDecision && r.state == R.AwaitConsent && r.consent == 0
      && |s.outbox| == 10 && |r.outbox| == 6
      && s.pin == r.pin == Agreed(h).pin && |s.pin| == 4
      && s.sendKeys == r.receiveKeys == Agreed(h).client && s.receiveKeys == r.sendKeys == Agreed(h).server
      && s.sendSequence == r.clientSequence == 6 && s.receiveSequence == r.serverSequence == 4
      && r.total == TotalSize(h.e.files)
  {
    hide Compatible, Answered, Spoken, Agreed, S.ClientInit, S.ClientFinish, R.ServerInit, Announce, TotalSize, Said;
    SenderSaid(h, 7);
    ReceiverSaid(h, 10);
    PinSize(h);
    AnnounceKeeps(h.g, ReceiverTalking(h, R.AwaitIntroduction, 3).(clientSequence := 6), h.e.files);
  }

  lemma PinSize(h: Peers)
    requires Compatible(h)
    ensures |Agreed(h).pin| == 4
  {
    hide Derive, Transcript, Announceable;
    AgreementKeys(h.e.p, h.e.p.ecdh(h.e.secret, h.e.p.publicPoint(h.g.secret)), Transcript(h));
  }
}
