/** The whole conversation: handshake, acceptance, files. */
module Transfer {
  import opened ByteStrings
  import opened ProtoWire
  import opened Crypto
  import opened Framing
  import opened SecureChannel
  import opened KeyAgreement
  import opened Exchange
  import opened Announcement
  import opened HandshakeFrames
  import opened HandshakeStates
  import opened HandshakeSteps
  import opened Handshake
  import opened Delivery
  import opened Destination
  import PrefixRuns
  import SenderSession
  import R = Receiver
  import S = Sender

  // ---------------------------------------------------------------- opening the destinations

  ghost predicate AmongPaths(r: R.Session, ids: seq<int>, path: Path) {
    exists id :: id in ids && id in r.files && r.files[id].path == path
  }

  /** Every listed destination is created empty and nothing else is touched. */
  ghost predicate OpenedAll(r: R.Session, t: R.Session, ids: seq<int>) {
    && t == r.(files := t.files, disk := t.disk) && t.files.Keys == r.files.Keys
    && (forall id :: id in r.files ==> t.files[id] == if id in ids then r.files[id].(created := true) else r.files[id])
    && (forall id :: id in ids && id in r.files ==> r.files[id].path in t.disk && t.disk[r.files[id].path] == [])
    && (forall q :: !AmongPaths(r, ids, q) ==>
          (q in t.disk <==> q in r.disk) && (q in r.disk ==> t.disk[q] == r.disk[q]))
  }

  lemma {:induction false} OpensAll(g: R.Env, r: R.Session, ids: seq<int>)
    requires g.unopenable == {}
    ensures R.OpenFiles(g, r, ids).ok && OpenedAll(r, R.OpenFiles(g, r, ids).session, ids)
    decreases |ids|
  {
    if ids != [] {
      if ids[0] !in r.files {
        OpensAll(g, r, ids[1..]);
        SkipsUnknown(r, R.OpenFiles(g, r, ids).session, ids);
      } else {
        var f := r.files[ids[0]];
        var s1 := r.(files := r.files[ids[0] := f.(created := true)], disk := r.disk[f.path := []]);
        OpensAll(g, s1, ids[1..]);
        OpensFirst(r, s1, R.OpenFiles(g, s1, ids[1..]).session, ids);
      }
    }
  }

  lemma SkipsUnknown(r: R.Session, t: R.Session, ids: seq<int>)
    requires ids != [] && ids[0] !in r.files && OpenedAll(r, t, ids[1..])
    ensures OpenedAll(r, t, ids)
  {
    forall q | !AmongPaths(r, ids, q)
      ensures !AmongPaths(r, ids[1..], q)
    {
      AmongMore(r, r, ids, q);
    }
  }

  lemma AmongMore(r: R.Session, s1: R.Session, ids: seq<int>, q: Path)
    requires ids != [] && s1.files.Keys == r.files.Keys
    requires forall id :: id in r.files ==> s1.files[id].path == r.files[id].path
    requires !AmongPaths(r, ids, q)
    ensures !AmongPaths(s1, ids[1..], q)
  {
    forall id | id in ids[1..] && id in s1.files
      ensures s1.files[id].path != q
    {
      assert id in s1.files.Keys && id in ids;
    }
  }

  lemma OpensFirst(r: R.Session, s1: R.Session, t: R.Session, ids: seq<int>)
    requires ids != [] && ids[0] in r.files
    requires s1 == r.(files := r.files[ids[0] := r.files[ids[0]].(created := true)],
                      disk := r.disk[r.files[ids[0]].path := []])
    requires OpenedAll(s1, t, ids[1..])
    ensures OpenedAll(r, t, ids)
  {
    assert t.files.Keys == r.files.Keys;
    var first := r.files[ids[0]].path;
    var head := ids[0];
    assert head in ids && head in r.files && r.files[head].path == first;
    forall q | !AmongPaths(r, ids, q)
      ensures (q in t.disk <==> q in r.disk) && (q in r.disk ==> t.disk[q] == r.disk[q])
    {
      AmongMore(r, s1, ids, q);
      assert q != first;
    }
    forall id | id in ids && id in r.files
      ensures r.files[id].path in t.disk && t.disk[r.files[id].path] == []
    {
      OpensEach(r, s1, t, ids, id);
    }
    forall id | id in r.files
      ensures t.files[id] == if id in ids then r.files[id].(created := true) else r.files[id]
    {
      assert id in s1.files.Keys && (id in ids <==> id == ids[0] || id in ids[1..]);
    }
  }

  lemma OpensEach(r: R.Session, s1: R.Session, t: R.Session, ids: seq<int>, id: int)
    requires ids != [] && ids[0] in r.files && id in ids && id in r.files
    requires s1 == r.(files := r.files[ids[0] := r.files[ids[0]].(created := true)],
                      disk := r.disk[r.files[ids[0]].path := []])
    requires OpenedAll(s1, t, ids[1..])
    ensures r.files[id].path in t.disk && t.disk[r.files[id].path] == []
  {
    var path := r.files[id].path;
    assert id in s1.files && s1.files[id].path == path;
    if AmongPaths(s1, ids[1..], path) {
      var other :| other in ids[1..] && other in s1.files && s1.files[other].path == path;
      assert t.disk[s1.files[other].path] == [];
    } else {
      assert id == ids[0];
    }
  }

  // ---------------------------------------------------------------- acceptance

  function Asked(h: Peers): R.Session { ReceiverAt(h, 10) }

  function PathsFor(h: Peers): seq<Path> {
    seq(|h.e.files|, k requires 0 <= k < |h.e.files| => PathOf(Asked(h), h.e.files[k]))
  }

  /** Nothing in the receiver's surroundings gets in the way, and every name fits in a frame. */
  ghost predicate Unhindered(h: Peers) {
    && h.receiverLink >= 8 && TotalSize(h.e.files) <= h.space && h.g.unopenable == {}
    && forall f :: f in h.e.files ==> |f.name| <= MAX_NAME
  }

  function Yes(): Bytes { R.IntroductionResponse(true) }

  /** The user accepts and the loop turns once. */
  function Accepted(h: Peers): R.Turned {
    R.Step(h.g, R.Step(h.g, Asked(h), R.Accept).session, R.Turn(false, R.Silence(false)))
  }

  /** The receiver once the transfer has begun: destinations open, the answer sent. */
  ghost predicate Begun(h: Peers, r: R.Session) {
    && r.state == R.Receiving && r.receiveKeys == Agreed(h).client && r.clientSequence == 6
    && r.outbox == Asked(h).outbox + ReceiverPair(h, 2, Yes())
    && r.space == h.space && r.files.Keys == Asked(h).files.Keys && r.buffers == map[]
    && (forall id :: id in r.files ==>
          var f := Asked(h).files[id];
          r.files[id] == f.(created := true) && f.path in r.disk && r.disk[f.path] == [])
    && (forall q :: (forall id :: id in Asked(h).files ==> Asked(h).files[id].path != q) ==>
          (q in r.disk <==> q in h.disk) && (q in h.disk ==> r.disk[q] == h.disk[q]))
  }

  /** What the first ten frames have left in the session. */
  lemma AskedIs(h: Peers)
    requires Compatible(h)
    ensures var r := Asked(h);
      && r.state == R.AwaitConsent && r.consent == 0
      && r.receiveKeys == Agreed(h).client && r.sendKeys == Agreed(h).server
      && r.clientSequence == 6 && r.serverSequence == 4 && r.drawn == 2 && r.link == h.receiverLink - 6
      && r.disk == h.disk && r.space == h.space && r.buffers == map[]
  {
    hide Compatible, Answered, Agreed, S.ClientInit, S.ClientFinish, R.ServerInit, Announce, TotalSize;
    LinksLong(h);
    AnnounceKeeps(h.g, ReceiverTalking(h, R.AwaitIntroduction, 3).(clientSequence := 6), h.e.files);
  }

  lemma AnswerSent(h: Peers, r: R.Session, accepted: bool)
    requires Compatible(h) && h.receiverLink >= 8
    requires r.sendKeys == Agreed(h).server && r.serverSequence == 4 && r.drawn == 2 && r.link == h.receiverLink - 6
    ensures var answer := R.IntroductionResponse(accepted);
      R.SendSharing(h.g, r, answer) == R.Result(
        r.(drawn := 3, serverSequence := 6, link := r.link - 2, outbox := r.outbox + ReceiverPair(h, 2, answer)), true)
  {
    hide R.SendSharing, Agreed, Compatible, ChannelLaws, GoodIvs, GoodKeys, SealedPair, ReceiverPair,
         R.IntroductionResponse;
    var answer := R.IntroductionResponse(accepted);
    Basics(h);
    KeysGood(h);
    DecisionRead(accepted);
    ReceiverPairParts(h, 2, answer);
    ReceiverSendsPair(h.g, r, answer);
  }

  lemma OpensInOrder(h: Peers, r: R.Session)
    requires Compatible(h) && h.g.unopenable == {}
    ensures var opening := R.OpenFiles(h.g, r, h.g.order(r.files.Keys));
      && opening.ok && OpenedAll(r, opening.session, h.g.order(r.files.Keys))
      && forall id :: id in r.files ==> id in h.g.order(r.files.Keys)
  {
    hide Lawful, Announceable, TotalSize, OpenedAll, R.OpenFiles;
    R.OrderCovers(h.g, r.files);
    OpensAll(h.g, r, h.g.order(r.files.Keys));
  }

  lemma AcceptanceBegins(h: Peers)
    requires Compatible(h) && Unhindered(h)
    ensures Accepted(h).outcome == R.Running && Begun(h, Accepted(h).session)
  {
    hide Compatible, Asked, Agreed, R.SendSharing, R.OpenFiles, OpenedAll, R.IntroductionResponse, ReceiverPair;
    AskedIs(h);
    var r := Asked(h).(consent := 1);
    assert R.Step(h.g, Asked(h), R.Accept).session == r;
    OpensInOrder(h, r);
    var ids := h.g.order(r.files.Keys);
    var t := R.OpenFiles(h.g, r, ids).session;
    OpenedKeeps(r, t, ids);
    AnswerSent(h, t, true);
    BegunAfter(h, r, t, ids);
  }

  lemma OpenedKeeps(r: R.Session, t: R.Session, ids: seq<int>)
    requires OpenedAll(r, t, ids)
    ensures t == r.(files := t.files, disk := t.disk)
  {
  }

  lemma BegunAfter(h: Peers, r: R.Session, t: R.Session, ids: seq<int>)
    requires Compatible(h) && r == Asked(h).(consent := 1) && OpenedAll(r, t, ids)
    requires t.link >= 2 && forall id :: id in r.files ==> id in ids
    ensures Begun(h, t.(drawn := 3, serverSequence := 6, link := t.link - 2, consent := -1, state := R.Receiving,
                        outbox := t.outbox + ReceiverPair(h, 2, Yes())))
  {
    hide Compatible, Asked, Agreed, R.IntroductionResponse, ReceiverPair;
    AskedIs(h);
    forall q | forall id :: id in r.files ==> r.files[id].path != q
      ensures !AmongPaths(r, ids, q)
    {
    }
  }

  // ---------------------------------------------------------------- the files

  lemma EveryFileAsked(h: Peers)
    requires Compatible(h)
    ensures var files, r := h.e.files, Asked(h);
      && |files| > 0
      && (forall k :: 0 <= k < |files| ==> Listed(r, files[k]) && PathOf(r, files[k]) !in h.disk)
      && (forall j, k :: 0 <= j < k < |files| ==>
          Id(files[j]) != Id(files[k]) && PathOf(r, files[j]) != PathOf(r, files[k]))
      && (forall id :: id in r.files ==> exists k :: 0 <= k < |files| && Id(files[k]) == id)
      && (forall f :: f in files ==> |f.content| <= R.MAX_INT64)
  {
    hide Answered, Agreed, S.ClientInit, S.ClientFinish, R.ServerInit, Announce, TotalSize, Listed, PathOf, Lawful;
    var before := ReceiverTalking(h, R.AwaitIntroduction, 3).(clientSequence := 6);
    var files := h.e.files;
    var t := Announce(h.g, before, files);
    NothingKnown(before, files);
    SameList(t, Asked(h));
    forall k | 0 <= k < |files|
      ensures Listed(Asked(h), files[k]) && PathOf(Asked(h), files[k]) !in h.disk
    {
      Announced(h.g, before, files, k);
      PathsUnused(h.g, before, files, k);
    }
    forall j, k | 0 <= j < k < |files|
      ensures Id(files[j]) != Id(files[k]) && PathOf(Asked(h), files[j]) != PathOf(Asked(h), files[k])
    {
      PathsDiffer(h.g, before, files, j, k);
      if Id(files[j]) == Id(files[k]) {
        ToInt64Injective(files[j].id, files[k].id);
      }
    }
    forall id | id in Asked(h).files
      ensures exists k :: 0 <= k < |files| && Id(files[k]) == id
    {
      OnlyAnnounced(h.g, before, files, id);
      var f :| f in files && ToInt64(f.id) == id;
      var k :| 0 <= k < |files| && files[k] == f;
    }
  }

  /** Both predicates look only at the list. */
  lemma SameList(t: R.Session, u: R.Session)
    requires t.files == u.files
    ensures forall f :: Listed(t, f) == Listed(u, f) && PathOf(t, f) == PathOf(u, f)
  {
  }

  lemma ReadyToReceive(h: Peers, r: R.Session)
    requires Compatible(h) && Unhindered(h) && Begun(h, r)
    ensures Ready(h.g, r, h.e.files, PathsFor(h))
  {
    hide Compatible, Asked, Agreed, ChannelLaws, GoodKeys, TotalSize;
    EveryFileAsked(h);
    Basics(h);
    KeysGood(h);
    var files := h.e.files;
    forall k | 0 <= k < |files|
      ensures OpenedFor(r, files[k], PathsFor(h)[k])
    {
      assert files[k] in files;
      assert Listed(Asked(h), files[k]);
    }
  }

  lemma DiskGains(h: Peers, r: R.Session)
    requires Compatible(h) && Begun(h, r)
    ensures r.disk + Written(PathsFor(h), h.e.files) == h.disk + Written(PathsFor(h), h.e.files)
  {
    hide Compatible, Asked, Agreed, Written;
    EveryFileAsked(h);
    var paths, gained := PathsFor(h), Written(PathsFor(h), h.e.files);
    forall q | q !in gained
      ensures (q in r.disk <==> q in h.disk) && (q in h.disk ==> r.disk[q] == h.disk[q])
    {
      WrittenOnly(paths, h.e.files, q);
      forall id | id in Asked(h).files
        ensures Asked(h).files[id].path != q
      {
        var k :| 0 <= k < |h.e.files| && Id(h.e.files[k]) == id;
        assert paths[k] == Asked(h).files[id].path;
      }
    }
  }

  /** The sender learns that it may send. */
  lemma SenderStarts(h: Peers)
    requires Compatible(h)
    ensures var answer, s := ReceiverPair(h, 2, Yes()), SenderAt(h, 7);
      var middle := S.TakeFrame(h.e, s, answer[0]);
      middle.ok && S.TakeFrame(h.e, middle.sender, answer[1])
        == S.Sent(s.(receiveSequence := 6, stage := S.Sending), true)
  {
    hide S.TakeFrame, S.ClientInit, Agreed, Spoken, ReceiverPair, Compatible, R.IntroductionResponse,
         S.DecisionAccepted;
    DecisionRead(true);
    SenderHears(h, SenderAt(h, 7), 2, Yes());
  }

  // ---------------------------------------------------------------- all of it

  /** Two ends about to meet, the sender's files numbered by its draws. */
  ghost predicate Meeting(h: Peers, draws: (nat, nat) -> u64) {
    && h.e.p == h.g.p && Lawful(h.e.p) && S.GoodSenderEnv(h.e) && R.GoodEnv(h.g)
    && h.senderLink >= 10 && h.receiverLink >= 6 && h.consent != 0
    && h.e.files != [] && h.e.files == S.WithIds(h.e.files, draws)
    && (forall k: nat :: k < |h.e.files| ==> !S.Collides(draws, k))
    && (forall f :: f in h.e.files ==> |f.name| < TWO31 && |f.mime| < TWO31 && |f.content| <= R.MAX_INT64)
    && TotalSize(h.e.files) <= R.MAX_INT64
    && |S.IntroductionBody(h.e.files)| <= 5 * 1024 * 1024 - 1100
    && h.g.preflight(TotalSize(h.e.files))
  }

  lemma MeetingCompatible(h: Peers, draws: (nat, nat) -> u64)
    requires Meeting(h, draws)
    ensures Compatible(h)
  {
    hide S.Collides, S.WithIds, S.IntroductionBody, TotalSize, Lawful, S.GoodSenderEnv, R.GoodEnv;
    S.WithIdsDistinct(h.e.files, draws);
  }

  /** The two frames of the receiver's answer reach the sender. */
  function Answer(h: Peers, s: S.Sender, frames: seq<Bytes>): S.Sent
    requires |frames| == 2
  {
    var first := S.TakeFrame(h.e, s, frames[0]);
    if !first.ok then first else S.TakeFrame(h.e, first.sender, frames[1])
  }

  lemma AnswerTaken(h: Peers)
    requires Compatible(h)
    ensures Answer(h, SenderAt(h, 7), ReceiverPair(h, 2, Yes()))
         == S.Sent(SenderAt(h, 7).(receiveSequence := 6, stage := S.Sending), true)
  {
    hide S.TakeFrame, SenderAt, ReceiverPair, Compatible, R.IntroductionResponse;
    SenderStarts(h);
  }

  /** What the sender puts on the wire: all files and the goodbye. */
  function Sends(h: Peers, s: S.Sender, cuts: seq<seq<Bytes>>): S.Sent
    requires |cuts| == |h.e.files|
  {
    S.SendList(h.e, s, S.AllFrames(h.e.files, cuts) + [S.Goodbye(s)])
  }

  /** Which is, sealed, what the receiver expects, and then the goodbye. */
  lemma SendsSealed(h: Peers, s: S.Sender, cuts: seq<seq<Bytes>>) returns (more: seq<Bytes>)
    requires |cuts| == |h.e.files| && Sends(h, s, cuts).ok
    ensures OnWire(s, Sends(h, s, cuts).sender)
         == SealAll(h.e.p, s.sendKeys, h.e.ivs, s.sendSequence, S.AllFrames(h.e.files, cuts)) + more
  {
    hide S.SendList, S.AllFrames, S.Goodbye, SealAll;
    var frames := S.AllFrames(h.e.files, cuts);
    SenderSession.ListSeals(h.e, s, frames + [S.Goodbye(s)]);
    SealAllAppend(h.e.p, s.sendKeys, h.e.ivs, s.sendSequence, frames, [S.Goodbye(s)]);
    more := SealAll(h.e.p, s.sendKeys, h.e.ivs, s.sendSequence + |frames|, [S.Goodbye(s)]);
  }

  /** What became of the two ends: the sender after the answer, and what it has sent after all files. */
  function Started(h: Peers, w: World): S.Sent {
    var outbox := Accepted(h).session.outbox;
    if |outbox| < w.heard + 2 then S.Sent(w.sender, false) else Answer(h, w.sender, outbox[w.heard..w.heard + 2])
  }

  lemma StartedIs(h: Peers)
    requires Compatible(h) && Unhindered(h)
    ensures Started(h, Met(h)) == S.Sent(SenderAt(h, 7).(receiveSequence := 6, stage := S.Sending), true)
  {
    hide Compatible, SenderAt, Asked, Accepted, Answer, ReceiverPair, R.IntroductionResponse, Agreed;
    AcceptanceBegins(h);
    WhenSettled(h);
    SettledIsAsked(h);
    AnswerTaken(h);
    assert Accepted(h).session.outbox[6..8] == ReceiverPair(h, 2, Yes());
  }

  /** Every handshake that gets to the question, followed by the user's yes: the sender takes the answer and
      may send; and once it has sent all files, in reads of any size, and the receiver has been given what that
      put on the wire, whatever timeouts came in between, each file of the sender is, byte for byte, at a place
      of its own on the receiver's disk that was free before, nothing else on the disk has changed, and the
      receiver's run has returned true. */
  lemma EndToEnd(h: Peers, draws: (nat, nat) -> u64, moves: seq<Move>, cuts: seq<seq<Bytes>>, actions: seq<S.Action>,
                 events: seq<R.Event>)
    requires Meeting(h, draws) && Unhindered(h) && Progress(Play(h, Opening(h), moves)) == 17
    requires |cuts| == |h.e.files| && 6 + |S.AllFrames(h.e.files, cuts)| < TWO31
    ensures var w, begun := Play(h, Opening(h), moves), Accepted(h);
      && w.receiver == Asked(h) && begun.outcome == R.Running
      && var started := Started(h, w);
         && started.ok && started.sender.stage == S.Sending
         && (Exchanged(h, started.sender, cuts, actions, events)
             ==> Success(h, R.Run(h.g, begun.session, events), begun.session.outbox))
    ensures forall k :: 0 <= k < |h.e.files| ==> PathsFor(h)[k] !in h.disk
    ensures forall j, k :: 0 <= j < k < |h.e.files| ==> PathsFor(h)[j] != PathsFor(h)[k]
  {
    hide Meeting, Compatible, Unhindered, Play, SenderAt, Asked, Accepted, Started, Exchanged, Success, S.AllFrames,
         R.Run, PathsFor;
    MeetingCompatible(h, draws);
    QuestionAsked(h, moves);
    PlacesOfTheirOwn(h);
    AfterYes(h, cuts, actions, events);
  }

  /** The sender has sent all files, having heard nothing, and the receiver gets exactly what it sent. */
  ghost predicate Exchanged(h: Peers, s: S.Sender, cuts: seq<seq<Bytes>>, actions: seq<S.Action>,
                            events: seq<R.Event>) {
    var acted := S.Act(h.e, s, actions);
    && acted.ok && S.AllSaid(h.e.files, cuts, s, actions) && S.Heard(actions) == []
    && Traffic(events) && PrefixRuns.Delivered(events) == OnWire(s, acted.sender)
  }

  /** The frames sent between two states of the sender. */
  function OnWire(s: S.Sender, t: S.Sender): seq<Bytes> {
    if |s.outbox| <= |t.outbox| then t.outbox[|s.outbox|..] else []
  }

  /** Both ends, once the question has been put. */
  function Met(h: Peers): World { World(SenderAt(h, 7), Asked(h), 10, 6, false) }

  lemma QuestionAsked(h: Peers, moves: seq<Move>)
    requires Compatible(h) && Progress(Play(h, Opening(h), moves)) == 17
    ensures Play(h, Opening(h), moves) == Met(h)
  {
    hide Compatible, Play, Opening, SenderAt, Asked, ReceiverAt, OnTrack;
    OpeningOnTrack(h);
    StaysOnTrack(h, Opening(h), moves);
    NoDeadlock(h, Play(h, Opening(h), moves));
    SettledIsAsked(h);
  }

  lemma PlacesOfTheirOwn(h: Peers)
    requires Compatible(h)
    ensures |PathsFor(h)| == |h.e.files|
    ensures forall k :: 0 <= k < |h.e.files| ==> PathsFor(h)[k] !in h.disk
    ensures forall j, k :: 0 <= j < k < |h.e.files| ==> PathsFor(h)[j] != PathsFor(h)[k]
  {
    hide Compatible, Asked, Listed, PathOf, Id;
    EveryFileAsked(h);
  }

  lemma AfterYes(h: Peers, cuts: seq<seq<Bytes>>, actions: seq<S.Action>, events: seq<R.Event>)
    requires Compatible(h) && Unhindered(h)
    requires |cuts| == |h.e.files| && 6 + |S.AllFrames(h.e.files, cuts)| < TWO31
    ensures Accepted(h).outcome == R.Running
    ensures var started := Started(h, Met(h));
      && started.ok && started.sender.stage == S.Sending
      && (Exchanged(h, started.sender, cuts, actions, events)
          ==> Success(h, R.Run(h.g, Accepted(h).session, events), Accepted(h).session.outbox))
  {
    hide Compatible, Unhindered, SenderAt, Asked, Accepted, Started, Exchanged, Success, S.AllFrames, R.Run, Begun;
    AcceptanceBegins(h);
    StartedIs(h);
    var s := Started(h, Met(h)).sender;
    if Exchanged(h, s, cuts, actions, events) {
      ExchangedSends(h, s, cuts, actions, events);
      AllArrive(h, s, cuts, events);
    }
  }

  lemma ExchangedSends(h: Peers, s: S.Sender, cuts: seq<seq<Bytes>>, actions: seq<S.Action>, events: seq<R.Event>)
    requires |cuts| == |h.e.files| && Exchanged(h, s, cuts, actions, events)
    ensures S.Act(h.e, s, actions) == Sends(h, s, cuts) && Sends(h, s, cuts).ok && Traffic(events)
    ensures forall k :: 0 <= k < |cuts| ==> S.ReadsOf(h.e.files[k], cuts[k])
    ensures PrefixRuns.Delivered(events) == OnWire(s, Sends(h, s, cuts).sender)
  {
    hide S.Act, S.Heard, S.Said, S.SendList, S.AllFrames, S.Goodbye, S.ReadsOf, Traffic, PrefixRuns.Delivered;
    S.QuietActs(h.e, s, actions);
  }

  /** The run has returned true, the disk has gained the files and the receiver has said nothing more. */
  ghost predicate Success(h: Peers, end: R.Turned, outbox: seq<Bytes>) {
    && end.outcome == R.Returned(true) && end.session.outbox == outbox
    && R.Finish(end.session).disk == h.disk + Written(PathsFor(h), h.e.files)
  }

  lemma AllArrive(h: Peers, s: S.Sender, cuts: seq<seq<Bytes>>, events: seq<R.Event>)
    requires Compatible(h) && Unhindered(h) && s == SenderAt(h, 7).(receiveSequence := 6, stage := S.Sending)
    requires |cuts| == |h.e.files| && forall k :: 0 <= k < |cuts| ==> S.ReadsOf(h.e.files[k], cuts[k])
    requires 6 + |S.AllFrames(h.e.files, cuts)| < TWO31 && Sends(h, s, cuts).ok && Traffic(events)
    requires PrefixRuns.Delivered(events) == OnWire(s, Sends(h, s, cuts).sender)
    ensures Success(h, R.Run(h.g, Accepted(h).session, events), Accepted(h).session.outbox)
  {
    hide Compatible, Unhindered, SenderAt, ReceiverAt, Asked, Accepted, Sends, S.AllFrames, Written, Ready, S.ReadsOf,
         Agreed, Traffic, PrefixRuns.Delivered, R.Run, SealAll, R.Finish;
    AcceptanceBegins(h);
    WhenSettled(h);
    EveryFileAsked(h);
    Basics(h);
    var r := Accepted(h).session;
    BegunParts(h, r);
    ReadyToReceive(h, r);
    var more := SendsSealed(h, s, cuts);
    FilesDelivered(h.g, r, h.e.ivs, h.e.files, PathsFor(h), cuts, events, more);
    DiskGains(h, r);
    NothingToClose(R.Run(h.g, r, events).session);
  }

  lemma BegunParts(h: Peers, r: R.Session)
    requires Begun(h, r)
    ensures r.state == R.Receiving && r.receiveKeys == Agreed(h).client && r.clientSequence == 6
  {
    hide Asked, Agreed, ReceiverPair, Yes;
  }

  lemma SettledIsAsked(h: Peers)
    ensures Asked(h) == ReceiverAt(h, 10)
  {
    hide ReceiverAt;
  }

  lemma NothingToClose(r: R.Session)
    requires r.files == map[] && r.state == R.Receiving
    ensures R.Finish(r).disk == r.disk
  {
    assert R.OpenPaths(r) == {};
  }

  // ---------------------------------------------------------------- the user declines

  function No(): Bytes { R.IntroductionResponse(false) }

  /** The user declines, or does not answer in time, and the loop turns once, whatever that turn brings. */
  function Declined(h: Peers, rejects: bool, elapsed: bool, input: R.Input): R.Turned {
    var r := if rejects then R.Step(h.g, Asked(h), R.Reject).session else Asked(h);
    R.Step(h.g, r, R.Turn(elapsed, input))
  }

  /** The sender takes a refusal as one: it fails where it waits for the decision. */
  lemma RefusalTaken(h: Peers)
    requires Compatible(h)
    ensures Answer(h, SenderAt(h, 7), ReceiverPair(h, 2, No())) == S.Sent(SenderAt(h, 7).(receiveSequence := 6), false)
  {
    hide S.TakeFrame, S.ClientInit, Agreed, Spoken, ReceiverPair, Compatible, R.IntroductionResponse,
         S.DecisionAccepted;
    DecisionRead(false);
    SenderHears(h, SenderAt(h, 7), 2, No());
  }

  lemma DeclineAnswers(h: Peers, rejects: bool, elapsed: bool, input: R.Input)
    requires Compatible(h) && h.receiverLink >= 8 && (rejects || elapsed)
    ensures var t, before := Declined(h, rejects, elapsed, input), Asked(h);
      && t.outcome == R.Returned(true) && t.session.outbox == before.outbox + ReceiverPair(h, 2, No())
      && t.session == before.(drawn := 3, serverSequence := 6, link := t.session.link, consent := -1,
                              outbox := t.session.outbox)
  {
    hide Compatible, Asked, Agreed, R.SendSharing, R.IntroductionResponse, ReceiverPair, R.Step;
    AskedIs(h);
    var r := if rejects then Asked(h).(consent := -1) else Asked(h);
    RejectIs(h.g, Asked(h));
    AnswerSent(h, r, false);
    DeclineStep(h.g, r, elapsed, input);
  }

  lemma RejectIs(g: R.Env, r: R.Session)
    requires r.consent == 0
    ensures R.Step(g, r, R.Reject) == R.Turned(r.(consent := -1), R.Running)
  {
  }

  lemma DeclineStep(g: R.Env, r: R.Session, elapsed: bool, input: R.Input)
    requires r.state == R.AwaitConsent && (r.consent < 0 || (r.consent == 0 && elapsed))
    ensures R.Step(g, r, R.Turn(elapsed, input))
         == R.Turned(R.SendSharing(g, r, No()).session.(consent := -1), R.Returned(true))
  {
    hide R.SendSharing, R.OpenFiles, R.IntroductionResponse, R.InputPhase;
  }

  /** Every handshake that gets to the question, followed by a no or by silence until the timeout: the
      receiver's run ends with nothing written, and its answer makes the sender give up where it waits for the
      decision, so that it sends nothing more. */
  lemma EndsInRefusal(h: Peers, draws: (nat, nat) -> u64, moves: seq<Move>, rejects: bool, elapsed: bool,
                      input: R.Input)
    requires Meeting(h, draws) && h.receiverLink >= 8 && Progress(Play(h, Opening(h), moves)) == 17
    requires rejects || elapsed
    ensures var w, t := Play(h, Opening(h), moves), Declined(h, rejects, elapsed, input);
      && w.receiver == Asked(h) && t.outcome == R.Returned(true) && R.Finish(t.session).disk == h.disk
      && |t.session.outbox| == w.heard + 2
      && var told := Answer(h, w.sender, t.session.outbox[w.heard..]);
         !told.ok && told.sender.stage == S.AwaitDecision && told.sender.outbox == w.sender.outbox
  {
    hide Meeting, Compatible, Play, SenderAt, Asked, ReceiverPair, R.IntroductionResponse, Answer, Declined;
    MeetingCompatible(h, draws);
    QuestionAsked(h, moves);
    SettledIsAsked(h);
    WhenSettled(h);
    DeclineAnswers(h, rejects, elapsed, input);
    RefusalTaken(h);
    var t := Declined(h, rejects, elapsed, input).session;
    assert t.outbox[6..] == ReceiverPair(h, 2, No());
    NothingOpened(h, t);
  }

  lemma NothingOpened(h: Peers, r: R.Session)
    requires Compatible(h) && r.disk == Asked(h).disk && r.files == Asked(h).files
    ensures R.Finish(r).disk == h.disk
  {
    hide Compatible, Asked;
    AskedIs(h);
    NoneCreated(h);
    assert R.OpenPaths(if r.state == R.AwaitConsent then r.(consent := -1) else r) == {};
  }

  lemma NoneCreated(h: Peers)
    requires Compatible(h)
    ensures forall id :: id in Asked(h).files ==> !Asked(h).files[id].created
  {
    hide Compatible, Asked, Listed, PathOf;
    EveryFileAsked(h);
    forall id | id in Asked(h).files
      ensures !Asked(h).files[id].created
    {
      var k :| 0 <= k < |h.e.files| && Id(h.e.files[k]) == id;
      ListedClosed(Asked(h), h.e.files[k]);
    }
  }

  lemma ListedClosed(r: R.Session, f: Outgoing)
    requires Listed(r, f)
    ensures Id(f) in r.files && !r.files[Id(f)].created
  {
  }
}
