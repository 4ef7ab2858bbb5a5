/** End-to-end delivery: the frames the sender's chunk loop emits, sealed and taken one by one by the
    receiver, leave every destination equal to its source. */
module Delivery {
  import opened ByteStrings
  import opened ProtoWire
  import opened Crypto
  import opened Framing
  import opened SecureChannel
  import opened Frames
  import opened PrefixRuns
  import opened Exchange
  import opened Announcement
  import opened Destination
  import R = Receiver
  import S = Sender

  /** A name for which every frame of the file is small enough. */
  const MAX_NAME := 5 * 1024 * 1024 - 64 * 1024 - 1024

  function Id(f: Outgoing): int { ToInt64(f.id) }

  // ---------------------------------------------------------------- feeding sealed messages

  function Arrivals(frames: seq<Bytes>): seq<R.Event> {
    if frames == [] then [] else [Arrives(frames[0])] + Arrivals(frames[1..])
  }

  /** The receiver's run over the messages its peer seals next, nothing else happening. */
  function Fed(e: R.Env, r: R.Session, ivs: Ivs, messages: seq<Bytes>): R.Turned {
    R.Run(e, r, Arrivals(SealAll(e.p, r.receiveKeys, ivs, r.clientSequence, messages)))
  }

  lemma FedStep(e: R.Env, r: R.Session, ivs: Ivs, message: Bytes, more: seq<Bytes>)
    ensures var n := r.clientSequence + 1; var t := R.Step(e, r, Arrives(Seal(e.p, r.receiveKeys, ivs(n), n, message)));
      && (t.outcome != R.Running ==> Fed(e, r, ivs, [message] + more) == t)
      && (t.outcome == R.Running && t.session.receiveKeys == r.receiveKeys && t.session.clientSequence == n
          ==> Fed(e, r, ivs, [message] + more) == Fed(e, t.session, ivs, more))
  {
    hide Seal, R.Step;
    var frame := Seal(e.p, r.receiveKeys, ivs(r.clientSequence + 1), r.clientSequence + 1, message);
    assert ([message] + more)[1..] == more;
    var rest := SealAll(e.p, r.receiveKeys, ivs, r.clientSequence + 1, more);
    assert SealAll(e.p, r.receiveKeys, ivs, r.clientSequence, [message] + more) == [frame] + rest;
    assert ([frame] + rest)[1..] == rest;
    assert ([Arrives(frame)] + Arrivals(rest))[1..] == Arrivals(rest);
  }

  // ---------------------------------------------------------------- the turns in between

  /** Frames arriving, and polls that time out in between; whatever the consent timer says. */
  ghost predicate Traffic(events: seq<R.Event>) {
    forall event :: event in events ==> event.Turn? && (event.input == R.Silence(false) || event.input.Arrived?)
  }

  lemma PacketStays(e: R.Env, r: R.Session, packet: Packet)
    requires r.state == R.Receiving
    ensures R.TakePacket(e, r, packet).session.state == R.Receiving
  {
    hide R.ParseSharing, R.Introduction, R.SendSharing, GetBytes;
  }

  lemma OfflineStays(e: R.Env, r: R.Session, offline: Bytes)
    requires r.state == R.Receiving
    ensures R.TakeOffline(e, r, offline).session.state == R.Receiving
  {
    hide ParseOffline, ParsePacket, R.TakePacket, R.KeepAliveAck, Seal, AesEncrypt, Plain;
    match ParseOffline(offline)
    case TransferOf(Some(transfer)) =>
      if ParsePacket(transfer).Some? {
        PacketStays(e, r, ParsePacket(transfer).value);
      }
    case _ =>
  }

  /** Once files come in, a session stays with them. */
  lemma StaysReceiving(e: R.Env, r: R.Session, frame: Bytes)
    requires r.state == R.Receiving
    ensures R.Step(e, r, Arrives(frame)).session.state == R.Receiving
  {
    hide R.TakeOffline, Verified, Decrypted;
    if Open(e.p, r.receiveKeys, r.clientSequence, frame).Some? {
      OfflineStays(e, R.Counted(e, r, frame), Open(e.p, r.receiveKeys, r.clientSequence, frame).value);
    }
  }

  lemma TurnWhileReceiving(e: R.Env, r: R.Session, elapsed: bool, input: R.Input)
    requires r.state == R.Receiving
    ensures R.Step(e, r, R.Turn(elapsed, R.Silence(false))) == R.Turned(r, R.Running)
    ensures R.Step(e, r, R.Turn(elapsed, input)) == R.Step(e, r, R.Turn(false, input))
  {
    hide R.InputPhase;
    assert R.ConsentPhase(e, r, elapsed) == R.Turned(r, R.Running);
    assert R.InputPhase(e, r, R.Silence(false)) == R.Turned(r, R.Running) by {
      SilenceTurns(e, r);
    }
  }

  lemma SilenceTurns(e: R.Env, r: R.Session)
    ensures R.InputPhase(e, r, R.Silence(false)) == R.Turned(r, R.Running)
  {
  }

  /** While files come in only the frames count. */
  lemma {:induction false} OnlyFramesCount(e: R.Env, r: R.Session, events: seq<R.Event>)
    requires r.state == R.Receiving && Traffic(events)
    ensures R.Run(e, r, events) == R.Run(e, r, Arrivals(Delivered(events)))
    decreases |events|
  {
    hide R.Step;
    if events != [] {
      assert events[0] in events;
      var input := events[0].input;
      TurnWhileReceiving(e, r, events[0].elapsed, input);
      if input.Arrived? {
        var rest := Delivered(events[1..]);
        StaysReceiving(e, r, input.frame);
        assert Delivered(events) == [input.frame] + rest && ([input.frame] + rest)[1..] == rest;
        assert ([Arrives(input.frame)] + Arrivals(rest))[1..] == Arrivals(rest);
        var t := R.Step(e, r, Arrives(input.frame));
        if t.outcome == R.Running {
          OnlyFramesCount(e, t.session, events[1..]);
        }
      } else {
        OnlyFramesCount(e, r, events[1..]);
      }
    }
  }

  /** What comes after the end of a run changes nothing. */
  lemma {:induction false} RunIsOver(e: R.Env, r: R.Session, first: seq<R.Event>, more: seq<R.Event>)
    requires R.Run(e, r, first).outcome != R.Running
    ensures R.Run(e, r, first + more) == R.Run(e, r, first)
    decreases |first|
  {
    hide R.Step;
    assert (first + more)[1..] == first[1..] + more;
    if R.Step(e, r, first[0]).outcome == R.Running {
      RunIsOver(e, R.Step(e, r, first[0]).session, first[1..], more);
    }
  }

  lemma {:induction false} ArrivalsAppend(first: seq<Bytes>, more: seq<Bytes>)
    ensures Arrivals(first + more) == Arrivals(first) + Arrivals(more)
    decreases |first|
  {
    if first == [] {
      assert first + more == more;
    } else {
      assert (first + more)[1..] == first[1..] + more;
      ArrivalsAppend(first[1..], more);
    }
  }

  /** So a run that the messages bring to its end is the same with timeouts between them and more behind. */
  lemma RunWithTimeouts(e: R.Env, r: R.Session, ivs: Ivs, messages: seq<Bytes>, more: seq<Bytes>, events: seq<R.Event>)
    requires r.state == R.Receiving && Traffic(events) && Fed(e, r, ivs, messages).outcome != R.Running
    requires Delivered(events) == SealAll(e.p, r.receiveKeys, ivs, r.clientSequence, messages) + more
    ensures R.Run(e, r, events) == Fed(e, r, ivs, messages)
  {
    hide R.Run, Delivered, Traffic, SealAll, Arrivals;
    var sealed := SealAll(e.p, r.receiveKeys, ivs, r.clientSequence, messages);
    OnlyFramesCount(e, r, events);
    ArrivalsAppend(sealed, more);
    RunIsOver(e, r, Arrivals(sealed), Arrivals(more));
  }

  // ---------------------------------------------------------------- one file

  /** The receiver has the first `offset` bytes of f and waits for the others. */
  ghost predicate Midway(e: R.Env, r: R.Session, f: Outgoing, offset: nat) {
    && Listening(e, r) && r.state == R.Receiving
    && |f.name| <= MAX_NAME && offset <= |f.content| <= R.MAX_INT64 && |f.content| - offset <= r.space
    && Id(f) in r.files
    && var g := r.files[Id(f)];
       g.created && g.size == |f.content| && g.received == offset && R.OnDisk(r, g.path) == f.content[..offset]
  }

  /** `count` more bytes and one more frame. */
  function Advanced(r: R.Session, f: Outgoing, offset: nat, count: nat): R.Session
    requires Id(f) in r.files && offset + count <= |f.content| && count <= r.space
  {
    var g := r.files[Id(f)];
    r.(clientSequence := r.clientSequence + 1, files := r.files[Id(f) := g.(received := offset + count)],
       disk := r.disk[g.path := f.content[..offset + count]], received := r.received + count, space := r.space - count)
  }

  lemma TakesData(e: R.Env, r: R.Session, iv: Bytes, f: Outgoing, offset: nat, body: Bytes)
    requires Midway(e, r, f, offset) && |iv| == 16 && |body| <= S.CHUNK_SIZE && body <= f.content[offset..]
    ensures var message := DataFrame(f.id, FILE_PAYLOAD, S.SizeOf(f.content), Some(f.name), offset % TWO64, body);
      R.Step(e, r, Arrives(Seal(e.p, r.receiveKeys, iv, r.clientSequence + 1, message)))
        == R.Turned(Advanced(r, f, offset, |body|), R.Running)
  {
    hide Seal, DataFrame, CarriesPacket, R.Step, R.FileChunk, GoodKeys, ChannelLaws;
    var size := |f.content|;
    DataFrameCarries(f.id, FILE_PAYLOAD, size, Some(f.name), offset, body);
    var packet := Packet(f.id, FILE_PAYLOAD, size, 0, offset, body);
    ReceiverTakes(e, r, iv, DataFrame(f.id, FILE_PAYLOAD, size, Some(f.name), offset, body), packet);
    TakesChunk(e, r, f, offset, body);
    assert Id(f) in Advanced(r, f, offset, |body|).files;
  }

  lemma TakesChunk(e: R.Env, r: R.Session, f: Outgoing, offset: nat, body: Bytes)
    requires Midway(e, r, f, offset) && body <= f.content[offset..]
    ensures R.FileChunk(r.(clientSequence := r.clientSequence + 1), Id(f), offset, 0, body)
         == R.Result(Advanced(r, f, offset, |body|), true)
  {
    hide Listening;
    assert f.content[..offset] + body == f.content[..offset + |body|];
    assert body[..|body|] == body;
  }

  /** The last frame of a file takes it off the list. */
  lemma TakesLast(e: R.Env, r: R.Session, iv: Bytes, f: Outgoing)
    requires Midway(e, r, f, |f.content|) && |iv| == 16
    ensures var message := LastFrame(f.id, FILE_PAYLOAD, S.SizeOf(f.content), Some(f.name), |f.content| % TWO64);
      R.Step(e, r, Arrives(Seal(e.p, r.receiveKeys, iv, r.clientSequence + 1, message)))
        == var landed := R.Land(Advanced(r, f, |f.content|, 0), Id(f));
           R.Turned(landed, if landed.files == map[] then R.Returned(true) else R.Running)
  {
    hide Seal, LastFrame, CarriesPacket, R.Step, GoodKeys, ChannelLaws;
    var size := |f.content|;
    LastFrameCarries(f.id, FILE_PAYLOAD, size, Some(f.name), size);
    var packet := Packet(f.id, FILE_PAYLOAD, size, 1, size, []);
    ReceiverTakes(e, r, iv, LastFrame(f.id, FILE_PAYLOAD, size, Some(f.name), size), packet);
    assert f.content[..size] + [] == f.content[..size];
    var s1 := r.(clientSequence := r.clientSequence + 1);
    assert R.FileChunk(s1, Id(f), size, 1, []) == R.Result(R.Land(Advanced(r, f, size, 0), Id(f)), true);
  }

  /** The receiver once f is complete, `frames` frames later. */
  function Completed(r: R.Session, f: Outgoing, offset: nat, frames: nat): R.Session
    requires Id(f) in r.files && offset <= |f.content| && |f.content| - offset <= r.space
  {
    var count := |f.content| - offset;
    r.(clientSequence := r.clientSequence + frames, files := r.files - {Id(f)},
       disk := r.disk[r.files[Id(f)].path := f.content], received := r.received + count, space := r.space - count)
  }

  lemma CompletedLater(r: R.Session, f: Outgoing, offset: nat, count: nat, frames: nat)
    requires Id(f) in r.files && offset + count <= |f.content| && |f.content| - offset <= r.space
    ensures Completed(Advanced(r, f, offset, count), f, offset + count, frames) == Completed(r, f, offset, frames + 1)
  {
    var r1 := Advanced(r, f, offset, count);
    assert r1.files - {Id(f)} == r.files - {Id(f)};
    var path := r.files[Id(f)].path;
    assert r1.disk[path := f.content] == r.disk[path := f.content];
  }

  /** Any reads that make up the rest of the file bring it home. */
  lemma {:induction false} FileDelivered(e: R.Env, r: R.Session, ivs: Ivs, f: Outgoing, offset: nat,
                                         chunks: seq<Bytes>, more: seq<Bytes>)
    requires Midway(e, r, f, offset) && GoodIvs(ivs) && r.clientSequence + |chunks| < TWO31
    requires Concat(chunks) == f.content[offset..] && forall c :: c in chunks ==> |c| <= S.CHUNK_SIZE
    ensures var landed := Completed(r, f, offset, |chunks| + 1);
      Fed(e, r, ivs, S.ChunkFrames(f, offset, chunks) + more)
        == if landed.files == map[] then R.Turned(landed, R.Returned(true)) else Fed(e, landed, ivs, more)
    decreases |chunks|
  {
    hide DataFrame, LastFrame, Listening, Fed, Completed, Advanced;
    if chunks == [] {
      assert |f.content[offset..]| == 0;
      FileEnds(e, r, ivs, f, more);
    } else {
      var body, rest := chunks[0], chunks[1..];
      assert body in chunks;
      assert f.content[offset..] == body + Concat(rest);
      assert |f.content[offset..]| == |f.content| - offset;
      FileGoesOn(e, r, ivs, f, offset, body, S.ChunkFrames(f, offset + |body|, rest) + more);
      assert S.ChunkFrames(f, offset, chunks) + more
          == [DataFrame(f.id, FILE_PAYLOAD, S.SizeOf(f.content), Some(f.name), offset % TWO64, body)]
             + (S.ChunkFrames(f, offset + |body|, rest) + more);
      assert f.content[offset + |body|..] == f.content[offset..][|body|..] == Concat(rest);
      FileDelivered(e, Advanced(r, f, offset, |body|), ivs, f, offset + |body|, rest, more);
      CompletedLater(r, f, offset, |body|, |chunks|);
    }
  }

  lemma FileGoesOn(e: R.Env, r: R.Session, ivs: Ivs, f: Outgoing, offset: nat, body: Bytes, tail: seq<Bytes>)
    requires Midway(e, r, f, offset) && GoodIvs(ivs) && r.clientSequence + 1 < TWO31
    requires |body| <= S.CHUNK_SIZE && body <= f.content[offset..]
    ensures var first := DataFrame(f.id, FILE_PAYLOAD, S.SizeOf(f.content), Some(f.name), offset % TWO64, body);
      var next := Advanced(r, f, offset, |body|);
      && Fed(e, r, ivs, [first] + tail) == Fed(e, next, ivs, tail)
      && Midway(e, next, f, offset + |body|) && next.clientSequence == r.clientSequence + 1
  {
    hide Seal, DataFrame, R.Step, Listening, Fed;
    TakesData(e, r, ivs(r.clientSequence + 1), f, offset, body);
    FedStep(e, r, ivs, DataFrame(f.id, FILE_PAYLOAD, S.SizeOf(f.content), Some(f.name), offset % TWO64, body), tail);
    StillMidway(e, r, f, offset, body);
  }

  lemma FileEnds(e: R.Env, r: R.Session, ivs: Ivs, f: Outgoing, more: seq<Bytes>)
    requires Midway(e, r, f, |f.content|) && GoodIvs(ivs)
    ensures var landed := Completed(r, f, |f.content|, 1);
      Fed(e, r, ivs, S.ChunkFrames(f, |f.content|, []) + more)
        == if landed.files == map[] then R.Turned(landed, R.Returned(true)) else Fed(e, landed, ivs, more)
  {
    hide Seal, LastFrame, R.Step, Listening, Fed;
    TakesLast(e, r, ivs(r.clientSequence + 1), f);
    var last := LastFrame(f.id, FILE_PAYLOAD, S.SizeOf(f.content), Some(f.name), |f.content| % TWO64);
    FedStep(e, r, ivs, last, more);
    assert f.content[..|f.content|] == f.content;
    assert Advanced(r, f, |f.content|, 0).files - {Id(f)} == r.files - {Id(f)};
  }

  lemma StillMidway(e: R.Env, r: R.Session, f: Outgoing, offset: nat, body: Bytes)
    requires Midway(e, r, f, offset) && body <= f.content[offset..] && r.clientSequence + 1 < TWO31
    ensures Midway(e, Advanced(r, f, offset, |body|), f, offset + |body|)
  {
    hide GoodKeys, ChannelLaws;
  }

  // ---------------------------------------------------------------- all of them

  /** What the disk gains. */
  function Written(paths: seq<Path>, files: seq<Outgoing>): map<Path, Bytes>
    requires |paths| == |files|
  {
    if files == [] then map[] else map[paths[0] := files[0].content] + Written(paths[1..], files[1..])
  }

  lemma {:induction false} WrittenAt(paths: seq<Path>, files: seq<Outgoing>, k: nat)
    requires |paths| == |files| && k < |files| && forall i, j :: 0 <= i < j < |paths| ==> paths[i] != paths[j]
    ensures paths[k] in Written(paths, files) && Written(paths, files)[paths[k]] == files[k].content
  {
    if k > 0 {
      WrittenAt(paths[1..], files[1..], k - 1);
    } else {
      WrittenOnly(paths[1..], files[1..], paths[0]);
    }
  }

  lemma {:induction false} WrittenOnly(paths: seq<Path>, files: seq<Outgoing>, path: Path)
    requires |paths| == |files|
    ensures path in Written(paths, files) <==> path in paths
  {
    if files != [] {
      WrittenOnly(paths[1..], files[1..], path);
      assert paths == [paths[0]] + paths[1..];
    }
  }

  /** The entry the accepted transfer has made for file k. */
  ghost predicate OpenedFor(r: R.Session, f: Outgoing, path: Path) {
    && |f.name| <= MAX_NAME && |f.content| <= R.MAX_INT64
    && Id(f) in r.files
    && var g := r.files[Id(f)];
       g.created && g.size == |f.content| && g.received == 0 && g.path == path && path in r.disk && r.disk[path] == []
  }

  /** The list is exactly these files, each open and empty at a path of its own. */
  ghost predicate Ready(e: R.Env, r: R.Session, files: seq<Outgoing>, paths: seq<Path>) {
    && Listening(e, r) && r.state == R.Receiving && TotalSize(files) <= r.space && |paths| == |files|
    && (forall i, j :: 0 <= i < j < |files| ==> Id(files[i]) != Id(files[j]) && paths[i] != paths[j])
    && (forall k :: 0 <= k < |files| ==> OpenedFor(r, files[k], paths[k]))
    && (forall id :: id in r.files ==> exists k :: 0 <= k < |files| && Id(files[k]) == id)
  }

  lemma ReadyForNext(e: R.Env, r: R.Session, files: seq<Outgoing>, paths: seq<Path>, frames: nat)
    requires Ready(e, r, files, paths) && files != [] && r.clientSequence + frames < TWO31
    ensures Midway(e, r, files[0], 0)
    ensures var next := Completed(r, files[0], 0, frames);
      Ready(e, next, files[1..], paths[1..]) && (next.files == map[] <==> |files| == 1)
  {
    hide GoodKeys, ChannelLaws, OpenedFor;
    var f := files[0];
    OpenedForMidway(e, r, f, paths[0], TotalSize(files));
    var next := Completed(r, f, 0, frames);
    forall k | 0 <= k < |files[1..]|
      ensures OpenedFor(next, files[1..][k], paths[1..][k])
    {
      StaysOpened(r, f, paths[0], frames, files[k + 1], paths[k + 1]);
    }
    forall id | id in next.files
      ensures exists k :: 0 <= k < |files[1..]| && Id(files[1..][k]) == id
    {
      var k :| 0 <= k < |files| && Id(files[k]) == id;
      assert files[1..][k - 1] == files[k];
    }
    if |files| > 1 {
      StaysOpened(r, f, paths[0], frames, files[1], paths[1]);
    }
  }

  lemma OpenedForMidway(e: R.Env, r: R.Session, f: Outgoing, path: Path, size: nat)
    requires OpenedFor(r, f, path) && Listening(e, r) && r.state == R.Receiving && |f.content| <= size <= r.space
    ensures Midway(e, r, f, 0)
  {
    hide GoodKeys, ChannelLaws;
  }

  lemma StaysOpened(r: R.Session, f: Outgoing, path: Path, frames: nat, g: Outgoing, other: Path)
    requires OpenedFor(r, f, path) && OpenedFor(r, g, other) && Id(f) != Id(g) && path != other
    requires |f.content| <= r.space
    ensures OpenedFor(Completed(r, f, 0, frames), g, other) && Id(g) in Completed(r, f, 0, frames).files
  {
  }

  /** The receiver with all files complete, `frames` frames later. */
  function Finished(r: R.Session, files: seq<Outgoing>, paths: seq<Path>, frames: nat): R.Session
    requires |paths| == |files| && TotalSize(files) <= r.space
  {
    r.(clientSequence := r.clientSequence + frames, files := map[], disk := r.disk + Written(paths, files),
       received := r.received + TotalSize(files), space := r.space - TotalSize(files))
  }

  lemma {:induction false} FilesFed(e: R.Env, r: R.Session, ivs: Ivs, files: seq<Outgoing>, paths: seq<Path>,
                                    cuts: seq<seq<Bytes>>)
    requires Ready(e, r, files, paths) && GoodIvs(ivs) && files != [] && |cuts| == |files|
    requires forall k :: 0 <= k < |files| ==> S.ReadsOf(files[k], cuts[k])
    requires r.clientSequence + |S.AllFrames(files, cuts)| < TWO31
    ensures var frames := S.AllFrames(files, cuts);
      Fed(e, r, ivs, frames) == R.Turned(Finished(r, files, paths, |frames|), R.Returned(true))
    decreases |files|
  {
    hide Fed, Ready, Midway, S.ChunkFrames, Written;
    var f := files[0];
    var n := |cuts[0]| + 1;
    var more := S.AllFrames(files[1..], cuts[1..]);
    ReadyPath(e, r, files, paths);
    FrameCount(f, 0, cuts[0]);
    FirstDelivered(e, r, ivs, files, paths, cuts[0], more);
    var next := Completed(r, f, 0, n);
    WrittenFirst(r.disk, paths, files);
    if |files| == 1 {
      assert files[1..] == [] && more == [];
    } else {
      forall k | 0 <= k < |files[1..]|
        ensures S.ReadsOf(files[1..][k], cuts[1..][k])
      {
        assert S.ReadsOf(files[k + 1], cuts[k + 1]);
      }
      FilesFed(e, next, ivs, files[1..], paths[1..], cuts[1..]);
    }
  }

  lemma FirstDelivered(e: R.Env, r: R.Session, ivs: Ivs, files: seq<Outgoing>, paths: seq<Path>, cut: seq<Bytes>,
                       more: seq<Bytes>)
    requires Ready(e, r, files, paths) && GoodIvs(ivs) && files != [] && S.ReadsOf(files[0], cut)
    requires r.clientSequence + |cut| + 1 < TWO31
    ensures Id(files[0]) in r.files && |files[0].content| <= r.space
    ensures var next := Completed(r, files[0], 0, |cut| + 1);
      && Fed(e, r, ivs, S.ChunkFrames(files[0], 0, cut) + more)
           == (if |files| == 1 then R.Turned(next, R.Returned(true)) else Fed(e, next, ivs, more))
      && Ready(e, next, files[1..], paths[1..]) && (|files| == 1 ==> next.files == map[])
      && next.disk == r.disk[paths[0] := files[0].content]
  {
    hide Fed, Ready, Midway, S.ChunkFrames;
    ReadyPath(e, r, files, paths);
    ReadyForNext(e, r, files, paths, |cut| + 1);
    assert files[0].content[0..] == files[0].content;
    FileDelivered(e, r, ivs, files[0], 0, cut, more);
  }

  lemma WrittenFirst(disk: map<Path, Bytes>, paths: seq<Path>, files: seq<Outgoing>)
    requires |paths| == |files| && files != []
    ensures disk + Written(paths, files) == disk[paths[0] := files[0].content] + Written(paths[1..], files[1..])
    ensures |files| == 1 ==> disk + Written(paths, files) == disk[paths[0] := files[0].content]
  {
  }

  lemma ReadyPath(e: R.Env, r: R.Session, files: seq<Outgoing>, paths: seq<Path>)
    requires Ready(e, r, files, paths) && files != []
    ensures |paths| == |files| && Id(files[0]) in r.files && r.files[Id(files[0])].path == paths[0]
    ensures TotalSize(files) == |files[0].content| + TotalSize(files[1..]) <= r.space
  {
    hide Listening;
    assert OpenedFor(r, files[0], paths[0]);
  }

  lemma {:induction false} FrameCount(f: Outgoing, offset: nat, chunks: seq<Bytes>)
    ensures |S.ChunkFrames(f, offset, chunks)| == |chunks| + 1
    decreases |chunks|
  {
    hide DataFrame, LastFrame;
    if chunks != [] {
      FrameCount(f, offset + |chunks[0]|, chunks[1..]);
    }
  }

  lemma ReadyReceives(e: R.Env, r: R.Session, files: seq<Outgoing>, paths: seq<Path>)
    requires Ready(e, r, files, paths)
    ensures r.state == R.Receiving
  {
  }

  /** The whole transfer, with polls timing out between the frames and more frames behind them: the run
      returns true, every destination equals its source, nothing else on the disk has changed and the
      receiver has not said a word. */
  lemma FilesDelivered(e: R.Env, r: R.Session, ivs: Ivs, files: seq<Outgoing>, paths: seq<Path>,
                       cuts: seq<seq<Bytes>>, events: seq<R.Event>, more: seq<Bytes>)
    requires Ready(e, r, files, paths) && GoodIvs(ivs) && files != [] && |cuts| == |files|
    requires forall k :: 0 <= k < |files| ==> S.ReadsOf(files[k], cuts[k])
    requires r.clientSequence + |S.AllFrames(files, cuts)| < TWO31
    requires Traffic(events)
    requires Delivered(events) == SealAll(e.p, r.receiveKeys, ivs, r.clientSequence, S.AllFrames(files, cuts)) + more
    ensures R.Run(e, r, events) == R.Turned(Finished(r, files, paths, |S.AllFrames(files, cuts)|), R.Returned(true))
  {
    hide R.Run, Delivered, Traffic, SealAll, Ready, Fed, S.AllFrames, S.ReadsOf, Finished;
    FilesFed(e, r, ivs, files, paths, cuts);
    ReadyReceives(e, r, files, paths);
    RunWithTimeouts(e, r, ivs, S.AllFrames(files, cuts), more, events);
  }
}
