/** What holds over every run of the receiving side: the disk, the counters and the consent gate. */
module ReceiverSafety {
  import opened ByteStrings
  import opened ProtoWire
  import opened Frames
  import opened SecureChannel
  import opened Framing
  import opened Destination
  import opened KeyAgreement
  import opened MapSum
  import opened Receiver

  // ---------------------------------------------------------------- invariants

  ghost function Lengths(buffers: map<int, Bytes>): map<int, int> { map k | k in buffers :: |buffers[k]| }

  /** The memory bound on byte payloads, each and together. */
  ghost predicate BufferInv(s: Session) {
    && s.buffered == Sum(Lengths(s.buffers)) <= MAX_BUFFERED_BYTES
    && forall id :: id in s.buffers ==> |s.buffers[id]| <= MAX_BYTE_PAYLOAD_SIZE
  }

  /** A finished file: where it is and the size that was declared for it. */
  datatype Landed = Landed(path: Path, size: nat)

  ghost function Paths(done: set<Landed>): set<Path> { set d | d in done :: d.path }

  /** Every pending file has its own path, promised to nobody else; the disk is the initial one, the
      finished files at their declared sizes, and at most the destinations now open. */
  ghost predicate DiskInv(disk0: map<Path, Bytes>, done: set<Landed>, s: Session) {
    && PathsInv(disk0, done, s)
    && disk0.Keys + Paths(done) <= s.disk.Keys <= disk0.Keys + Paths(done) + OpenPaths(s)
    && (forall p :: p in disk0 ==> s.disk[p] == disk0[p])
    && (forall d :: d in done ==> |s.disk[d.path]| == d.size)
  }

  ghost predicate PathsInv(disk0: map<Path, Bytes>, done: set<Landed>, s: Session) {
    && (forall i, j :: i in s.files && j in s.files && s.files[i].path == s.files[j].path ==> i == j)
    && (forall i :: i in s.files ==>
          s.files[i].path in s.reserved && s.files[i].path !in disk0 && s.files[i].path !in Paths(done))
    && Paths(done) !! disk0.Keys
  }

  ghost function Remaining(files: map<int, IncomingFile>): map<int, int> {
    map k | k in files :: files[k].size - files[k].received
  }

  /** Between two turns: nothing is open before consent, everything pending is open after it, and the
      bytes received and the bytes still due add up to the total the user agreed to. */
  ghost predicate LiveInv(s: Session) {
    && (forall i :: i in s.files ==> s.files[i].received <= s.files[i].size)
    && (s.state in {PlainHandshake, AwaitPairedEncryption, AwaitPairedResult, AwaitIntroduction} ==> s.files == map[])
    && (s.state == AwaitConsent ==> s.files != map[])
    && (s.state == AwaitConsent ==> forall i :: i in s.files ==> !s.files[i].created && s.files[i].received == 0)
    && (s.state == Receiving ==> forall i :: i in s.files ==>
          s.files[i].created && s.files[i].path in s.disk && |s.disk[s.files[i].path]| == s.files[i].received)
    && (s.state in {AwaitConsent, Receiving} ==> s.received + Sum(Remaining(s.files)) == s.total)
  }

  /** Without the user's consent nothing is open and the disk is untouched. */
  ghost predicate GateInv(granted: bool, disk0: map<Path, Bytes>, s: Session) {
    !granted ==>
      && s.state != Receiving && !(s.state == AwaitConsent && s.consent == 1)
      && s.disk == disk0 && OpenPaths(s) == {}
  }

  /** The user accepts while this session's question is pending. */
  predicate Grants(s: Session, event: Event) { event == Accept && s.state == AwaitConsent && s.consent == 0 }

  /** Files leave the pending map in one way only: finished. */
  ghost function Finished(s: Session, s': Session): set<Landed> {
    set id | id in s.files && id !in s'.files :: Landed(s.files[id].path, s.files[id].size)
  }

  // ---------------------------------------------------------------- sending touches only the wire

  ghost predicate OnlyWire(s: Session, s': Session) {
    s' == s.(serverSequence := s'.serverSequence, drawn := s'.drawn, link := s'.link, outbox := s'.outbox)
  }

  lemma SendsOnlyWire(e: Env, s: Session, offline: Bytes, sharing: Bytes)
    ensures OnlyWire(s, SendOffline(e, s, offline).session)
    ensures OnlyWire(s, SendSharing(e, s, sharing).session)
  {
    hide Seal, Plain, DataFrame, LastFrame;
  }

  // ---------------------------------------------------------------- payload steps

  lemma LengthsSet(buffers: map<int, Bytes>, id: int, b: Bytes)
    ensures Sum(Lengths(buffers[id := b])) == Sum(Lengths(buffers)) - (if id in buffers then |buffers[id]| else 0) + |b|
  {
    assert Lengths(buffers[id := b]) == Lengths(buffers)[id := |b|];
    SumSet(Lengths(buffers), id, |b|);
  }

  lemma LengthsDrop(s: Session, id: int)
    requires BufferInv(s)
    ensures BufferInv(DropBuffer(s, id))
  {
    assert Lengths(s.buffers - {id}) == Lengths(s.buffers) - {id};
    if id in s.buffers {
      SumWithout(Lengths(s.buffers), id);
    } else {
      assert s.buffers - {id} == s.buffers;
    }
  }

  /** Every way out of the reassembly keeps the counter equal to the buffered bytes and under the cap. */
  lemma ReassembleKeeps(s: Session, packet: Packet)
    requires BufferInv(s)
    ensures BufferInv(Reassemble(s, packet).session)
    ensures var r := Reassemble(s, packet).session; r == s.(buffers := r.buffers, buffered := r.buffered)
  {
    hide Sum, Lengths;
    var id := ToInt64(packet.id);
    LengthsDrop(s, id);
    LengthsSet(s.buffers, id, Buffer(s, id) + packet.body);
    var s1 := s.(buffers := s.buffers[id := Buffer(s, id) + packet.body], buffered := s.buffered + |packet.body|);
    if s.buffered <= MAX_BUFFERED_BYTES - |packet.body| && |Buffer(s, id) + packet.body| <= MAX_BYTE_PAYLOAD_SIZE {
      LengthsDrop(s1, id);
    }
  }

  lemma OpenPathsSame(s: Session, t: Session, id: int)
    requires id in s.files && t.files.Keys == s.files.Keys
    requires forall i :: i in s.files ==> s.files[i].path == t.files[i].path && s.files[i].created == t.files[i].created
    ensures OpenPaths(t) == OpenPaths(s)
  {
  }

  lemma OpenPathsWithout(s: Session, t: Session, id: int)
    requires id in s.files && s.files[id].created && t.files == s.files - {id}
    requires forall i, j :: i in s.files && j in s.files && s.files[i].path == s.files[j].path ==> i == j
    ensures OpenPaths(t) == OpenPaths(s) - {s.files[id].path}
  {
    forall p | p in OpenPaths(s) && p != s.files[id].path
      ensures p in OpenPaths(t)
    {
      var i :| i in s.files && s.files[i].created && s.files[i].path == p;
      assert i in t.files;
    }
  }

  ghost predicate SamePlaces(files: map<int, IncomingFile>, files': map<int, IncomingFile>) {
    && files'.Keys == files.Keys
    && forall i :: i in files ==> files[i].path == files'[i].path && files[i].created == files'[i].created
  }

  lemma WriteKeeps(disk0: map<Path, Bytes>, done: set<Landed>, s: Session, t: Session, id: int)
    requires DiskInv(disk0, done, s) && id in s.files && s.files[id].created
    requires SamePlaces(s.files, t.files) && t.reserved == s.reserved
    requires s.files[id].path in t.disk && t.disk == s.disk[s.files[id].path := t.disk[s.files[id].path]]
    ensures DiskInv(disk0, done, t)
  {
    OpenPathsSame(s, t, id);
    assert s.files[id].path in OpenPaths(s);
    assert forall d :: d in done ==> d.path in Paths(done);
  }

  lemma LandingKeeps(disk0: map<Path, Bytes>, done: set<Landed>, s: Session, t: Session, id: int)
    requires DiskInv(disk0, done, s) && id in s.files && s.files[id].created
    requires t.files == s.files - {id} && t.reserved == s.reserved && t.disk == s.disk
    requires s.files[id].path in s.disk && |s.disk[s.files[id].path]| == s.files[id].size
    ensures DiskInv(disk0, done + {Landed(s.files[id].path, s.files[id].size)}, t)
  {
    var f := s.files[id];
    OpenPathsWithout(s, t, id);
    assert f.path in OpenPaths(s);
    assert Paths(done + {Landed(f.path, f.size)}) == Paths(done) + {f.path};
  }

  lemma NothingFinished(done: set<Landed>, s: Session, t: Session)
    requires s.files.Keys <= t.files.Keys
    ensures Finished(s, t) == {} && done + Finished(s, t) == done
  {
  }

  /** A chunk leaves the disk in order whether it is written, refused, cut short or the last one. */
  lemma FileChunkDisk(disk0: map<Path, Bytes>, done: set<Landed>, s: Session, id: int, offset: nat, flags: u64,
                      body: Bytes)
    requires DiskInv(disk0, done, s) && LiveInv(s)
    ensures var r := FileChunk(s, id, offset, flags, body).session; DiskInv(disk0, done + Finished(s, r), r)
  {
    hide DiskInv, Sum, Remaining;
    var t := FileChunk(s, id, offset, flags, body).session;
    if t == s {
      NothingFinished(done, s, t);
    } else {
      var f := s.files[id];
      var written := Write(s, f.path, body);
      WriteKeeps(disk0, done, s, written.session, id);
      if !written.ok {
        NothingFinished(done, s, t);
      } else {
        var credited := Credit(written.session, id, |body|);
        WriteKeeps(disk0, done, s, credited, id);
        if t == credited {
          NothingFinished(done, s, t);
        } else {
          LandingKeeps(disk0, done, credited, t, id);
          assert Finished(s, t) == {Landed(f.path, f.size)};
        }
      }
    }
  }

  lemma FileChunkLive(s: Session, id: int, offset: nat, flags: u64, body: Bytes)
    requires LiveInv(s)
    requires forall i, j :: i in s.files && j in s.files && s.files[i].path == s.files[j].path ==> i == j
    ensures var r := FileChunk(s, id, offset, flags, body); r.ok ==> LiveInv(r.session)
  {
    hide Sum, Remaining;
    var r := FileChunk(s, id, offset, flags, body);
    if r.ok {
      var f := s.files[id];
      var credited := Credit(Write(s, f.path, body).session, id, |body|);
      CreditBalances(s.files, id, |body|);
      assert LiveInv(credited);
      if Last(flags) {
        LandBalances(credited.files, id);
      }
    }
  }

  lemma CreditBalances(files: map<int, IncomingFile>, id: int, count: nat)
    requires id in files
    ensures Sum(Remaining(files[id := files[id].(received := files[id].received + count)]))
         == Sum(Remaining(files)) - count
  {
    var g := files[id].(received := files[id].received + count);
    assert Remaining(files[id := g]) == Remaining(files)[id := g.size - g.received];
    SumSet(Remaining(files), id, g.size - g.received);
  }

  lemma LandBalances(files: map<int, IncomingFile>, id: int)
    requires id in files && files[id].received == files[id].size
    ensures Sum(Remaining(files - {id})) == Sum(Remaining(files))
  {
    assert Remaining(files - {id}) == Remaining(files) - {id};
    SumWithout(Remaining(files), id);
  }

  // ---------------------------------------------------------------- the introduction

  /** While the introduction is read: nothing is open, and `total` is the sum of the sizes so far. */
  ghost predicate Gathering(disk0: map<Path, Bytes>, done: set<Landed>, s: Session, total: int) {
    && DiskInv(disk0, done, s)
    && (forall i :: i in s.files ==> !s.files[i].created && s.files[i].received == 0)
    && Sum(Remaining(s.files)) == total
  }

  lemma NewFileSum(files: map<int, IncomingFile>, id: int, f: IncomingFile)
    requires id !in files && f.received == 0
    ensures Sum(Remaining(files[id := f])) == Sum(Remaining(files)) + f.size
  {
    assert Remaining(files[id := f]) == Remaining(files)[id := f.size];
    SumSet(Remaining(files), id, f.size);
  }

  lemma AddFileKeeps(e: Env, disk0: map<Path, Bytes>, done: set<Landed>, s: Session, total: int,
                     name: string, id: int, size: nat, bytePayload: bool)
    requires Gathering(disk0, done, s, total) && id !in s.files
    ensures Gathering(disk0, done, AddFile(e, s, name, id, size, bytePayload), total + size)
  {
    hide Choose, Sum, Remaining;
    var t := AddFile(e, s, name, id, size, bytePayload);
    NewFileSum(s.files, id, t.files[id]);
    assert t.files[id].path !in s.disk.Keys + s.reserved;
    assert OpenPaths(t) == {} && OpenPaths(s) == {};
    assert PathsInv(disk0, done, t);
  }

  ghost predicate OnlyFiles(s: Session, t: Session) {
    t == s.(files := t.files, reserved := t.reserved) && s.files.Keys <= t.files.Keys
  }

  lemma {:induction false} AddAllKeeps(e: Env, disk0: map<Path, Bytes>, done: set<Landed>, s: Session,
                                       metadata: seq<Bytes>, index: nat, total: nat, text: bool)
    requires index <= |metadata| && Gathering(disk0, done, s, total)
    ensures var r := AddAll(e, s, metadata, index, total, text);
      && OnlyFiles(s, r.session)
      && DiskInv(disk0, done, r.session) && OpenPaths(r.session) == {}
      && (r.ok ==> Gathering(disk0, done, r.session, r.total))
    decreases |metadata| - index
  {
    hide DiskInv, OpenPaths, Gathering, AddFileMetadata, AddTextMetadata;
    NothingOpen(disk0, done, s, total);
    if index < |metadata| {
      var added := if text then AddTextMetadata(e, s, metadata[index], index)
                   else AddFileMetadata(e, s, metadata[index]);
      AddedKeeps(e, disk0, done, s, total, metadata[index], index, text);
      if added.size.Some? {
        NothingOpen(disk0, done, added.session, total + added.size.value);
        if total <= MAX_INT64 - added.size.value {
          AddAllKeeps(e, disk0, done, added.session, metadata, index + 1, total + added.size.value, text);
        }
      }
    }
  }

  lemma AddedKeeps(e: Env, disk0: map<Path, Bytes>, done: set<Landed>, s: Session, total: nat,
                   metadata: Bytes, index: nat, text: bool)
    requires Gathering(disk0, done, s, total)
    ensures var added := if text then AddTextMetadata(e, s, metadata, index) else AddFileMetadata(e, s, metadata);
      && OnlyFiles(s, added.session)
      && if added.size.Some? then Gathering(disk0, done, added.session, total + added.size.value)
         else added.session == s
  {
    hide Gathering, Choose, GetBytes, GetVarint;
    var added := if text then AddTextMetadata(e, s, metadata, index) else AddFileMetadata(e, s, metadata);
    if added.size.Some? {
      var id := ToInt64(if text then GetVarint(metadata, 4).value else GetVarint(metadata, 3).value);
      var name := if text then e.textName(index) else e.utf8(GetBytes(metadata, 1).value);
      AddFileKeeps(e, disk0, done, s, total, name, id, added.size.value, text);
    }
  }

  lemma NothingOpen(disk0: map<Path, Bytes>, done: set<Landed>, s: Session, total: int)
    requires Gathering(disk0, done, s, total)
    ensures DiskInv(disk0, done, s) && OpenPaths(s) == {}
  {
    hide DiskInv;
  }

  /** What a step outside the consent phase keeps; while nothing is being received it does not
      touch the disk, and it never turns a pending question into an accepted one. */
  ghost predicate Kept(disk0: map<Path, Bytes>, done: set<Landed>, s: Session, r: Result) {
    var t := r.session;
    && BufferInv(t)
    && DiskInv(disk0, done + Finished(s, t), t)
    && (r.ok ==> LiveInv(t))
    && (t.state == Receiving <==> s.state == Receiving)
    && (s.state != Receiving ==> t.disk == s.disk && OpenPaths(t) == {})
    && (t.state == AwaitConsent && t.consent == 1 ==> s.state == AwaitConsent && s.consent == 1)
    && (r.ok && t.state == AwaitConsent ==> s.state == AwaitConsent || s.state == AwaitIntroduction)
  }

  lemma WireKeeps(disk0: map<Path, Bytes>, done: set<Landed>, s: Session, r: Result)
    requires BufferInv(s) && DiskInv(disk0, done, s) && LiveInv(s) && OnlyWire(s, r.session)
    ensures Kept(disk0, done, s, r)
  {
    hide Sum, Remaining, Lengths;
    NothingFinished(done, s, r.session);
    SameDisk(disk0, done, s, r.session);
  }

  lemma RefusalKeeps(disk0: map<Path, Bytes>, done: set<Landed>, s: Session, t: Session)
    requires BufferInv(s) && s.state == AwaitIntroduction && OnlyFiles(s, t)
    requires DiskInv(disk0, done, t) && OpenPaths(t) == {}
    ensures Kept(disk0, done, s, Result(t, false))
  {
    hide DiskInv, Sum, OpenPaths;
    NothingFinished(done, s, t);
  }

  lemma AskKeeps(e: Env, disk0: map<Path, Bytes>, done: set<Landed>, s: Session, t: Session, total: nat)
    requires BufferInv(s) && s.state == AwaitIntroduction && OnlyFiles(s, t)
    requires Gathering(disk0, done, t, total) && t.files != map[]
    ensures Kept(disk0, done, s, AskConsent(e, t.(total := total, received := 0)))
  {
    hide Sum, Remaining;
    var r := AskConsent(e, t.(total := total, received := 0));
    NothingFinished(done, s, r.session);
    assert r.session.files == t.files && r.session.disk == t.disk;
    SameDisk(disk0, done, t, r.session);
  }

  lemma SameDisk(disk0: map<Path, Bytes>, done: set<Landed>, s: Session, t: Session)
    requires DiskInv(disk0, done, s) && t.files == s.files && t.disk == s.disk && t.reserved == s.reserved
    ensures DiskInv(disk0, done, t) && OpenPaths(t) == OpenPaths(s)
  {
  }

  lemma IntroductionKeeps(e: Env, disk0: map<Path, Bytes>, done: set<Landed>, s: Session, introduction: Bytes)
    requires BufferInv(s) && DiskInv(disk0, done, s) && LiveInv(s) && s.state == AwaitIntroduction
    ensures Kept(disk0, done, s, Introduction(e, s, introduction))
  {
    hide AddAll, GetAll, Sum, BufferInv, DiskInv, OpenPaths, Kept, AskConsent;
    assert Remaining(s.files) == map[];
    EmptySum(Remaining(s.files));
    AddAllKeeps(e, disk0, done, s, GetAll(introduction, 1), 0, 0, false);
    var files := AddAll(e, s, GetAll(introduction, 1), 0, 0, false);
    if !files.ok {
      RefusalKeeps(disk0, done, s, files.session);
    } else {
      AddAllKeeps(e, disk0, done, files.session, GetAll(introduction, 2), 0, files.total, true);
      var texts := AddAll(e, files.session, GetAll(introduction, 2), 0, files.total, true);
      if !texts.ok || texts.session.files == map[] {
        RefusalKeeps(disk0, done, s, texts.session);
      } else {
        AskKeeps(e, disk0, done, s, texts.session, texts.total);
      }
    }
  }

  lemma EmptySum(m: map<int, int>)
    requires m == map[]
    ensures Sum(m) == 0
  {
  }

  // ---------------------------------------------------------------- frames

  ghost predicate Inv(disk0: map<Path, Bytes>, done: set<Landed>, s: Session) {
    BufferInv(s) && DiskInv(disk0, done, s) && LiveInv(s)
  }

  /** Kept composes with a change of the wire state before it and a change of the handshake states after it. */
  lemma ThenState(disk0: map<Path, Bytes>, done: set<Landed>, s: Session, r: Result, next: State)
    requires Inv(disk0, done, s) && OnlyWire(s, r.session) && s.files == map[]
    requires next in {AwaitPairedEncryption, AwaitPairedResult, AwaitIntroduction}
    requires s.state in {PlainHandshake, AwaitPairedEncryption, AwaitPairedResult}
    ensures Kept(disk0, done, s, Result(r.session.(state := next), r.ok))
  {
    hide Sum, Lengths;
    var t := r.session.(state := next);
    NothingFinished(done, s, t);
    SameDisk(disk0, done, s, t);
    assert Remaining(t.files) == Remaining(s.files);
  }

  lemma SharingFrameKeeps(e: Env, disk0: map<Path, Bytes>, done: set<Landed>, s: Session, frame: Bytes)
    requires Inv(disk0, done, s)
    ensures Kept(disk0, done, s, SharingFrame(e, s, frame))
  {
    hide SendSharing, BufferInv, DiskInv, Kept, Introduction;
    SendsOnlyWire(e, s, [], PairedKeyResult());
    WireKeeps(disk0, done, s, Result(s, true));
    WireKeeps(disk0, done, s, Result(s, false));
    WireKeeps(disk0, done, s, SendSharing(e, s, PairedKeyResult()));
    if s.state == AwaitPairedEncryption {
      ThenState(disk0, done, s, SendSharing(e, s, PairedKeyResult()), AwaitPairedResult);
    } else if s.state == AwaitPairedResult {
      ThenState(disk0, done, s, Result(s, true), AwaitIntroduction);
    } else if s.state == AwaitIntroduction {
      var sharing := ParseSharing(frame);
      if sharing.Some? {
        var introduction := GetBytes(sharing.value.v1, 2);
        if introduction.Some? {
          IntroductionKeeps(e, disk0, done, s, introduction.value);
        }
      }
    }
  }

  lemma FileChunkKeeps(disk0: map<Path, Bytes>, done: set<Landed>, s: Session, id: int, offset: nat, flags: u64,
                       body: Bytes)
    requires Inv(disk0, done, s)
    ensures Kept(disk0, done, s, FileChunk(s, id, offset, flags, body))
  {
    hide Sum, DiskInv, Lengths;
    assert PathsInv(disk0, done, s) by {
      DiskPaths(disk0, done, s);
    }
    FileChunkDisk(disk0, done, s, id, offset, flags, body);
    FileChunkLive(s, id, offset, flags, body);
    if s.state != Receiving {
      assert OpenPaths(s) == {};
    }
  }

  lemma DiskPaths(disk0: map<Path, Bytes>, done: set<Landed>, s: Session)
    requires DiskInv(disk0, done, s)
    ensures PathsInv(disk0, done, s)
  {
  }

  /** A step that first changes only the buffers, or only counts a message. */
  lemma AfterBuffers(disk0: map<Path, Bytes>, done: set<Landed>, s: Session, s1: Session, r: Result)
    requires Inv(disk0, done, s) && Inv(disk0, done, s1) && Kept(disk0, done, s1, r)
    requires s1 == s.(buffers := s1.buffers, buffered := s1.buffered, clientSequence := s1.clientSequence)
    ensures Kept(disk0, done, s, r)
  {
    hide BufferInv, DiskInv, LiveInv;
    assert Finished(s, r.session) == Finished(s1, r.session);
  }

  lemma BuffersInv(disk0: map<Path, Bytes>, done: set<Landed>, s: Session, s1: Session)
    requires Inv(disk0, done, s) && BufferInv(s1)
    requires s1 == s.(buffers := s1.buffers, buffered := s1.buffered, clientSequence := s1.clientSequence)
    ensures Inv(disk0, done, s1)
  {
    hide Sum, Remaining, Lengths;
    SameDisk(disk0, done, s, s1);
  }

  lemma TakePacketKeeps(e: Env, disk0: map<Path, Bytes>, done: set<Landed>, s: Session, packet: Packet)
    requires Inv(disk0, done, s)
    ensures Kept(disk0, done, s, TakePacket(e, s, packet))
  {
    hide Inv, Kept, FileChunk, SharingFrame, Reassemble, OnlyWire;
    var id := ToInt64(packet.id);
    InvRefl(disk0, done, s);
    if packet.offset <= MAX_INT64 {
      if packet.kind == FILE_PAYLOAD {
        FileChunkKeeps(disk0, done, s, id, packet.offset, packet.flags, packet.body);
      } else if packet.kind == BYTES_PAYLOAD {
        var re := Reassemble(s, packet);
        InvBuffers(disk0, done, s);
        ReassembleKeeps(s, packet);
        BuffersInv(disk0, done, s, re.session);
        InvRefl(disk0, done, re.session);
        var r := BytePayload(e, s, packet);
        if re.Complete? {
          FileChunkKeeps(disk0, done, re.session, id, 0, 1, re.payload);
          SharingFrameKeeps(e, disk0, done, re.session, re.payload);
        }
        AfterBuffers(disk0, done, s, re.session, r);
      }
    }
  }

  lemma InvBuffers(disk0: map<Path, Bytes>, done: set<Landed>, s: Session)
    requires Inv(disk0, done, s)
    ensures BufferInv(s)
  {
  }

  lemma InvRefl(disk0: map<Path, Bytes>, done: set<Landed>, s: Session)
    requires Inv(disk0, done, s)
    ensures Kept(disk0, done, s, Result(s, true)) && Kept(disk0, done, s, Result(s, false))
  {
    hide BufferInv, DiskInv, LiveInv;
    WireKeeps(disk0, done, s, Result(s, true));
    WireKeeps(disk0, done, s, Result(s, false));
  }

  lemma EncryptedFrameKeeps(e: Env, disk0: map<Path, Bytes>, done: set<Landed>, s: Session, secure: Bytes)
    requires Inv(disk0, done, s)
    ensures Kept(disk0, done, s, EncryptedFrame(e, s, secure))
  {
    hide Inv, Kept, TakePacket, Open, SendOffline, BufferInv, DiskInv, LiveInv, Verified, Decrypted, ParseOffline,
         ParsePacket;
    var s1 := Counted(e, s, secure);
    InvBuffers(disk0, done, s);
    SameBuffers(s, s1);
    BuffersInv(disk0, done, s, s1);
    InvRefl(disk0, done, s1);
    SendsOnlyWire(e, s1, KeepAliveAck(), []);
    SendKeeps(e, disk0, done, s1);
    var r := EncryptedFrame(e, s, secure);
    var offline := Open(e.p, s.receiveKeys, s.clientSequence, secure);
    if offline.Some? {
      var parsed := ParseOffline(offline.value);
      if parsed.TransferOf? && parsed.transfer.Some? && ParsePacket(parsed.transfer.value).Some? {
        TakePacketKeeps(e, disk0, done, s1, ParsePacket(parsed.transfer.value).value);
      }
    }
    AfterBuffers(disk0, done, s, s1, r);
  }

  lemma SendKeeps(e: Env, disk0: map<Path, Bytes>, done: set<Landed>, s: Session)
    requires Inv(disk0, done, s)
    ensures Kept(disk0, done, s, SendOffline(e, s, KeepAliveAck()))
  {
    hide BufferInv, DiskInv, LiveInv, SendOffline, Kept;
    SendsOnlyWire(e, s, KeepAliveAck(), []);
    WireKeeps(disk0, done, s, SendOffline(e, s, KeepAliveAck()));
  }

  lemma SameBuffers(s: Session, t: Session)
    requires BufferInv(s) && t.buffers == s.buffers && t.buffered == s.buffered
    ensures BufferInv(t)
  {
  }

  ghost predicate OnlyHandshake(s: Session, t: Session) {
    && t == s.(state := t.state, stage := t.stage, clientInit := t.clientInit, serverInit := t.serverInit,
               commitment := t.commitment, pin := t.pin, receiveKeys := t.receiveKeys, sendKeys := t.sendKeys,
               serverSequence := t.serverSequence, drawn := t.drawn, link := t.link, outbox := t.outbox)
    && t.state in {PlainHandshake, AwaitPairedEncryption}
  }

  lemma HandshakeShape(e: Env, s: Session, frame: Bytes)
    requires s.state == PlainHandshake
    ensures OnlyHandshake(s, Handshake(e, s, frame).session)
  {
    hide SendSharing, Versioned, ParseClientInit, ParseClientFinish, Agree, ParsePublic, ClientResponseValid,
         ConnectionRequestValid, ServerInit, ConnectionResponse;
    if s.stage > 2 {
      var sent := SendFrame(s.(stage := s.stage + 1), ConnectionResponse());
      SendsOnlyWire(e, sent.session.(state := AwaitPairedEncryption), [], PairedKeyEncryption(e.pairedData,
                    e.pairedHash));
    }
  }

  lemma HandshakeKeeps(e: Env, disk0: map<Path, Bytes>, done: set<Landed>, s: Session, frame: Bytes)
    requires Inv(disk0, done, s) && s.state == PlainHandshake
    ensures Kept(disk0, done, s, Handshake(e, s, frame))
  {
    hide Sum, Lengths, DiskInv, Handshake;
    HandshakeShape(e, s, frame);
    var t := Handshake(e, s, frame).session;
    NothingFinished(done, s, t);
    SameDisk(disk0, done, s, t);
  }

  // ---------------------------------------------------------------- the consent phase

  /** While the destinations are being created: those not yet reached in `ids` are still closed. */
  ghost predicate Opening(disk0: map<Path, Bytes>, done: set<Landed>, s: Session, ids: seq<int>) {
    && DiskInv(disk0, done, s)
    && (forall i, j :: 0 <= i < j < |ids| ==> ids[i] != ids[j])
    && (forall i :: i in ids ==> i in s.files && !s.files[i].created)
    && (forall i :: i in s.files ==> s.files[i].received == 0)
    && (forall i :: i in s.files && i !in ids ==>
          s.files[i].created && s.files[i].path in s.disk && s.disk[s.files[i].path] == [])
  }

  function MarkCreated(s: Session, id: int): Session
    requires id in s.files
  {
    s.(files := s.files[id := s.files[id].(created := true)])
  }

  lemma MarkKeeps(disk0: map<Path, Bytes>, done: set<Landed>, s: Session, id: int)
    requires DiskInv(disk0, done, s) && id in s.files && !s.files[id].created
    ensures DiskInv(disk0, done, MarkCreated(s, id))
  {
    var t := MarkCreated(s, id);
    forall p | p in OpenPaths(s)
      ensures p in OpenPaths(t)
    {
      var i :| i in s.files && s.files[i].created && s.files[i].path == p;
      assert i in t.files && t.files[i].created && t.files[i].path == p;
    }
  }

  lemma OpenOne(disk0: map<Path, Bytes>, done: set<Landed>, s: Session, ids: seq<int>)
    requires Opening(disk0, done, s, ids) && ids != [] && ids[0] in s.files
    ensures var f, s1 := s.files[ids[0]], MarkCreated(s, ids[0]);
      && DiskInv(disk0, done, s1)
      && Opening(disk0, done, s1.(disk := s1.disk[f.path := []]), ids[1..])
  {
    hide DiskInv, OpenPaths;
    var f, s1 := s.files[ids[0]], MarkCreated(s, ids[0]);
    assert ids[0] in ids;
    MarkKeeps(disk0, done, s, ids[0]);
    var s2 := s1.(disk := s1.disk[f.path := []]);
    WriteKeeps(disk0, done, s1, s2, ids[0]);
    DiskPaths(disk0, done, s);
    assert forall i :: i in ids <==> i == ids[0] || i in ids[1..];
    assert ids[0] !in ids[1..];
  }

  ghost predicate SameFiles(s: Session, t: Session) {
    && t.files.Keys == s.files.Keys
    && forall id :: id in s.files ==> t.files[id].path == s.files[id].path && t.files[id].size == s.files[id].size
  }

  lemma {:induction false} OpenFilesKeeps(e: Env, disk0: map<Path, Bytes>, done: set<Landed>, s: Session, ids: seq<int>)
    requires Opening(disk0, done, s, ids)
    ensures var r := OpenFiles(e, s, ids);
      && DiskInv(disk0, done, r.session)
      && r.session == s.(files := r.session.files, disk := r.session.disk)
      && SameFiles(s, r.session)
      && (r.ok ==> Opening(disk0, done, r.session, []) && Remaining(r.session.files) == Remaining(s.files))
    decreases |ids|
  {
    hide DiskInv;
    if ids != [] {
      var id := ids[0];
      assert id in ids;
      assert id in s.files;
      OpenOne(disk0, done, s, ids);
      var f, s1 := s.files[ids[0]], MarkCreated(s, ids[0]);
      assert Remaining(s1.files) == Remaining(s.files);
      if f.path !in e.unopenable {
        OpenFilesKeeps(e, disk0, done, s1.(disk := s1.disk[f.path := []]), ids[1..]);
      }
    }
  }

  lemma OpenedKeeps(disk0: map<Path, Bytes>, done: set<Landed>, s: Session, r: Result)
    requires Inv(disk0, done, s) && s.state == AwaitConsent
    requires r.session == s.(files := r.session.files, disk := r.session.disk)
    requires Opening(disk0, done, r.session, []) && Remaining(r.session.files) == Remaining(s.files)
    ensures Inv(disk0, done, r.session.(state := Receiving, consent := -1))
  {
    hide Sum, Remaining, Lengths;
    var t := r.session.(state := Receiving, consent := -1);
    SameDisk(disk0, done, r.session, t);
  }

  lemma OpeningStart(e: Env, disk0: map<Path, Bytes>, done: set<Landed>, s: Session)
    requires GoodEnv(e) && Inv(disk0, done, s) && s.state == AwaitConsent
    ensures Opening(disk0, done, s, e.order(s.files.Keys))
  {
    hide DiskInv, BufferInv;
    assert IsOrder(e.order(s.files.Keys), s.files.Keys);
  }

  lemma WireInv(disk0: map<Path, Bytes>, done: set<Landed>, s: Session, t: Session)
    requires Inv(disk0, done, s) && OnlyWire(s, t)
    ensures Inv(disk0, done, t)
  {
    hide Sum, Remaining, Lengths;
    SameDisk(disk0, done, s, t);
  }

  /** What one event keeps, whether or not the run ends with it. */
  ghost predicate TurnKept(disk0: map<Path, Bytes>, done: set<Landed>, s: Session, t: Turned) {
    && BufferInv(t.session) && DiskInv(disk0, done + Finished(s, t.session), t.session)
    && (t.outcome == Running ==> LiveInv(t.session))
  }

  lemma AcceptedKeeps(e: Env, disk0: map<Path, Bytes>, done: set<Landed>, s: Session)
    requires GoodEnv(e) && Inv(disk0, done, s) && s.state == AwaitConsent && s.consent == 1
    ensures var t := ConsentPhase(e, s, false);
      && DiskInv(disk0, done, t.session) && BufferInv(t.session) && SameFiles(s, t.session)
      && (t.outcome == Running ==> LiveInv(t.session))
  {
    hide OpenFiles, SendSharing, Sum, Remaining, DiskInv, Lengths, Opening;
    OpeningStart(e, disk0, done, s);
    OpenFilesKeeps(e, disk0, done, s, e.order(s.files.Keys));
    var openings := OpenFiles(e, s, e.order(s.files.Keys));
    if !openings.ok {
      SameDisk(disk0, done, openings.session, openings.session.(consent := -1));
    } else {
      SendsOnlyWire(e, openings.session, [], IntroductionResponse(true));
      var sent := SendSharing(e, openings.session, IntroductionResponse(true));
      SameDisk(disk0, done, openings.session, sent.session.(consent := -1));
      OpenedKeeps(disk0, done, s, openings);
      WireInv(disk0, done, openings.session.(state := Receiving, consent := -1),
              sent.session.(state := Receiving, consent := -1));
    }
  }

  lemma ConsentKeeps(e: Env, disk0: map<Path, Bytes>, done: set<Landed>, s: Session, elapsed: bool)
    requires GoodEnv(e) && Inv(disk0, done, s)
    ensures var t := ConsentPhase(e, s, elapsed); TurnKept(disk0, done, s, t) && SameFiles(s, t.session)
  {
    hide SendSharing, OpenFiles, Sum, Remaining, DiskInv, Lengths;
    var t := ConsentPhase(e, s, elapsed);
    if s.state == AwaitConsent && s.consent == 1 {
      AcceptedKeeps(e, disk0, done, s);
    } else {
      SendsOnlyWire(e, s, [], IntroductionResponse(false));
      SameDisk(disk0, done, s, t.session);
    }
    NothingFinished(done, s, t.session);
  }

  lemma StepKeeps(e: Env, disk0: map<Path, Bytes>, done: set<Landed>, s: Session, event: Event)
    requires GoodEnv(e) && Inv(disk0, done, s)
    ensures TurnKept(disk0, done, s, Step(e, s, event))
  {
    hide ConsentPhase, EncryptedFrame, Handshake, BufferInv, DiskInv, LiveInv, GoodEnv;
    var t := Step(e, s, event);
    match event
    case Accept => AnswerKeeps(disk0, done, s, t.session);
    case Reject => AnswerKeeps(disk0, done, s, t.session);
    case Turn(elapsed, input) =>
      InvRefl(disk0, done, s);
      if s.state == PlainHandshake {
        if input.Arrived? {
          HandshakeKeeps(e, disk0, done, s, input.frame);
        }
      } else {
        ConsentKeeps(e, disk0, done, s, elapsed);
        var asked := ConsentPhase(e, s, elapsed);
        if asked.outcome == Running {
          assert Finished(s, asked.session) == {} && done + {} == done;
          InvRefl(disk0, done, asked.session);
          if input.Arrived? {
            EncryptedFrameKeeps(e, disk0, done, asked.session, input.frame);
          }
          SameFinished(s, asked.session, t.session);
        }
      }
  }

  lemma SameFinished(s: Session, mid: Session, t: Session)
    requires SameFiles(s, mid)
    ensures Finished(s, t) == Finished(mid, t)
  {
  }

  lemma AnswerKeeps(disk0: map<Path, Bytes>, done: set<Landed>, s: Session, t: Session)
    requires Inv(disk0, done, s) && t == s.(consent := t.consent)
    ensures TurnKept(disk0, done, s, Turned(t, Running))
  {
    hide Sum, Remaining, Lengths;
    NothingFinished(done, s, t);
    SameDisk(disk0, done, s, t);
  }
}
