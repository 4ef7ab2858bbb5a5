/** How a turn of the receiver's loop ends, whatever arrives: stated on the frames. */
module ReceiverOutcomes {
  import opened ByteStrings
  import opened ProtoWire
  import opened Crypto
  import opened Destination
  import opened Framing
  import opened Frames
  import opened FrameReading
  import opened HandshakeFrames
  import opened SecureChannel
  import opened Receiver
  import Exchange

  // ---------------------------------------------------------------- silence and the end of the stream

  /** No answer of the user and no timeout of the question is due. */
  ghost predicate Undecided(s: Session, elapsed: bool) {
    s.state != AwaitConsent || (s.consent == 0 && !elapsed)
  }

  /** A poll that times out ends a run only when files have been silent too long. The end of the stream, or a
      frame of a refused size, always ends it: with success exactly if no file is missing. */
  lemma NoFrameOutcome(e: Env, s: Session, elapsed: bool, tooLong: bool, frame: Bytes)
    requires Undecided(s, elapsed) && !(0 < |frame| <= 5 * 1024 * 1024)
    ensures Step(e, s, Turn(elapsed, Silence(tooLong)))
         == Turned(s, if s.state == Receiving && tooLong then Returned(false) else Running)
    ensures Step(e, s, Turn(elapsed, Closed)) == Turned(s, Returned(s.state == Receiving && s.files == map[]))
    ensures Step(e, s, Turn(elapsed, Arrived(frame))) == Step(e, s, Turn(elapsed, Closed))
  {
    hide SendSharing, OpenFiles, EncryptedFrame, Handshake;
  }

  // ---------------------------------------------------------------- sealed frames

  /** An acknowledgement of a keep-alive: kind 5, with the acknowledging flag. */
  ghost predicate Acknowledges(offline: Bytes) {
    VarintIn(offline, [2], 1) == Some(5) && VarintIn(offline, [2, 6], 1) == Some(1)
  }

  lemma AckMeaning()
    ensures Acknowledges(KeepAliveAck())
  {
    hide Encode, GetBytes, GetVarint, V1, Versioned;
    SmallSize([V(1, 1)]);
    VarintAt([V(1, 1)], 1, 0);
    VersionedFrame(5, 6, Encode([V(1, 1)]));
    FieldPaths(KeepAliveAck(), 2, 6, 0);
  }

  /** A keep-alive is answered under the next number, or the run ends. */
  ghost predicate Acked(e: Env, s: Session, t: Turned) {
    var n := s.serverSequence + 1;
    t.outcome == Returned(false) ||
    exists ack :: Acknowledges(ack) && t.session.outbox == s.outbox + [Seal(e.p, s.sendKeys, e.ivs(n), n, ack)]
  }

  lemma NothingDue(e: Env, s: Session, elapsed: bool)
    requires Undecided(s, elapsed)
    ensures ConsentPhase(e, s, elapsed) == Turned(s, Running)
  {
  }

  lemma AckSent(e: Env, s: Session, s1: Session)
    requires s1 == s.(clientSequence := s1.clientSequence)
    ensures var r := SendOffline(e, s1, KeepAliveAck());
      Acked(e, s, Exchange.Ended(r))
  {
    hide KeepAliveAck, Seal, AesEncrypt, Plain, Acknowledges;
    AckMeaning();
  }

  /** What a frame that opens does, by the kind of the offline frame inside: none or a disconnection ends the
      run, a keep-alive is answered, a transfer is taken by its packet, anything else is passed over. */
  lemma FrameOutcome(e: Env, s: Session, elapsed: bool, frame: Bytes, offline: Bytes)
    requires s.state != PlainHandshake && Undecided(s, elapsed) && Acceptable(frame)
    requires Open(e.p, s.receiveKeys, s.clientSequence, frame) == Some(offline)
    ensures var t, s1 := Step(e, s, Turn(elapsed, Arrived(frame))), s.(clientSequence := s.clientSequence + 1);
      var kind, transfer := VarintIn(offline, [2], 1), Inner(offline, [2, 4]);
      && (kind == None || kind == Some(6) ==> t == Turned(s1, Returned(false)))
      && (kind == Some(5) ==> Acked(e, s, t))
      && (kind.Some? && kind.value !in {3, 5, 6} ==> t == Turned(s1, if Done(s1) then Returned(true) else Running))
      && (kind == Some(3) && transfer == None ==> t == Turned(s1, Returned(false)))
      && (kind == Some(3) && transfer.Some? && (forall p :: !Carries(transfer.value, p)) ==>
            t == Turned(s1, Returned(false)))
      && (forall p :: kind == Some(3) && transfer.Some? && Carries(transfer.value, p) ==>
            var r := TakePacket(e, s1, p);
            t == Exchange.Ended(r))
  {
    hide Verified, Decrypted, TakePacket, ParsePacket, ParseOffline, Carries, Inner, KeepAliveAck, Acknowledges,
         ConsentPhase, SendOffline, Acked;
    OfflineMeaning(offline);
    NothingDue(e, s, elapsed);
    AckSent(e, s, s.(clientSequence := s.clientSequence + 1));
    var transfer := Inner(offline, [2, 4]);
    if transfer.Some? {
      var parsed := ParsePacket(transfer.value);
      if parsed.Some? {
        PacketMeaning(transfer.value, parsed.value);
      }
      forall p | Carries(transfer.value, p)
        ensures parsed == Some(p)
      {
        PacketMeaning(transfer.value, p);
      }
    }
  }

  /** A packet of a file or of bytes with an offset of 63 bits; any other is refused as it is. */
  lemma OtherPackets(e: Env, s: Session, p: Packet)
    requires p.offset >= TWO63 || p.kind !in {1, 2}
    ensures TakePacket(e, s, p) == Result(s, false)
  {
    hide FileChunk, BytePayload;
  }

  // ---------------------------------------------------------------- byte payloads

  /** What has been collected for the packet's payload. */
  function Collected(s: Session, p: Packet): Bytes {
    if ToInt64(p.id) in s.buffers then s.buffers[ToInt64(p.id)] else []
  }

  /** The packet goes on where the buffer ends, within its payload and within the memory, and if it is marked
      last it ends the payload. */
  ghost predicate Fits(s: Session, p: Packet) {
    && p.total <= 5 * 1024 * 1024 && p.offset == |Collected(s, p)| && p.offset + |p.body| <= p.total
    && s.buffered + |p.body| <= 8 * 1024 * 1024 && (p.flags % 2 == 1 ==> p.offset + |p.body| == p.total)
  }

  /** A packet of bytes that does not fit is refused and touches neither files nor disk. One that fits is kept,
      and the last hands the payload over: to an announced text of this identifier, all of it at once, and
      everything else to the sharing frames. */
  lemma BytesOutcome(e: Env, s: Session, p: Packet)
    requires p.kind == 1 && p.offset < TWO63
    ensures var r, id, payload := TakePacket(e, s, p), ToInt64(p.id), Collected(s, p) + p.body;
      var without := s.(buffers := s.buffers - {id}, buffered := s.buffered - |Collected(s, p)|);
      && (!Fits(s, p) ==> !r.ok && r.session == s.(buffers := r.session.buffers, buffered := r.session.buffered))
      && (Fits(s, p) && p.flags % 2 == 0 ==>
            r == Result(s.(buffers := s.buffers[id := payload], buffered := s.buffered + |p.body|), true))
      && (Fits(s, p) && p.flags % 2 == 1 ==>
            if s.state == Receiving && id in s.files && s.files[id].bytePayload
            then r == FileChunk(without, id, 0, 1, payload)
            else r == SharingFrame(e, without, payload))
  {
    hide FileChunk, SharingFrame;
    var id := ToInt64(p.id);
    assert s.buffers[id := Collected(s, p) + p.body] - {id} == s.buffers - {id};
  }

  // ---------------------------------------------------------------- sharing frames

  /** The kind awaited in each state before the question, and the field it must have. */
  function Awaited(state: State): Option<(u64, int)> {
    match state
    case AwaitPairedEncryption => Some((3, 4))
    case AwaitPairedResult => Some((4, 5))
    case AwaitIntroduction => Some((1, 2))
    case _ => None
  }

  /** The awaited frame without its field. */
  ghost predicate Lacks(state: State, frame: Bytes) {
    && Awaited(state).Some? && VarintIn(frame, [2], 1) == Some(Awaited(state).value.0)
    && Inner(frame, [2, Awaited(state).value.1]) == None
  }

  /** A sharing frame without a kind, or a cancellation, kind 6, ends the run in every state; so does the
      awaited one without its field. One that is not awaited is passed over. */
  lemma SharingOutcome(e: Env, s: Session, frame: Bytes)
    ensures var r, kind := SharingFrame(e, s, frame), VarintIn(frame, [2], 1);
      && (kind == None || kind == Some(6) ==> r == Result(s, false))
      && (kind.Some? && kind.value != 6 && (Awaited(s.state).None? || Awaited(s.state).value.0 != kind.value) ==>
            r == Result(s, true))
      && (Lacks(s.state, frame) ==> r == Result(s, false))
  {
    hide GetBytes, GetVarint, Inner, SendSharing, Introduction, PairedKeyResult;
    FieldPaths(frame, 2, 4, 0);
    FieldPaths(frame, 2, 5, 0);
    FieldPaths(frame, 2, 2, 0);
  }

  // ---------------------------------------------------------------- the introduction

  /** What one entry announces. */
  datatype Listing = Listing(id: int, size: nat, text: bool)

  function FileItem(entry: Bytes): Option<Listing> {
    var id, size := GetVarint(entry, 3), GetVarint(entry, 4);
    if GetBytes(entry, 1).Some? && id.Some? && size.Some? then Some(Listing(ToInt64(id.value), size.value, false))
    else None
  }

  function TextItem(entry: Bytes): Option<Listing> {
    var id, size := GetVarint(entry, 4), GetVarint(entry, 5);
    if id.Some? && size.Some? then Some(Listing(ToInt64(id.value), size.value, true)) else None
  }

  function ItemOf(entry: Bytes, text: bool): Option<Listing> { if text then TextItem(entry) else FileItem(entry) }

  function Items(entries: seq<Bytes>, text: bool): (r: seq<Option<Listing>>)
    ensures |r| == |entries|
    ensures forall i :: 0 <= i < |r| ==> r[i] == ItemOf(entries[i], text)
  {
    seq(|entries|, i requires 0 <= i < |entries| => ItemOf(entries[i], text))
  }

  function SizeSum(items: seq<Option<Listing>>): nat {
    if items == [] then 0 else (if items[0].Some? then items[0].value.size else 0) + SizeSum(items[1..])
  }

  /** Entries that can be listed beside those known: all readable, every identifier new and different, no text
      above five mebibytes, and no overflow of the total. */
  ghost predicate Listable(items: seq<Option<Listing>>, known: set<int>, total: nat) {
    && (forall i :: 0 <= i < |items| ==> items[i].Some? && items[i].value.id !in known)
    && (forall i, j :: 0 <= i < j < |items| ==> items[i].value.id != items[j].value.id)
    && (forall i :: 0 <= i < |items| && items[i].value.text ==> items[i].value.size <= 5 * 1024 * 1024)
    && total + SizeSum(items) <= MAX_INT64
  }

  /** The files listed afterwards: the ones before, and the items with their sizes, closed and empty. */
  ghost predicate Lists(s: Session, t: Session, items: seq<Option<Listing>>) {
    && t.files.Keys == s.files.Keys + IdsOf(items)
    && (forall id :: id in s.files && id !in IdsOf(items) ==> t.files[id] == s.files[id])
    && (forall i :: 0 <= i < |items| && items[i].Some? ==> ListedAs(t, items[i].value))
  }

  ghost function IdsOf(items: seq<Option<Listing>>): set<int> {
    set i | 0 <= i < |items| && items[i].Some? :: items[i].value.id
  }

  ghost predicate ListedAs(t: Session, item: Listing) {
    && item.id in t.files
    && var f := t.files[item.id];
       f.size == item.size && f.bytePayload == item.text && f.received == 0 && !f.created
  }

  lemma AddMeaning(e: Env, s: Session, entry: Bytes, index: nat, text: bool)
    ensures var added := if text then AddTextMetadata(e, s, entry, index) else AddFileMetadata(e, s, entry);
      var item := ItemOf(entry, text);
      if item.Some? && item.value.id !in s.files
         && item.value.size <= (if text then 5 * 1024 * 1024 else MAX_INT64)
      then
        && added.size == Some(item.value.size) && Lists(s, added.session, [item])
        && OnlyFiles(s, added.session)
      else added == Added(s, None)
  {
    hide GetBytes, GetVarint, Choose;
    var item := ItemOf(entry, text);
    OneId(item);
    if item.Some? {
      assert [item][0] == item;
    }
  }

  lemma OneId(item: Option<Listing>)
    ensures IdsOf([item]) == if item.Some? then {item.value.id} else {}
  {
    var one := [item];
    assert one[0] == item && |one| == 1;
  }

  lemma FirstItem(first: Option<Listing>, rest: seq<Option<Listing>>, known: set<int>, total: nat)
    requires first.Some?
    ensures SizeSum([first] + rest) == first.value.size + SizeSum(rest)
    ensures IdsOf([first] + rest) == {first.value.id} + IdsOf(rest)
    ensures Listable([first] + rest, known, total) <==>
      && first.value.id !in known && (first.value.text ==> first.value.size <= 5 * 1024 * 1024)
      && Listable(rest, known + {first.value.id}, total + first.value.size)
  {
    hide Listable, IdsOf, SizeSum;
    ListableSplit([first], rest, known, total);
    SumAppend([first], rest);
    IdsAppend([first], rest);
    OneId(first);
    OneSize(first);
    OneListable(first, known, total);
    SizeOfList(rest, known + {first.value.id}, total + first.value.size);
  }

  lemma OneSize(item: Option<Listing>)
    ensures SizeSum([item]) == if item.Some? then item.value.size else 0
  {
    assert [item][1..] == [] && SizeSum([]) == 0;
  }

  lemma OneListable(item: Option<Listing>, known: set<int>, total: nat)
    requires item.Some?
    ensures Listable([item], known, total) <==>
      && item.value.id !in known && (item.value.text ==> item.value.size <= 5 * 1024 * 1024)
      && total + item.value.size <= MAX_INT64
  {
    OneSize(item);
    assert [item][0] == item;
  }

  lemma ListsBoth(s: Session, t: Session, u: Session, first: Option<Listing>, rest: seq<Option<Listing>>)
    requires first.Some? && Lists(s, t, [first]) && Lists(t, u, rest)
    requires forall i :: 0 <= i < |rest| ==> rest[i].Some? && rest[i].value.id != first.value.id
    ensures Lists(s, u, [first] + rest)
  {
    var all := [first] + rest;
    FirstItem(first, rest, {}, 0);
    OneId(first);
    assert [first][0] == first && ListedAs(t, first.value);
    assert first.value.id !in IdsOf(rest);
    forall i | 0 <= i < |all| && all[i].Some?
      ensures ListedAs(u, all[i].value)
    {
      if i > 0 {
        assert all[i] == rest[i - 1];
      }
    }
  }

  lemma {:induction false} AddAllMeaning(e: Env, s: Session, entries: seq<Bytes>, index: nat, total: nat, text: bool)
    requires index <= |entries| && total <= MAX_INT64
    ensures var r, items := AddAll(e, s, entries, index, total, text), Items(entries, text)[index..];
      && (r.ok <==> Listable(items, s.files.Keys, total))
      && (r.ok ==> r.total == total + SizeSum(items) && Lists(s, r.session, items) && OnlyFiles(s, r.session))
    decreases |entries| - index
  {
    hide AddTextMetadata, AddFileMetadata, ItemOf, Listable, Lists;
    var items := Items(entries, text)[index..];
    if index == |entries| {
      assert items == [];
      NoItems(s, total);
    } else {
      var first, rest := items[0], items[1..];
      assert items == [first] + rest && rest == Items(entries, text)[index + 1..];
      AddMeaning(e, s, entries[index], index, text);
      var added := if text then AddTextMetadata(e, s, entries[index], index) else AddFileMetadata(e, s, entries[index]);
      if first.Some? {
        ItemKind(entries[index], text);
        FirstItem(first, rest, s.files.Keys, total);
        FitsTotal(rest, s.files.Keys + {first.value.id}, total + first.value.size);
        if added.size.Some? {
          ListsOne(s, added.session, first);
          if total + first.value.size <= MAX_INT64 {
            AddAllMeaning(e, added.session, entries, index + 1, total + first.value.size, text);
            if Listable(rest, added.session.files.Keys, total + first.value.size) {
              OthersDiffer(rest, added.session.files.Keys, total + first.value.size, first.value.id);
              ListsBoth(s, added.session, AddAll(e, s, entries, index, total, text).session, first, rest);
            }
          }
        }
      } else {
        Unreadable(items, s.files.Keys, total);
      }
    }
  }

  lemma NoItems(s: Session, total: nat)
    requires total <= MAX_INT64
    ensures Listable([], s.files.Keys, total) && Lists(s, s, []) && SizeSum([]) == 0
  {
    var none: seq<Option<Listing>> := [];
    assert IdsOf(none) == {};
  }

  lemma ItemKind(entry: Bytes, text: bool)
    ensures ItemOf(entry, text).Some? ==> ItemOf(entry, text).value.text == text
  {
  }

  lemma FitsTotal(items: seq<Option<Listing>>, known: set<int>, total: nat)
    ensures Listable(items, known, total) ==> total <= MAX_INT64
  {
  }

  lemma ListsOne(s: Session, t: Session, item: Option<Listing>)
    requires item.Some? && Lists(s, t, [item])
    ensures t.files.Keys == s.files.Keys + {item.value.id}
  {
    OneId(item);
  }

  lemma OthersDiffer(items: seq<Option<Listing>>, known: set<int>, total: nat, id: int)
    requires Listable(items, known, total) && id in known
    ensures forall i :: 0 <= i < |items| ==> items[i].Some? && items[i].value.id != id
  {
  }

  lemma Unreadable(items: seq<Option<Listing>>, known: set<int>, total: nat)
    requires items != [] && items[0] == None
    ensures !Listable(items, known, total)
  {
  }

  /** The question for this total is put. */
  ghost predicate Asking(s: Session, total: nat) {
    s.state == AwaitConsent && s.consent == 0 && s.total == total && s.received == 0
  }

  ghost predicate OnlyFiles(s: Session, t: Session) { t == s.(files := t.files, reserved := t.reserved) }

  /** An introduction is accepted for the question if and only if its entries can be listed, there is one, the
      disk has room for the total and no other question is pending; then exactly they are listed. */
  lemma IntroductionMeaning(e: Env, s: Session, introduction: Bytes)
    requires s.files == map[]
    ensures var r := Introduction(e, s, introduction);
      var items := Items(GetAll(introduction, 1), false) + Items(GetAll(introduction, 2), true);
      && (r.ok <==> Listable(items, {}, 0) && items != [] && e.preflight(SizeSum(items)) && s.consent != 0)
      && (r.ok ==> Lists(s, r.session, items) && Asking(r.session, SizeSum(items)))
  {
    hide AddAll, GetAll, ItemOf, Listable, Lists, IdsOf, SizeSum;
    var files, texts := Items(GetAll(introduction, 1), false), Items(GetAll(introduction, 2), true);
    AddAllMeaning(e, s, GetAll(introduction, 1), 0, 0, false);
    assert files[0..] == files && texts[0..] == texts && s.files.Keys == {};
    ListableSplit(files, texts, {}, 0);
    SumAppend(files, texts);
    var added := AddAll(e, s, GetAll(introduction, 1), 0, 0, false);
    if added.ok {
      SizeOfList(files, {}, 0);
      AddAllMeaning(e, added.session, GetAll(introduction, 2), 0, added.total, true);
      ListsKeys(s, added.session, files);
      assert added.session.files.Keys == {} + IdsOf(files);
      var both := AddAll(e, added.session, GetAll(introduction, 2), 0, added.total, true);
      if both.ok {
        AllNew(texts, added.session.files.Keys, added.total);
        ListsSplit(s, added.session, both.session, files, texts);
        ListsKeys(s, both.session, files + texts);
        SomeListed(files + texts, {}, 0);
        assert both.session.files.Keys == {} <==> both.session.files == map[];
        ListsSame(s, both.session, Introduction(e, s, introduction).session, files + texts);
      }
    }
  }

  lemma AllNew(items: seq<Option<Listing>>, known: set<int>, total: nat)
    requires Listable(items, known, total)
    ensures forall i :: 0 <= i < |items| ==> items[i].Some? && items[i].value.id !in known
  {
  }

  lemma ListsSame(s: Session, t: Session, u: Session, items: seq<Option<Listing>>)
    requires Lists(s, t, items)
    ensures u.files == t.files ==> Lists(s, u, items)
  {
  }

  lemma SizeOfList(items: seq<Option<Listing>>, known: set<int>, total: nat)
    ensures Listable(items, known, total) ==> total + SizeSum(items) <= MAX_INT64
  {
  }

  lemma ListsKeys(s: Session, t: Session, items: seq<Option<Listing>>)
    requires Lists(s, t, items)
    ensures t.files.Keys == s.files.Keys + IdsOf(items)
  {
  }

  lemma SomeListed(items: seq<Option<Listing>>, known: set<int>, total: nat)
    requires Listable(items, known, total)
    ensures IdsOf(items) == {} <==> items == []
  {
    if items != [] {
      assert items[0].value.id in IdsOf(items);
    }
  }

  lemma {:induction false} SumAppend(a: seq<Option<Listing>>, b: seq<Option<Listing>>)
    ensures SizeSum(a + b) == SizeSum(a) + SizeSum(b)
  {
    if a == [] {
      assert a + b == b;
    } else {
      assert (a + b)[1..] == a[1..] + b;
      SumAppend(a[1..], b);
    }
  }

  lemma IdsAppend(a: seq<Option<Listing>>, b: seq<Option<Listing>>)
    ensures IdsOf(a + b) == IdsOf(a) + IdsOf(b)
  {
    var all := a + b;
    forall id | id in IdsOf(all)
      ensures id in IdsOf(a) + IdsOf(b)
    {
      var i :| 0 <= i < |all| && all[i].Some? && all[i].value.id == id;
      assert if i < |a| then all[i] == a[i] else all[i] == b[i - |a|];
    }
    forall id | id in IdsOf(a)
      ensures id in IdsOf(all)
    {
      var i :| 0 <= i < |a| && a[i].Some? && a[i].value.id == id;
      assert all[i] == a[i];
    }
    forall id | id in IdsOf(b)
      ensures id in IdsOf(all)
    {
      var i :| 0 <= i < |b| && b[i].Some? && b[i].value.id == id;
      assert all[i + |a|] == b[i];
    }
  }

  lemma ListableSplit(a: seq<Option<Listing>>, b: seq<Option<Listing>>, known: set<int>, total: nat)
    ensures Listable(a + b, known, total) <==>
      Listable(a, known, total) && Listable(b, known + IdsOf(a), total + SizeSum(a))
  {
    hide Listable, IdsOf, SizeSum;
    if Listable(a + b, known, total) {
      SplitListable(a, b, known, total);
    }
    if Listable(a, known, total) && Listable(b, known + IdsOf(a), total + SizeSum(a)) {
      JoinListable(a, b, known, total);
    }
  }

  lemma SplitListable(a: seq<Option<Listing>>, b: seq<Option<Listing>>, known: set<int>, total: nat)
    requires Listable(a + b, known, total)
    ensures Listable(a, known, total) && Listable(b, known + IdsOf(a), total + SizeSum(a))
  {
    hide SizeSum, IdsOf, Listable;
    SumAppend(a, b);
    Front(a, b, known, total);
    EachLater(a, b, known, total);
    AllDiffer(a, b, known, total);
    SizeOfList(a + b, known, total);
    IsListable(b, known + IdsOf(a), total + SizeSum(a));
  }

  lemma EachLater(a: seq<Option<Listing>>, b: seq<Option<Listing>>, known: set<int>, total: nat)
    requires Listable(a + b, known, total)
    ensures forall i :: 0 <= i < |b| ==> b[i].Some? && b[i].value.id !in known + IdsOf(a)
    ensures forall i :: 0 <= i < |b| && b[i].value.text ==> b[i].value.size <= 5 * 1024 * 1024
  {
    hide SizeSum, IdsOf, Listable;
    forall i | 0 <= i < |b|
      ensures b[i].Some? && b[i].value.id !in known + IdsOf(a)
      ensures b[i].value.text ==> b[i].value.size <= 5 * 1024 * 1024
    {
      Later(a, b, known, total, i);
    }
  }

  lemma AllDiffer(a: seq<Option<Listing>>, b: seq<Option<Listing>>, known: set<int>, total: nat)
    requires Listable(a + b, known, total) && forall i :: 0 <= i < |b| ==> b[i].Some?
    ensures forall i, j :: 0 <= i < j < |b| ==> b[i].value.id != b[j].value.id
  {
    hide SizeSum, IdsOf, Listable;
    forall i, j | 0 <= i < j < |b|
      ensures b[i].value.id != b[j].value.id
    {
      LaterDiffer(a, b, known, total, i, j);
    }
  }

  lemma Front(a: seq<Option<Listing>>, b: seq<Option<Listing>>, known: set<int>, total: nat)
    requires Listable(a + b, known, total) && SizeSum(a + b) == SizeSum(a) + SizeSum(b)
    ensures Listable(a, known, total)
  {
    hide SizeSum;
    var all := a + b;
    assert forall i :: 0 <= i < |a| ==> a[i] == all[i];
  }

  lemma IsListable(items: seq<Option<Listing>>, known: set<int>, total: nat)
    requires forall i :: 0 <= i < |items| ==> items[i].Some? && items[i].value.id !in known
    requires forall i :: 0 <= i < |items| && items[i].value.text ==> items[i].value.size <= 5 * 1024 * 1024
    requires forall i, j :: 0 <= i < j < |items| ==> items[i].value.id != items[j].value.id
    requires total + SizeSum(items) <= MAX_INT64
    ensures Listable(items, known, total)
  {
  }

  lemma LaterDiffer(a: seq<Option<Listing>>, b: seq<Option<Listing>>, known: set<int>, total: nat, i: nat, j: nat)
    requires Listable(a + b, known, total) && i < j < |b|
    ensures b[i].Some? && b[j].Some? && b[i].value.id != b[j].value.id
  {
    hide SizeSum;
    var all, n := a + b, |a|;
    assert all[n + i] == b[i] && all[n + j] == b[j];
    assert all[n + i].Some? && all[n + j].Some?;
  }

  lemma Later(a: seq<Option<Listing>>, b: seq<Option<Listing>>, known: set<int>, total: nat, i: nat)
    requires Listable(a + b, known, total) && i < |b|
    ensures b[i].Some? && b[i].value.id !in known && b[i].value.id !in IdsOf(a)
    ensures b[i].value.text ==> b[i].value.size <= 5 * 1024 * 1024
  {
    hide SizeSum, IdsOf;
    var all, n := a + b, |a|;
    assert all[n + i] == b[i];
    forall j | 0 <= j < n
      ensures a[j].Some? && a[j].value.id != b[i].value.id
    {
      assert all[j] == a[j] && all[j].value.id != all[n + i].value.id;
    }
    NotAmong(a, b[i].value.id);
  }

  lemma NotAmong(items: seq<Option<Listing>>, id: int)
    requires forall j :: 0 <= j < |items| ==> items[j].Some? && items[j].value.id != id
    ensures id !in IdsOf(items)
  {
  }

  lemma JoinListable(a: seq<Option<Listing>>, b: seq<Option<Listing>>, known: set<int>, total: nat)
    requires Listable(a, known, total) && Listable(b, known + IdsOf(a), total + SizeSum(a))
    ensures Listable(a + b, known, total)
  {
    hide SizeSum;
    var all := a + b;
    SumAppend(a, b);
    assert forall i :: 0 <= i < |all| ==> all[i] == if i < |a| then a[i] else b[i - |a|];
    assert forall i :: 0 <= i < |a| ==> a[i].value.id in IdsOf(a);
    forall i, j | 0 <= i < j < |all|
      ensures all[i].value.id != all[j].value.id
    {
      if i < |a| <= j {
        assert b[j - |a|].value.id !in known + IdsOf(a);
      } else if |a| <= i {
        assert b[i - |a|].value.id != b[j - |a|].value.id;
      }
    }
  }

  lemma ListsSplit(s: Session, t: Session, u: Session, a: seq<Option<Listing>>, b: seq<Option<Listing>>)
    requires Lists(s, t, a) && Lists(t, u, b)
    requires forall i :: 0 <= i < |b| ==> b[i].Some? && b[i].value.id !in t.files
    ensures Lists(s, u, a + b)
  {
    var all := a + b;
    IdsAppend(a, b);
    forall i | 0 <= i < |all| && all[i].Some?
      ensures ListedAs(u, all[i].value)
    {
      if i < |a| {
        assert all[i] == a[i] && ListedAs(t, a[i].value);
      } else {
        assert all[i] == b[i - |a|];
      }
    }
  }
}
