/** The introduction: what the sender writes about its files is what the receiver puts on its list. */
module Announcement {
  import opened ByteStrings
  import opened ProtoWire
  import opened Frames
  import opened R = Receiver
  import S = Sender
  import Destination

  type Outgoing = S.OutgoingFile

  /** Files a sender can announce: identifiers all different, and sizes that fit where they are written. */
  ghost predicate Announceable(files: seq<Outgoing>) {
    && (forall i, j :: 0 <= i < j < |files| ==> files[i].id != files[j].id)
    && (forall f :: f in files ==> |f.name| < TWO31 && |f.mime| < TWO31 && |f.content| <= MAX_INT64)
    && TotalSize(files) <= MAX_INT64
  }

  function TotalSize(files: seq<Outgoing>): nat {
    if files == [] then 0 else |files[0].content| + TotalSize(files[1..])
  }

  lemma MetadataParts(f: Outgoing)
    requires |f.name| < TWO31 && |f.mime| < TWO31 && |f.content| <= MAX_INT64
    ensures GetBytes(S.Metadata(f), 1) == Some(f.name)
    ensures GetVarint(S.Metadata(f), 3) == Some(f.id)
    ensures GetVarint(S.Metadata(f), 4) == Some(|f.content|)
    ensures |S.Metadata(f)| < TWO63
  {
    hide Encode, GetBytes, GetVarint, S.MetadataType;
    var kind := S.MetadataType(f);
    var fields := [B(1, f.name)] + (if kind != 0 then [V(2, kind)] else [])
                  + [V(3, f.id), V(4, S.SizeOf(f.content)), B(5, f.mime), V(6, f.id)];
    var k := if kind != 0 then 2 else 1;
    BytesAt(fields, 1, 0);
    VarintAt(fields, 3, k);
    VarintAt(fields, 4, k + 1);
    SmallSize(fields);
  }

  // ---------------------------------------------------------------- the list of entries

  function Entries(files: seq<Outgoing>): (r: seq<Bytes>)
    ensures |r| == |files|
    ensures forall i :: 0 <= i < |files| ==> r[i] == S.Metadata(files[i])
  {
    seq(|files|, i requires 0 <= i < |files| => S.Metadata(files[i]))
  }

  lemma {:induction false} AllOfEntries(files: seq<Outgoing>, number: int)
    ensures AllBytes(S.MetadataFields(files) + [V(8, 1)], number) == if number == 1 then Entries(files) else []
  {
    hide S.Metadata;
    var fields := S.MetadataFields(files) + [V(8, 1)];
    if files == [] {
      assert fields == [V(8, 1)] && fields[1..] == [];
      assert Entries(files) == [];
    } else {
      AllOfEntries(files[1..], number);
      assert fields[1..] == S.MetadataFields(files[1..]) + [V(8, 1)];
      assert fields[0] == B(1, S.Metadata(files[0]));
      assert Entries(files) == [S.Metadata(files[0])] + Entries(files[1..]);
    }
  }

  lemma IntroductionEntries(files: seq<Outgoing>)
    requires Announceable(files)
    ensures GetAll(S.IntroductionBody(files), 1) == Entries(files)
    ensures GetAll(S.IntroductionBody(files), 2) == []
  {
    hide Encode, S.Metadata, AllBytes, TotalSize;
    var fields := S.MetadataFields(files) + [V(8, 1)];
    forall g | g in fields
      ensures Writable(g)
    {
      var i :| 0 <= i < |fields| && fields[i] == g;
      if i < |files| {
        assert files[i] in files;
        MetadataParts(files[i]);
      }
    }
    ParseEncode(fields);
    AllOfEntries(files, 1);
    AllOfEntries(files, 2);
  }

  // ---------------------------------------------------------------- the pending files

  /** The receiver after one file. */
  function AddOne(e: Env, r: Session, f: Outgoing): Session {
    AddFile(e, r, e.utf8(f.name), ToInt64(f.id), |f.content|, false)
  }

  /** The receiver after adding the files one by one. */
  function Announce(e: Env, r: Session, files: seq<Outgoing>): Session
    decreases |files|
  {
    if files == [] then r
    else Announce(e, AddOne(e, r, files[0]), files[1..])
  }

  ghost predicate Unknown(r: Session, files: seq<Outgoing>) {
    forall f :: f in files ==> ToInt64(f.id) !in r.files
  }

  lemma TailAnnounceable(files: seq<Outgoing>)
    requires Announceable(files) && files != []
    ensures Announceable(files[1..])
  {
  }

  lemma AddsOne(e: Env, r: Session, f: Outgoing)
    requires |f.name| < TWO31 && |f.mime| < TWO31 && |f.content| <= MAX_INT64 && ToInt64(f.id) !in r.files
    ensures AddFileMetadata(e, r, S.Metadata(f)) == Added(AddOne(e, r, f), Some(|f.content|))
  {
    hide S.Metadata, GetBytes, GetVarint, AddFile;
    MetadataParts(f);
  }

  lemma {:induction false} AddsAll(e: Env, r: Session, entries: seq<Bytes>, index: nat, total: nat,
                                   files: seq<Outgoing>)
    requires index + |files| == |entries| && entries[index..] == Entries(files)
    requires Announceable(files) && Unknown(r, files) && total + TotalSize(files) <= MAX_INT64
    ensures AddAll(e, r, entries, index, total, false)
         == Totalled(Announce(e, r, files), total + TotalSize(files), true)
    decreases |files|
  {
    hide S.Metadata, AddFileMetadata, AddTextMetadata, Announceable, Unknown, AddOne;
    if files != [] {
      var f := files[0];
      HeadAnnounceable(r, files);
      assert entries[index] == entries[index..][0] == S.Metadata(f);
      AddsOne(e, r, f);
      TailAnnounceable(files);
      TailUnknown(e, r, files);
      assert entries[index + 1..] == entries[index..][1..] == Entries(files)[1..] == Entries(files[1..]);
      AddsAll(e, AddOne(e, r, f), entries, index + 1, total + |f.content|, files[1..]);
    }
  }

  lemma HeadAnnounceable(r: Session, files: seq<Outgoing>)
    requires Announceable(files) && Unknown(r, files) && files != []
    ensures var f := files[0];
      |f.name| < TWO31 && |f.mime| < TWO31 && |f.content| <= MAX_INT64 && ToInt64(f.id) !in r.files
  {
    hide TotalSize;
    assert files[0] in files;
  }

  lemma TailUnknown(e: Env, r: Session, files: seq<Outgoing>)
    requires Announceable(files) && Unknown(r, files) && files != []
    ensures var f := files[0];
      Unknown(AddOne(e, r, f), files[1..])
  {
    hide TotalSize;
    forall g | g in files[1..]
      ensures ToInt64(g.id) != ToInt64(files[0].id) && g in files
    {
      var i :| 0 <= i < |files[1..]| && files[1..][i] == g;
      assert files[i + 1] == g;
      if ToInt64(g.id) == ToInt64(files[0].id) {
        ToInt64Injective(g.id, files[0].id);
      }
    }
  }

  /** A receiver with an empty list and no question pending takes the whole introduction and asks. */
  lemma IntroductionTaken(e: Env, r: Session, files: seq<Outgoing>)
    requires Announceable(files) && files != [] && r.files == map[] && r.consent != 0 && e.preflight(TotalSize(files))
    ensures R.Introduction(e, r, S.IntroductionBody(files))
         == Result(Announce(e, r, files).(total := TotalSize(files), received := 0, consent := 0,
             state := AwaitConsent), true)
  {
    hide GetAll, S.IntroductionBody, TotalSize, Announceable, AddOne, Listed, AddAll, Unknown, Announce;
    IntroductionEntries(files);
    assert Entries(files)[0..] == Entries(files);
    NothingKnown(r, files);
    TotalFits(files);
    AddsAll(e, r, Entries(files), 0, 0, files);
    NoTexts(e, Announce(e, r, files), TotalSize(files));
    AnnounceKeeps(e, r, files);
    Announced(e, r, files, 0);
    assert Announce(e, r, files).files != map[] by {
      ListedMeans(Announce(e, r, files), files[0]);
    }
  }

  lemma NoTexts(e: Env, s: Session, total: nat)
    ensures AddAll(e, s, [], 0, total, true) == Totalled(s, total, true)
  {
  }

  lemma NothingKnown(r: Session, files: seq<Outgoing>)
    requires r.files == map[]
    ensures Unknown(r, files)
  {
  }

  lemma TotalFits(files: seq<Outgoing>)
    requires Announceable(files)
    ensures TotalSize(files) <= MAX_INT64
  {
    hide TotalSize;
  }

  lemma ListedMeans(t: Session, f: Outgoing)
    requires Listed(t, f)
    ensures ToInt64(f.id) in t.files
  {
  }

  lemma {:induction false} AnnounceKeeps(e: Env, r: Session, files: seq<Outgoing>)
    ensures var t := Announce(e, r, files); t == r.(files := t.files, reserved := t.reserved)
    decreases |files|
  {
    if files != [] {
      AnnounceKeeps(e, AddOne(e, r, files[0]), files[1..]);
    }
  }

  /** The entry for each file, and nothing but such entries. */
  ghost predicate Listed(t: Session, f: Outgoing) {
    && ToInt64(f.id) in t.files
    && var g := t.files[ToInt64(f.id)];
       g.size == |f.content| && g.received == 0 && !g.created && !g.bytePayload
  }

  lemma {:induction false} EntryStays(e: Env, r: Session, files: seq<Outgoing>, id: int)
    requires id in r.files && forall f :: f in files ==> ToInt64(f.id) != id
    ensures id in Announce(e, r, files).files && Announce(e, r, files).files[id] == r.files[id]
    decreases |files|
  {
    hide Destination.Choose;
    if files != [] {
      assert files[0] in files;
      assert forall f :: f in files[1..] ==> f in files;
      EntryStays(e, AddOne(e, r, files[0]), files[1..], id);
    }
  }

  lemma {:induction false} Announced(e: Env, r: Session, files: seq<Outgoing>, k: nat)
    requires Announceable(files) && Unknown(r, files) && k < |files|
    ensures Listed(Announce(e, r, files), files[k])
    decreases |files|
  {
    hide TotalSize, Destination.Choose;
    var f := files[0];
    var next := AddOne(e, r, f);
    TailAnnounceable(files);
    TailUnknown(e, r, files);
    if k == 0 {
      forall g | g in files[1..]
        ensures ToInt64(g.id) != ToInt64(f.id)
      {
      }
      EntryStays(e, next, files[1..], ToInt64(f.id));
    } else {
      Announced(e, next, files[1..], k - 1);
    }
  }

  lemma {:induction false} OnlyAnnounced(e: Env, r: Session, files: seq<Outgoing>, id: int)
    requires id in Announce(e, r, files).files && id !in r.files
    ensures exists f :: f in files && ToInt64(f.id) == id
    decreases |files|
  {
    hide Destination.Choose;
    if files != [] {
      var f := files[0];
      var next := AddOne(e, r, f);
      assert f in files;
      if id !in next.files {
        OnlyAnnounced(e, next, files[1..], id);
        var g :| g in files[1..] && ToInt64(g.id) == id;
        assert g in files;
      }
    }
  }

  /** The destination chosen for file k. */
  function PathOf(t: Session, f: Outgoing): Destination.Path {
    if ToInt64(f.id) in t.files then t.files[ToInt64(f.id)].path else ""
  }

  lemma {:induction false} PathsUnused(e: Env, r: Session, files: seq<Outgoing>, k: nat)
    requires Announceable(files) && Unknown(r, files) && k < |files|
    ensures PathOf(Announce(e, r, files), files[k]) !in r.disk.Keys + r.reserved
    decreases |files|
  {
    hide TotalSize;
    var f := files[0];
    var next := AddOne(e, r, f);
    TailAnnounceable(files);
    TailUnknown(e, r, files);
    if k == 0 {
      forall g | g in files[1..]
        ensures ToInt64(g.id) != ToInt64(f.id)
      {
      }
      EntryStays(e, next, files[1..], ToInt64(f.id));
    } else {
      PathsUnused(e, next, files[1..], k - 1);
    }
  }

  lemma PathReserved(e: Env, r: Session, f: Outgoing)
    ensures var next := AddOne(e, r, f);
      ToInt64(f.id) in next.files && PathOf(next, f) in next.reserved
      && next.files[ToInt64(f.id)].path == PathOf(next, f)
  {
    hide Destination.Choose;
  }

  lemma OthersDiffer(files: seq<Outgoing>, g: Outgoing)
    requires Announceable(files) && files != [] && g in files[1..]
    ensures ToInt64(g.id) != ToInt64(files[0].id)
  {
    hide TotalSize;
    if ToInt64(g.id) == ToInt64(files[0].id) {
      ToInt64Injective(g.id, files[0].id);
    }
  }

  /** Every file gets a place of its own. */
  lemma {:induction false} PathsDiffer(e: Env, r: Session, files: seq<Outgoing>, j: nat, k: nat)
    requires Announceable(files) && Unknown(r, files) && j < k < |files|
    ensures PathOf(Announce(e, r, files), files[j]) != PathOf(Announce(e, r, files), files[k])
    decreases |files|
  {
    hide TotalSize, AddOne;
    var f := files[0];
    var next := AddOne(e, r, f);
    TailAnnounceable(files);
    TailUnknown(e, r, files);
    PathReserved(e, r, f);
    if j == 0 {
      forall g | g in files[1..]
        ensures ToInt64(g.id) != ToInt64(f.id)
      {
        OthersDiffer(files, g);
      }
      EntryStays(e, next, files[1..], ToInt64(f.id));
      PathsUnused(e, next, files[1..], k - 1);
    } else {
      PathsDiffer(e, next, files[1..], j - 1, k - 1);
    }
  }
}
