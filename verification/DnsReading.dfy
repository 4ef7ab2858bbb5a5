/** What the packet parser reads on arbitrary bytes, byte by byte (sections 4.1.1 and 4.1.3 of RFC 1035). */
module DnsReading {
  import opened ByteStrings
  import opened DnsName
  import opened DnsPacket
  import opened DiscoveryStore
  import DnsResponse

  /** Two bytes, the high one first. */
  function Big(buf: Bytes, pos: nat): nat
    requires pos + 2 <= |buf|
  {
    buf[pos] as int * 256 + buf[pos + 1] as int
  }

  lemma BigIs(buf: Bytes, pos: nat)
    requires pos + 2 <= |buf|
    ensures Word16At(buf, pos) == Big(buf, pos)
  {
  }

  /** A record can be read exactly if its name can and its ten fixed bytes and its data are there; it is then
      the kind, the TTL and the data that stand behind the name. */
  lemma RecordMeaning(buf: Bytes, pos: nat, r: Record)
    ensures ReadRecord(buf, pos) == Some(r) <==>
      && ReadName(buf, pos).Some?
      && var p := ReadName(buf, pos).value.position;
         && p + 10 <= |buf| && r.length == Big(buf, p + 8) && r.start == p + 10 && r.start + r.length <= |buf|
         && r.name == ReadName(buf, pos).value.name && r.kind == Big(buf, p)
         && r.ttl == Big(buf, p + 4) * 65536 + Big(buf, p + 6)
  {
    hide ReadName;
    if ReadName(buf, pos).Some? && ReadName(buf, pos).value.position + 10 <= |buf| {
      var p := ReadName(buf, pos).value.position;
      BigIs(buf, p);
      BigIs(buf, p + 8);
      var ttl := buf[p + 4..p + 8];
      assert ttl[..2] == buf[p + 4..p + 6] && ttl[2..] == buf[p + 6..p + 8];
    }
  }

  /** The records of a walk, each behind the one before, up to the first that cannot be read. */
  lemma {:induction false} RecordsMeaning(buf: Bytes, pos: nat, count: nat)
    ensures var walk := Records(buf, pos, count);
      && |walk.records| <= count && (walk.complete <==> |walk.records| == count)
      && (forall i :: 0 <= i < |walk.records| ==> ReadRecord(buf, Start(walk.records, pos, i)) == Some(walk.records[i]))
      && (!walk.complete ==> ReadRecord(buf, Start(walk.records, pos, |walk.records|)) == None)
    decreases count
  {
    hide ReadRecord;
    if count > 0 && ReadRecord(buf, pos).Some? {
      var r := ReadRecord(buf, pos).value;
      var next := r.start + r.length;
      RecordsMeaning(buf, next, count - 1);
      var rest := Records(buf, next, count - 1);
      var walk := Records(buf, pos, count);
      assert walk.records == [r] + rest.records;
      forall i | 0 < i <= |walk.records|
        ensures Start(walk.records, pos, i) == Start(rest.records, next, i - 1)
      {
        assert i > 1 ==> walk.records[i - 1] == rest.records[i - 2];
      }
      forall i | 0 <= i < |walk.records|
        ensures ReadRecord(buf, Start(walk.records, pos, i)) == Some(walk.records[i])
      {
        assert i > 0 ==> walk.records[i] == rest.records[i - 1];
      }
    }
  }

  /** Where record i begins. */
  function Start(records: seq<Record>, pos: nat, i: nat): nat
    requires i <= |records|
  {
    if i == 0 then pos else records[i - 1].start + records[i - 1].length
  }

  /** A packet is whole exactly if it has as many records as the three counts of its header say together,
      behind as many questions as the first count says. */
  lemma PacketMeaning(buf: Bytes)
    requires |buf| >= 12
    ensures var walk, start := ReadPacket(buf), SkipQuestions(buf, 12, Big(buf, 4));
      if start == None then walk.records == [] && !walk.complete
      else
        && (walk.complete <==> |walk.records| == Big(buf, 6) + Big(buf, 8) + Big(buf, 10))
        && (forall i :: 0 <= i < |walk.records| ==>
              ReadRecord(buf, Start(walk.records, start.value, i)) == Some(walk.records[i]))
        && (!walk.complete ==> ReadRecord(buf, Start(walk.records, start.value, |walk.records|)) == None)
  {
    hide ReadRecord, Records, SkipQuestions;
    BigIs(buf, 4);
    BigIs(buf, 6);
    BigIs(buf, 8);
    BigIs(buf, 10);
    var start := SkipQuestions(buf, 12, Big(buf, 4));
    if start.Some? {
      RecordsMeaning(buf, start.value, Big(buf, 6) + Big(buf, 8) + Big(buf, 10));
    }
  }

  // ---------------------------------------------------------------- what is written

  /** The header of a response: the identifier, an authoritative answer without error, and the four counts. */
  lemma HeaderSays(c: Identity, id: u16, flush: bool, owner: Bytes, w: Wants, question: Bytes, ttls: Ttls)
    ensures var packet := Response(c, id, flush, owner, w, question, ttls);
      && |packet| >= 12 && Big(packet, 0) == id && Big(packet, 2) == 0x8400
      && Big(packet, 4) == (if question == [] then 0 else 1) && Big(packet, 8) == 0
      && Big(packet, 6) == |Answers(c, owner, w)| && Big(packet, 10) == |Additionals(c, w)|
  {
    hide Answers, Additionals, Word16At, Header, EntriesBytes;
    var answers, additionals := |Answers(c, owner, w)|, |Additionals(c, w)|;
    var entries := EntriesBytes(Answers(c, owner, w) + Additionals(c, w), flush, ttls, 0);
    var packet := Response(c, id, flush, owner, w, question, ttls);
    DnsResponse.FewEntries(c, owner, w);
    assert packet == Header(id, question != [], answers, additionals) + (question + entries);
    DnsResponse.HeaderParts(id, question != [], answers, additionals, question + entries);
    forall i | i in {0, 2, 4, 6, 8, 10}
      ensures Word16At(packet, i) == Big(packet, i)
    {
      BigIs(packet, i);
    }
  }

  /** A record: behind its owner the type, the class, with the high bit for a flush, the four bytes of the
      TTL, the size of the data and the data. */
  lemma EntrySays(entry: Entry, flush: bool, ttl: Bytes)
    requires |ttl| == 4 && |entry.rdata| < TWO16
    ensures var b, p := EntryBytes(entry, flush, ttl), |entry.owner|;
      && |b| >= p + 10 && b[..p] == entry.owner && Big(b, p) == entry.kind
      && Big(b, p + 2) == (if flush then 0x8001 else 1) && b[p + 4..p + 8] == ttl
      && Big(b, p + 8) == |entry.rdata| && b[p + 10..] == entry.rdata
  {
    hide Word16At, Word16;
    var b, p := EntryBytes(entry, flush, ttl), |entry.owner|;
    DnsResponse.EntryParts(entry, flush, ttl);
    assert b[p + 2..p + 4] == Word16(if flush then 0x8001 else 1);
    DnsResponse.WordAt(b, p, entry.kind);
    DnsResponse.WordAt(b, p + 2, if flush then 0x8001 else 1);
    DnsResponse.WordAt(b, p + 8, |entry.rdata|);
    BigIs(b, p);
    BigIs(b, p + 2);
    BigIs(b, p + 8);
  }

  /** Each record stands in the packet, and none but a PTR record goes without the flush that was asked for. */
  lemma {:induction false} EntryStands(entries: seq<Entry>, flush: bool, ttls: Ttls, k: nat, i: nat)
      returns (before: Bytes, after: Bytes)
    requires i < |entries|
    ensures EntriesBytes(entries, flush, ttls, k)
         == before + EntryBytes(entries[i], flush && entries[i].kind != 12, ttls(k + i)) + after
    decreases |entries|
  {
    hide EntryBytes;
    var head, rest := EntryBytes(entries[0], flush && entries[0].kind != 12, ttls(k)), entries[1..];
    if i == 0 {
      before, after := [], EntriesBytes(rest, flush, ttls, k + 1);
    } else {
      var b, a := EntryStands(rest, flush, ttls, k + 1, i - 1);
      before, after := head + b, a;
      var mine := EntryBytes(entries[i], flush && entries[i].kind != 12, ttls(k + i));
      assert head + (b + mine + a) == head + b + mine + a;
    }
  }

  // ---------------------------------------------------------------- the service type

  lemma {:induction false} LowerOf(upper: string, lower: string)
    requires |upper| == |lower| && forall c :: c in upper || c in lower ==> c as int < 128
    requires forall i :: 0 <= i < |upper| ==>
      lower[i] == if 'A' <= upper[i] <= 'Z' then (upper[i] as int + 32) as char else upper[i]
    ensures Lower(Ascii(upper)) == Ascii(lower)
  {
    forall i | 0 <= i < |upper|
      ensures Lower(Ascii(upper))[i] == Ascii(lower)[i]
    {
      assert upper[i] in upper && lower[i] in lower;
    }
  }

  lemma TypeMeaning()
    ensures TYPE_NAME == Ascii("_fc9f5ed42c8a._tcp.local")
  {
    LowerOf("_FC9F5ED42C8A._tcp.local", "_fc9f5ed42c8a._tcp.local");
  }

  /** A name under the service type: any labels, a dot, and the type. */
  lemma UnderMeaning(name: Bytes)
    ensures UnderType(name) <==> exists labels: Bytes :: name == labels + [46] + Ascii("_fc9f5ed42c8a._tcp.local")
  {
    TypeMeaning();
    hide Ascii, Lower;
    var suffix := [46] + TYPE_NAME;
    if UnderType(name) {
      var labels := name[..|name| - |suffix|];
      assert name == labels + suffix;
      assert name == labels + [46] + TYPE_NAME;
    }
    if labels: Bytes :| name == labels + [46] + TYPE_NAME {
      assert name == labels + suffix;
      assert name[|name| - |suffix|..] == suffix;
    }
  }

  // ---------------------------------------------------------------- text entries

  /** The entries of a text record: each a length and so many bytes, up to the first that does not fit. */
  function TextEntries(buf: Bytes, pos: nat, end: nat): seq<Bytes>
    requires end <= |buf|
    decreases end - pos
  {
    if pos >= end then []
    else
      var next := pos + 1 + buf[pos] as int;
      if next > end then [] else [buf[pos + 1..next]] + TextEntries(buf, next, end)
  }

  /** Entry i is the last to begin with "n=". */
  ghost predicate LastNamed(entries: seq<Bytes>, i: nat) {
    && i < |entries| && Ascii("n=") <= entries[i]
    && forall j :: i < j < |entries| ==> !(Ascii("n=") <= entries[j])
  }

  ghost predicate Carries(entries: seq<Bytes>, v: Bytes) {
    exists i: nat :: LastNamed(entries, i) && entries[i] == Ascii("n=") + v
  }

  /** A text record's value is what follows "n=" in the last entry that begins so. */
  lemma {:induction false} TextMeaning(buf: Bytes, pos: nat, end: nat, v: Bytes)
    requires end <= |buf|
    ensures TextValue(buf, pos, end) == Some(v) <==> Carries(TextEntries(buf, pos, end), v)
    decreases end - pos
  {
    hide Ascii, Carries, Later;
    var entries := TextEntries(buf, pos, end);
    if pos < end && pos + 1 + buf[pos] as int <= end {
      var next := pos + 1 + buf[pos] as int;
      var entry, rest := buf[pos + 1..next], TextEntries(buf, next, end);
      TextMeaning(buf, next, end, v);
      assert entries == [entry] + rest;
      EntriesStep(buf, next, end, entry, rest, v);
      NextEntry(buf, pos, end, next, entry);
    } else {
      NoneFits(buf, pos, end);
      NothingCarried(v);
    }
  }

  lemma NothingCarried(v: Bytes)
    ensures !Carries([], v)
  {
  }

  lemma NoneFits(buf: Bytes, pos: nat, end: nat)
    requires end <= |buf| && (pos >= end || pos + 1 + buf[pos] as int > end)
    ensures TextEntries(buf, pos, end) == [] && TextValue(buf, pos, end) == None
  {
  }

  lemma NamedStep(entry: Bytes, rest: seq<Bytes>, i: nat)
    ensures LastNamed([entry] + rest, i) <==>
      if i > 0 then LastNamed(rest, i - 1)
      else Ascii("n=") <= entry && forall j :: 0 <= j < |rest| ==> !(Ascii("n=") <= rest[j])
  {
    hide Ascii;
    var all := [entry] + rest;
    assert forall j :: 0 <= j < |rest| ==> rest[j] == all[j + 1];
  }

  lemma {:induction false} SomeNamed(buf: Bytes, pos: nat, end: nat)
    requires end <= |buf|
    ensures var entries := TextEntries(buf, pos, end);
      TextValue(buf, pos, end) == None <==> forall j :: 0 <= j < |entries| ==> !(Ascii("n=") <= entries[j])
    decreases end - pos
  {
    hide Ascii;
    if pos < end && pos + 1 + buf[pos] as int <= end {
      var next := pos + 1 + buf[pos] as int;
      var entry, rest := buf[pos + 1..next], TextEntries(buf, next, end);
      NextEntry(buf, pos, end, next, entry);
      SomeNamed(buf, next, end);
      var entries := TextEntries(buf, pos, end);
      assert entries == [entry] + rest;
      assert forall j :: 0 <= j < |rest| ==> rest[j] == entries[j + 1];
      assert entries[0] == entry;
    }
  }

  lemma EntriesStep(buf: Bytes, next: nat, end: nat, entry: Bytes, rest: seq<Bytes>, v: Bytes)
    requires next <= end <= |buf| && rest == TextEntries(buf, next, end)
    requires TextValue(buf, next, end) == Some(v) <==> Carries(rest, v)
    ensures Later(entry, TextValue(buf, next, end)) == Some(v) <==> Carries([entry] + rest, v)
  {
    hide LastNamed, TextValue, TextEntries;
    var all := [entry] + rest;
    SomeNamed(buf, next, end);
    TwoBytes();
    assert Ascii("n=") <= entry ==> entry == Ascii("n=") + entry[2..];
    NamedStep(entry, rest, 0);
    forall i: nat | LastNamed(all, i)
      ensures i < |all| && (i > 0 ==> LastNamed(rest, i - 1) && all[i] == rest[i - 1])
    {
      NamedStep(entry, rest, i);
      NamedInside(all, i);
    }
    forall i: nat | LastNamed(rest, i)
      ensures LastNamed(all, i + 1) && i < |rest| && all[i + 1] == rest[i] && Ascii("n=") <= rest[i]
    {
      NamedStep(entry, rest, i + 1);
      NamedInside(rest, i);
    }
  }

  lemma NamedInside(entries: seq<Bytes>, i: nat)
    requires LastNamed(entries, i)
    ensures i < |entries| && Ascii("n=") <= entries[i]
  {
  }

  lemma TwoBytes()
    ensures |Ascii("n=")| == 2
  {
  }
}
