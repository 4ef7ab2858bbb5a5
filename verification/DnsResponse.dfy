/** What the parser's walk makes of a response: exactly the records written. */
module DnsResponse {
  import opened ByteStrings
  import opened DnsName
  import opened DnsPacket

  // ---------------------------------------------------------------- words in place

  lemma WordAt(buf: Bytes, pos: nat, x: u16)
    requires pos + 2 <= |buf| && buf[pos..pos + 2] == Word16(x)
    ensures Word16At(buf, pos) == x
  {
  }

  lemma Part(buf: Bytes, pos: nat, whole: Bytes, i: nat, part: Bytes)
    requires pos + |whole| <= |buf| && buf[pos..pos + |whole|] == whole
    requires i + |part| <= |whole| && whole[i..i + |part|] == part
    ensures buf[pos + i..pos + i + |part|] == part
  {
    SliceOfSlice(buf, pos, pos + |whole|, i, i + |part|);
  }

  // ---------------------------------------------------------------- one record

  /** The record found for an entry: its owner in lower case, its type, its TTL and its data. */
  ghost predicate Recovers(buf: Bytes, record: Record, entry: Entry, owner: seq<Bytes>, ttl: Bytes) {
    && |ttl| == 4 && record.start + record.length <= |buf|
    && record == Record(Lower(Join(owner)), entry.kind, FromWord32(ttl), record.start, |entry.rdata|)
    && buf[record.start..record.start + record.length] == entry.rdata
  }

  ghost predicate Writes(entry: Entry, owner: seq<Bytes>) {
    entry.owner == Encoded(owner) && GoodLabels(owner) && |owner| <= 31 && |entry.rdata| < TWO16
  }

  lemma EntryParts(entry: Entry, flush: bool, ttl: Bytes)
    requires |ttl| == 4 && |entry.rdata| < TWO16
    ensures var all, n := EntryBytes(entry, flush, ttl), |entry.owner|;
      && |all| == n + 10 + |entry.rdata| && all[0..n] == entry.owner && all[n..n + 2] == Word16(entry.kind)
      && all[n + 4..n + 8] == ttl && all[n + 8..n + 10] == Word16(|entry.rdata|)
      && all[n + 10..n + 10 + |entry.rdata|] == entry.rdata
  {
    hide Word16;
  }

  lemma ReadsEntry(buf: Bytes, pos: nat, entry: Entry, owner: seq<Bytes>, flush: bool, ttl: Bytes)
    requires Writes(entry, owner) && |ttl| == 4
    requires pos + |EntryBytes(entry, flush, ttl)| <= |buf|
    requires buf[pos..pos + |EntryBytes(entry, flush, ttl)|] == EntryBytes(entry, flush, ttl)
    ensures var r := ReadRecord(buf, pos);
      && r.Some? && Recovers(buf, r.value, entry, owner, ttl)
      && r.value.start + r.value.length == pos + |EntryBytes(entry, flush, ttl)|
  {
    hide EntryBytes, ReadName, Word16, Word16At, FromWord32, Encoded, GoodLabels;
    var all, n := EntryBytes(entry, flush, ttl), |entry.owner|;
    EntryParts(entry, flush, ttl);
    Part(buf, pos, all, 0, entry.owner);
    Part(buf, pos, all, n, Word16(entry.kind));
    Part(buf, pos, all, n + 4, ttl);
    Part(buf, pos, all, n + 8, Word16(|entry.rdata|));
    Part(buf, pos, all, n + 10, entry.rdata);
    EncodedRead(buf, pos, owner);
    WordAt(buf, pos + n, entry.kind);
    WordAt(buf, pos + n + 8, |entry.rdata|);
  }

  // ---------------------------------------------------------------- all records

  lemma {:induction false} WalksEntries(buf: Bytes, pos: nat, entries: seq<Entry>, owners: seq<seq<Bytes>>,
                                        flush: bool, ttls: Ttls, k: nat)
    requires |owners| == |entries| && GoodTtls(ttls) && forall i :: 0 <= i < |entries| ==> Writes(entries[i], owners[i])
    requires pos <= |buf| && buf[pos..] == EntriesBytes(entries, flush, ttls, k)
    ensures var walk := Records(buf, pos, |entries|);
      && walk.complete && walk.end == |buf| && |walk.records| == |entries|
      && forall i :: 0 <= i < |entries| ==> Recovers(buf, walk.records[i], entries[i], owners[i], ttls(k + i))
    decreases |entries|
  {
    hide EntryBytes, ReadRecord, Recovers, Writes;
    if entries != [] {
      var bit := flush && entries[0].kind != TYPE_PTR;
      var first := EntryBytes(entries[0], bit, ttls(k));
      var rest := EntriesBytes(entries[1..], flush, ttls, k + 1);
      assert buf[pos..] == first + rest;
      var next := pos + |first|;
      assert buf[pos..next] == buf[pos..][..|first|] == first;
      assert buf[next..] == buf[pos..][|first|..] == rest;
      ReadsEntry(buf, pos, entries[0], owners[0], bit, ttls(k));
      WalksEntries(buf, next, entries[1..], owners[1..], flush, ttls, k + 1);
      var walk := Records(buf, pos, |entries|);
      var later := Records(buf, next, |entries| - 1);
      assert walk.records == [ReadRecord(buf, pos).value] + later.records;
      forall i | 0 <= i < |entries|
        ensures Recovers(buf, walk.records[i], entries[i], owners[i], ttls(k + i))
      {
        if i > 0 {
          assert walk.records[i] == later.records[i - 1] && entries[i] == entries[1..][i - 1];
          assert owners[i] == owners[1..][i - 1];
          assert k + 1 + (i - 1) == k + i;
        }
      }
    }
  }

  // ---------------------------------------------------------------- the names of the service

  const TYPE_LABELS: seq<Bytes> := [Ascii("_FC9F5ED42C8A"), Ascii("_tcp"), Ascii("local")]

  lemma AsciiAppend(a: string, b: string)
    ensures Ascii(a + b) == Ascii(a) + Ascii(b)
  {
  }

  lemma TypeJoined()
    ensures Join(TYPE_LABELS) == SERVICE_TYPE
  {
    AsciiAppend("_FC9F5ED42C8A", "._tcp.local");
    AsciiAppend(".", "_tcp.local");
    AsciiAppend("_tcp", ".local");
    AsciiAppend(".", "local");
    assert "_FC9F5ED42C8A" + "._tcp.local" == "_FC9F5ED42C8A._tcp.local";
    assert "." + "_tcp.local" == "._tcp.local";
    assert "_tcp" + ".local" == "_tcp.local";
    assert "." + "local" == ".local";
    assert Ascii(".") == [DOT];
    assert TYPE_LABELS[1..] == [Ascii("_tcp"), Ascii("local")];
    assert TYPE_LABELS[1..][1..] == [Ascii("local")];
  }

  lemma NoDot(s: string)
    requires '.' !in s && forall c :: c in s ==> c as int < 128
    ensures DOT !in Ascii(s)
  {
    forall i | 0 <= i < |s|
      ensures Ascii(s)[i] != DOT
    {
      assert s[i] in s;
    }
  }

  lemma TypeLabelsGood()
    ensures GoodLabels(TYPE_LABELS) && forall l :: l in TYPE_LABELS ==> DOT !in l
  {
    NoDot("_FC9F5ED42C8A");
    NoDot("_tcp");
    NoDot("local");
  }

  /** Labels the service may draw: not too long for a label, and without a dot. */
  ghost predicate Drawn(l: Bytes) { GoodLabel(l) && DOT !in l }

  ghost predicate GoodIdentity(c: Identity) { Drawn(c.instance) && Drawn(c.host) && |c.ip| == 4 && |c.info| <= 253 }

  function InstanceLabels(c: Identity): seq<Bytes> { [c.instance] + TYPE_LABELS }
  function HostLabels(c: Identity): seq<Bytes> { [c.host, Ascii("local")] }

  lemma NamesWritten(c: Identity)
    requires GoodIdentity(c)
    ensures Written(InstanceName(c)) == Encoded(InstanceLabels(c)) && GoodLabels(InstanceLabels(c))
    ensures |InstanceLabels(c)| == 4
    ensures Written(HostName(c)) == Encoded(HostLabels(c)) && GoodLabels(HostLabels(c))
    ensures Join(InstanceLabels(c)) == InstanceName(c) && Join(HostLabels(c)) == HostName(c)
  {
    hide Encoded, Written, Ascii;
    TypeJoined();
    TypeLabelsGood();
    var labels := InstanceLabels(c);
    assert labels[1..] == TYPE_LABELS && labels[0] == c.instance;
    WritesLabels(labels);
    var host := HostLabels(c);
    assert Ascii("local") in TYPE_LABELS;
    assert host[1..] == [Ascii("local")];
    WritesLabels(host);
  }

  // ---------------------------------------------------------------- the response

  /** The owners of the entries, in label form. */
  function OwnerOf(c: Identity, owner: seq<Bytes>, entry: Entry): seq<Bytes> {
    if entry.kind == TYPE_PTR then owner else if entry.kind == TYPE_A then HostLabels(c) else InstanceLabels(c)
  }

  function Owners(c: Identity, owner: seq<Bytes>, entries: seq<Entry>): (r: seq<seq<Bytes>>)
    ensures |r| == |entries|
  {
    seq(|entries|, i requires 0 <= i < |entries| => OwnerOf(c, owner, entries[i]))
  }

  lemma {:induction false} EncodedSize(labels: seq<Bytes>)
    requires GoodLabels(labels)
    ensures |Encoded(labels)| <= 64 * |labels| + 1
  {
    if labels != [] {
      assert labels[0] in labels;
      EncodedSize(labels[1..]);
    }
  }

  lemma DataSizes(c: Identity)
    requires GoodIdentity(c)
    ensures |Srv(c).rdata| < TWO16 && |Txt(c).rdata| < TWO16 && |Address(c).rdata| < TWO16
    ensures |Written(InstanceName(c))| < TWO16
  {
    hide Encoded, Written, Ascii, InstanceName, HostName, InstanceLabels;
    NamesWritten(c);
    EncodedSize(InstanceLabels(c));
    EncodedSize(HostLabels(c));
  }

  lemma EveryEntryWrites(c: Identity, owner: seq<Bytes>, e: Entry)
    requires GoodIdentity(c) && GoodLabels(owner) && |owner| <= 31
    requires e == Ptr(c, Encoded(owner)) || e == Srv(c) || e == Txt(c) || e == Address(c)
    ensures Writes(e, OwnerOf(c, owner, e))
  {
    hide Encoded, Written, Ascii, InstanceName, HostName, InstanceLabels, GoodLabels, GoodIdentity;
    NamesWritten(c);
    DataSizes(c);
  }

  function Times(entries: seq<Entry>, e: Entry): nat { multiset(entries)[e] }

  lemma TimesAppend(a: seq<Entry>, b: seq<Entry>, e: Entry)
    ensures Times(a + b, e) == Times(a, e) + Times(b, e)
  {
  }

  lemma TimesEither(b: bool, x: Entry, e: Entry)
    ensures Times(When(b, x), e) + Times(When(!b, x), e) == if e == x then 1 else 0
  {
  }

  lemma TimesWhen(b: bool, x: Entry, e: Entry)
    ensures Times(When(b, x), e) == if b && e == x then 1 else 0
  {
  }

  lemma SharedOut(first: seq<Entry>, w: Wants, s: Entry, t: Entry, a: Entry, e: Entry)
    ensures Times((first + When(w.srv, s) + When(w.txt, t) + When(w.address, a)) +
                  (When(!w.srv, s) + When(!w.txt, t) + When(!w.address, a)), e)
         == Times(first, e) + (if e == s then 1 else 0) + (if e == t then 1 else 0) + (if e == a then 1 else 0)
  {
    hide Times, When;
    var s0, s1 := When(w.srv, s), When(!w.srv, s);
    var t0, t1 := When(w.txt, t), When(!w.txt, t);
    var a0, a1 := When(w.address, a), When(!w.address, a);
    TimesEither(w.srv, s, e);
    TimesEither(w.txt, t, e);
    TimesEither(w.address, a, e);
    TimesAppend(first, s0, e);
    TimesAppend(first + s0, t0, e);
    TimesAppend(first + s0 + t0, a0, e);
    TimesAppend(s1, t1, e);
    TimesAppend(s1 + t1, a1, e);
    TimesAppend(first + s0 + t0 + a0, s1 + t1 + a1, e);
  }

  /** Every record once: the ones not asked for come along as additionals. */
  lemma EachOnce(c: Identity, owner: Bytes, w: Wants, e: Entry)
    ensures Times(Answers(c, owner, w) + Additionals(c, w), e) ==
      (if w.ptr && e == Ptr(c, owner) then 1 else 0)
      + (if e == Srv(c) then 1 else 0) + (if e == Txt(c) then 1 else 0) + (if e == Address(c) then 1 else 0)
  {
    hide Srv, Txt, Address, Ptr, Times, When;
    TimesWhen(w.ptr, Ptr(c, owner), e);
    SharedOut(When(w.ptr, Ptr(c, owner)), w, Srv(c), Txt(c), Address(c), e);
  }

  lemma FewEntries(c: Identity, owner: Bytes, w: Wants)
    ensures |Answers(c, owner, w)| <= 4 && |Additionals(c, w)| <= 3
  {
    hide Srv, Txt, Address, Ptr;
  }

  lemma {:induction false} OnlyTheFour(c: Identity, owner: Bytes, w: Wants, e: Entry)
    requires e in Answers(c, owner, w) + Additionals(c, w)
    ensures e == Ptr(c, owner) || e == Srv(c) || e == Txt(c) || e == Address(c)
  {
    hide Srv, Txt, Address, Ptr;
  }

  lemma HeaderParts(id: u16, question: bool, answers: nat, additionals: nat, rest: Bytes)
    requires answers < TWO16 && additionals < TWO16
    ensures var p := Header(id, question, answers, additionals) + rest;
      && Word16At(p, 0) == id && Word16At(p, 2) == 0x8400 && Word16At(p, 4) == (if question then 1 else 0)
      && Word16At(p, 6) == answers && Word16At(p, 8) == 0 && Word16At(p, 10) == additionals
  {
    hide Word16, Word16At;
    var p := Header(id, question, answers, additionals) + rest;
    assert p[0..2] == Word16(id) && p[2..4] == Word16(0x8400) && p[4..6] == Word16(if question then 1 else 0);
    assert p[6..8] == Word16(answers) && p[8..10] == Word16(0) && p[10..12] == Word16(additionals);
    WordAt(p, 0, id);
    WordAt(p, 2, 0x8400);
    WordAt(p, 4, if question then 1 else 0);
    WordAt(p, 6, answers);
    WordAt(p, 8, 0);
    WordAt(p, 10, additionals);
  }

  /** A question as it is echoed: an encoded name, its type and its class. */
  ghost predicate GoodQuestion(question: Bytes) {
    question == [] || exists labels, tail: Bytes ::
      question == Encoded(labels) + tail && |tail| == 4 && GoodLabels(labels) && |labels| <= 31
  }

  lemma QuestionSkipped(buf: Bytes, question: Bytes)
    requires GoodQuestion(question) && 12 + |question| <= |buf| && buf[12..12 + |question|] == question
    ensures SkipQuestions(buf, 12, if question != [] then 1 else 0) == Some(12 + |question|)
  {
    hide ReadName, SkipQuestions, Encoded, GoodLabels;
    OneQuestion(buf, 12);
    if question != [] {
      var labels, tail: Bytes :| question == Encoded(labels) + tail && |tail| == 4
        && GoodLabels(labels) && |labels| <= 31;
      assert |question| == |Encoded(labels)| + 4;
      assert buf[12..12 + |Encoded(labels) + tail|] == Encoded(labels) + tail;
      QuestionRead(buf, 12, labels, tail);
      assert ReadName(buf, 12).value.position + 4 == 12 + |question|;
    }
  }

  lemma QuestionRead(buf: Bytes, pos: nat, labels: seq<Bytes>, tail: Bytes)
    requires GoodLabels(labels) && |labels| <= 31
    requires pos + |Encoded(labels) + tail| <= |buf|
    requires buf[pos..pos + |Encoded(labels) + tail|] == Encoded(labels) + tail
    ensures ReadName(buf, pos).Some? && ReadName(buf, pos).value.position == pos + |Encoded(labels)|
  {
    hide ReadName, Encoded, GoodLabels;
    var whole := Encoded(labels) + tail;
    assert whole[0..|Encoded(labels)|] == Encoded(labels);
    Part(buf, pos, whole, 0, Encoded(labels));
    EncodedRead(buf, pos, labels);
  }

  lemma OneQuestion(buf: Bytes, pos: nat)
    ensures SkipQuestions(buf, pos, 0) == Some(pos)
    ensures SkipQuestions(buf, pos, 1) ==
      match ReadName(buf, pos)
      case None => None
      case Some(question) => if question.position + 4 > |buf| then None else Some(question.position + 4)
  {
    hide ReadName;
  }

  /** Whatever is asked, the walk over the response ends at its last byte and finds exactly the records
      written: the counts are exact and the answers come before the additionals. */
  lemma ResponseRoundTrip(c: Identity, id: u16, flush: bool, owner: seq<Bytes>, w: Wants, question: Bytes, ttls: Ttls)
    requires GoodIdentity(c) && GoodLabels(owner) && |owner| <= 31 && GoodQuestion(question) && GoodTtls(ttls)
    ensures var answers, additionals := Answers(c, Encoded(owner), w), Additionals(c, w);
      var entries := answers + additionals;
      var packet := Response(c, id, flush, Encoded(owner), w, question, ttls);
      var walk := ReadPacket(packet);
      && Word16At(packet, 0) == id && Word16At(packet, 2) == 0x8400
      && Word16At(packet, 6) == |answers| && Word16At(packet, 8) == 0 && Word16At(packet, 10) == |additionals|
      && walk.complete && walk.end == |packet| && |walk.records| == |entries|
      && forall i :: 0 <= i < |entries| ==>
           Recovers(packet, walk.records[i], entries[i], OwnerOf(c, owner, entries[i]), ttls(i))
  {
    hide Srv, Txt, Address, Ptr, Answers, Additionals, EntriesBytes, Header, Records, SkipQuestions, Recovers, Writes,
         OwnerOf, Encoded, GoodQuestion, GoodIdentity, GoodLabels, Word16At;
    var answers, additionals := Answers(c, Encoded(owner), w), Additionals(c, w);
    var entries := answers + additionals;
    var header := Header(id, question != [], |answers|, |additionals|);
    var body := EntriesBytes(entries, flush, ttls, 0);
    var packet := Response(c, id, flush, Encoded(owner), w, question, ttls);
    FewEntries(c, Encoded(owner), w);
    assert packet == header + (question + body);
    HeaderParts(id, question != [], |answers|, |additionals|, question + body);
    assert packet[12..12 + |question|] == question && packet[12 + |question|..] == body;
    QuestionSkipped(packet, question);
    forall i | 0 <= i < |entries|
      ensures Writes(entries[i], Owners(c, owner, entries)[i])
    {
      assert entries[i] in entries;
      OnlyTheFour(c, Encoded(owner), w, entries[i]);
      EveryEntryWrites(c, owner, entries[i]);
    }
    WalksEntries(packet, 12 + |question|, entries, Owners(c, owner, entries), flush, ttls, 0);
  }
}
