/** Packets of resource records (sections 4.1.1 and 4.1.3 of RFC 1035): the walk of parseDiscoveryPacket
    over questions and records, and the responses of buildResponse. */
module DnsPacket {
  import opened ByteStrings
  import opened DnsName

  const TYPE_A: u16 := 1
  const TYPE_PTR: u16 := 12
  const TYPE_TXT: u16 := 16
  const TYPE_SRV: u16 := 33

  // ---------------------------------------------------------------- the walk

  function Word16At(buf: Bytes, pos: nat): u16
    requires pos + 2 <= |buf|
  {
    FromWord16(buf[pos..pos + 2])
  }

  /** A record as it stands in the packet: its data are the bytes from `start` on. */
  datatype Record = Record(name: Bytes, kind: u16, ttl: u32, start: nat, length: nat)

  function ReadRecord(buf: Bytes, pos: nat): (r: Option<Record>)
    ensures r.Some? ==> r.value.start + r.value.length <= |buf|
  {
    match ReadName(buf, pos)
    case None => None
    case Some(owner) =>
      var p := owner.position;
      if p + 10 > |buf| then None
      else
        var length := Word16At(buf, p + 8);
        if p + 10 + length > |buf| then None
        else Some(Record(owner.name, Word16At(buf, p), FromWord32(buf[p + 4..p + 8]), p + 10, length))
  }

  /** The position behind so many questions. */
  function SkipQuestions(buf: Bytes, pos: nat, count: nat): Option<nat>
    decreases count
  {
    if count == 0 then Some(pos)
    else match ReadName(buf, pos)
         case None => None
         case Some(question) =>
           if question.position + 4 > |buf| then None else SkipQuestions(buf, question.position + 4, count - 1)
  }

  /** The records up to the first that cannot be read, and whether that was all of them. */
  datatype Walk = Walk(records: seq<Record>, complete: bool, end: nat)

  function Records(buf: Bytes, pos: nat, count: nat): Walk
    decreases count
  {
    if count == 0 then Walk([], true, pos)
    else match ReadRecord(buf, pos)
         case None => Walk([], false, pos)
         case Some(record) =>
           var rest := Records(buf, record.start + record.length, count - 1);
           rest.(records := [record] + rest.records)
  }

  /** The three record sections as one, in the order of the header's counts. */
  function RecordCount(buf: Bytes): nat
    requires |buf| >= 12
  {
    Word16At(buf, 6) + Word16At(buf, 8) + Word16At(buf, 10)
  }

  function ReadPacket(buf: Bytes): Walk
    requires |buf| >= 12
  {
    match SkipQuestions(buf, 12, Word16At(buf, 4))
    case None => Walk([], false, 12)
    case Some(pos) => Records(buf, pos, RecordCount(buf))
  }

  // ---------------------------------------------------------------- the writer

  /** A record to write: its owner's wire form and its data. */
  datatype Entry = Entry(owner: Bytes, kind: u16, rdata: Bytes)

  /** appendRecord. It passes the 32-bit TTL through a 16-bit variable and writes four bytes from there: on a
      little-endian host the first two are the high half of the TTL and the other two come from beyond the
      variable. So all four are a parameter here. */
  function EntryBytes(entry: Entry, flush: bool, ttl: Bytes): Bytes {
    entry.owner + Word16(entry.kind) + Word16(if flush then 0x8001 else 1) + ttl
    + Word16(|entry.rdata| % TWO16) + entry.rdata
  }

  type Ttls = nat -> Bytes

  ghost predicate GoodTtls(ttls: Ttls) { forall k: nat :: |ttls(k)| == 4 }

  /** The entries one after the other, the k-th with the k-th TTL; only the pointer record never asks for a flush. */
  function EntriesBytes(entries: seq<Entry>, flush: bool, ttls: Ttls, k: nat): Bytes
    decreases |entries|
  {
    if entries == [] then []
    else EntryBytes(entries[0], flush && entries[0].kind != TYPE_PTR, ttls(k))
         + EntriesBytes(entries[1..], flush, ttls, k + 1)
  }

  lemma {:induction false} EntriesSnoc(entries: seq<Entry>, last: Entry, flush: bool, ttls: Ttls, k: nat)
    ensures EntriesBytes(entries + [last], flush, ttls, k) == EntriesBytes(entries, flush, ttls, k)
      + EntryBytes(last, flush && last.kind != TYPE_PTR, ttls(k + |entries|))
    decreases |entries|
  {
    hide EntryBytes;
    if entries == [] {
      assert entries + [last] == [last] && [last][1..] == [];
    } else {
      assert (entries + [last])[1..] == entries[1..] + [last];
      EntriesSnoc(entries[1..], last, flush, ttls, k + 1);
    }
  }

  /** What the service advertises: the labels it drew, the TXT value, its port and its address. */
  datatype Identity = Identity(instance: Bytes, host: Bytes, info: Bytes, port: u16, ip: Bytes)

  const SERVICE_TYPE: Bytes := Ascii("_FC9F5ED42C8A._tcp.local")

  function InstanceName(c: Identity): Bytes { c.instance + [DOT] + SERVICE_TYPE }
  function HostName(c: Identity): Bytes { c.host + [DOT] + Ascii("local") }

  function TxtEntry(c: Identity): Bytes { Ascii("n=") + c.info }

  function Srv(c: Identity): Entry {
    Entry(Written(InstanceName(c)), TYPE_SRV, Word16(0) + Word16(0) + Word16(c.port) + Written(HostName(c)))
  }
  function Txt(c: Identity): Entry { Entry(Written(InstanceName(c)), TYPE_TXT, [|TxtEntry(c)| % 256] + TxtEntry(c)) }
  function Address(c: Identity): Entry { Entry(Written(HostName(c)), TYPE_A, c.ip) }
  function Ptr(c: Identity, owner: Bytes): Entry { Entry(owner, TYPE_PTR, Written(InstanceName(c))) }

  datatype Wants = Wants(ptr: bool, srv: bool, txt: bool, address: bool)

  function When(b: bool, e: Entry): seq<Entry> { if b then [e] else [] }

  function Answers(c: Identity, owner: Bytes, w: Wants): seq<Entry> {
    When(w.ptr, Ptr(c, owner)) + When(w.srv, Srv(c)) + When(w.txt, Txt(c)) + When(w.address, Address(c))
  }

  function Additionals(c: Identity, w: Wants): seq<Entry> {
    When(!w.srv, Srv(c)) + When(!w.txt, Txt(c)) + When(!w.address, Address(c))
  }

  function Header(id: u16, question: bool, answers: nat, additionals: nat): (r: Bytes)
    ensures |r| == 12
  {
    Word16(id) + Word16(0x8400) + Word16(if question then 1 else 0)
    + Word16(answers % TWO16) + Word16(0) + Word16(additionals % TWO16)
  }

  function Response(c: Identity, id: u16, flush: bool, owner: Bytes, w: Wants, question: Bytes, ttls: Ttls): Bytes {
    Header(id, question != [], |Answers(c, owner, w)|, |Additionals(c, w)|) + question
    + EntriesBytes(Answers(c, owner, w) + Additionals(c, w), flush, ttls, 0)
  }

  /** appendRecord on the packet built so far. */
  method AppendRecord(packet: Bytes, owner: Bytes, kind: u16, flush: bool, ttl: Bytes, rdata: Bytes) returns (r: Bytes)
    ensures r == packet + EntryBytes(Entry(owner, kind, rdata), flush, ttl)
  {
    r := packet + owner;
    r := r + Word16(kind);
    r := r + Word16(if flush then 0x8001 else 1);
    r := r + ttl;
    r := r + Word16(|rdata| % TWO16);
    r := r + rdata;
    assert r == packet + (owner + Word16(kind) + Word16(if flush then 0x8001 else 1) + ttl
                          + Word16(|rdata| % TWO16) + rdata);
  }

  /** The record each turn of the inner loop considers. */
  function Candidate(c: Identity, w: Wants, i: nat): (Entry, bool) {
    if i == 0 then (Srv(c), w.srv) else if i == 1 then (Txt(c), w.txt) else (Address(c), w.address)
  }

  /** The records of one pass: those wanted as answers, or the others. */
  function Pass(c: Identity, w: Wants, wanted: bool, n: nat): seq<Entry> {
    if n == 0 then []
    else Pass(c, w, wanted, n - 1) + When(Candidate(c, w, n - 1).1 == wanted, Candidate(c, w, n - 1).0)
  }

  lemma Passes(c: Identity, w: Wants, owner: Bytes)
    ensures When(w.ptr, Ptr(c, owner)) + Pass(c, w, true, 3) == Answers(c, owner, w)
    ensures Pass(c, w, false, 3) == Additionals(c, w)
  {
    hide Srv, Txt, Address, Ptr, Pass, When;
    NoPass(c, w, true);
    NextPass(c, w, true, 0);
    NextPass(c, w, true, 1);
    NextPass(c, w, true, 2);
    NoPass(c, w, false);
    NextPass(c, w, false, 0);
    NextPass(c, w, false, 1);
    NextPass(c, w, false, 2);
  }

  /** One pass over the three records. */
  method AppendPass(c: Identity, w: Wants, wanted: bool, flush: bool, ttls: Ttls, packet: Bytes, count: nat,
                    ghost done: seq<Entry>, ghost before: Bytes) returns (r: Bytes, added: nat)
    requires packet == before + EntriesBytes(done, flush, ttls, 0) && count == |done|
    ensures r == before + EntriesBytes(done + Pass(c, w, wanted, 3), flush, ttls, 0) && added == |Pass(c, w, wanted, 3)|
  {
    hide EntryBytes, EntriesBytes, Pass, Candidate;
    r, added := packet, 0;
    NoPass(c, w, wanted);
    assert done + [] == done;
    for i := 0 to 3
      invariant r == before + EntriesBytes(done + Pass(c, w, wanted, i), flush, ttls, 0)
      invariant added == |Pass(c, w, wanted, i)|
    {
      var (entry, asAnswer) := Candidate(c, w, i);
      NextPass(c, w, wanted, i);
      if wanted == asAnswer {
        ghost var so := done + Pass(c, w, wanted, i);
        NotPtr(c, w, i);
        EntriesSnoc(so, entry, flush, ttls, 0);
        r := AppendRecord(r, entry.owner, entry.kind, flush, ttls(count + added), entry.rdata);
        added := added + 1;
        assert so + [entry] == done + (Pass(c, w, wanted, i) + [entry]);
      } else {
        assert Pass(c, w, wanted, i) + [] == Pass(c, w, wanted, i);
      }
    }
  }

  /** The body is written behind a placeholder, which the counts then replace. */
  method BuildResponse(c: Identity, id: u16, flush: bool, owner: Bytes, w: Wants, question: Bytes,
                       ttls: Ttls) returns (packet: Bytes)
    ensures packet == Response(c, id, flush, owner, w, question, ttls)
  {
    hide EntryBytes, EntriesBytes, Ptr, Pass, Header, Answers, Additionals, InstanceName, Written;
    packet := Zeros(12) + question;
    ghost var before := packet;
    NoEntries(flush, ttls);
    assert before + [] == before;
    var an, ar := 0, 0;
    ghost var first := When(w.ptr, Ptr(c, owner));
    if w.ptr {
      PtrIs(c, owner);
      EntriesSnoc([], Ptr(c, owner), flush, ttls, 0);
      assert [] + [Ptr(c, owner)] == [Ptr(c, owner)];
      packet := AppendRecord(packet, owner, TYPE_PTR, false, ttls(0), Written(InstanceName(c)));
      an := 1;
    }
    var added: nat;
    packet, added := AppendPass(c, w, true, flush, ttls, packet, an, first, before);
    an := an + added;
    packet, ar := AppendPass(c, w, false, flush, ttls, packet, an, first + Pass(c, w, true, 3), before);
    Passes(c, w, owner);
    Behind(Zeros(12), question, EntriesBytes(Answers(c, owner, w) + Additionals(c, w), flush, ttls, 0));
    packet := Header(id, question != [], an, ar) + packet[12..];
  }

  lemma Behind(placeholder: Bytes, question: Bytes, body: Bytes)
    ensures (placeholder + question + body)[|placeholder|..] == question + body
    ensures forall header: Bytes :: header + (question + body) == header + question + body
  {
  }

  lemma NoEntries(flush: bool, ttls: Ttls)
    ensures EntriesBytes([], flush, ttls, 0) == []
  {
  }

  lemma PtrIs(c: Identity, owner: Bytes)
    ensures Ptr(c, owner) == Entry(owner, TYPE_PTR, Written(InstanceName(c)))
  {
  }

  lemma NoPass(c: Identity, w: Wants, wanted: bool)
    ensures Pass(c, w, wanted, 0) == []
  {
  }

  lemma NextPass(c: Identity, w: Wants, wanted: bool, i: nat)
    ensures Pass(c, w, wanted, i + 1)
         == Pass(c, w, wanted, i) + When(Candidate(c, w, i).1 == wanted, Candidate(c, w, i).0)
  {
    hide Candidate;
  }

  lemma NotPtr(c: Identity, w: Wants, i: nat)
    ensures Candidate(c, w, i).0.kind != TYPE_PTR
  {
  }
}
