/** The discovery cache as one store of records: what an expiry, a resource record, a packet and a new
    scan make of it. The nine hash maps of DiscoveryCache.dfy refine it. */
module DiscoveryStore {
  import opened ByteStrings
  import opened DnsName
  import opened DnsPacket

  datatype Instance = Instance(expiry: int, seen: int)
  datatype Service = Service(host: Bytes, port: u16, expiry: int)
  datatype Text = Text(value: Bytes, expiry: int)
  datatype HostAddress = HostAddress(ip: Bytes, expiry: int)

  datatype Store = Store(
    instances: map<Bytes, Instance>, services: map<Bytes, Service>, texts: map<Bytes, Text>,
    addresses: map<Bytes, HostAddress>)

  const EMPTY := Store(map[], map[], map[], map[])

  /** recordExpiry: at most a day. */
  function Expiry(now: int, ttl: u32): int { now + (if ttl < 86400 then ttl else 86400) * 1000 }

  // ---------------------------------------------------------------- expiry

  function DropInstances(s: Store, gone: set<Bytes>): Store {
    s.(instances := s.instances - gone, services := s.services - gone, texts := s.texts - gone)
  }

  function DeadInstances(s: Store, now: int): set<Bytes> { set k | k in s.instances && s.instances[k].expiry <= now }
  function DeadServices(s: Store, now: int): set<Bytes> { set k | k in s.services && s.services[k].expiry <= now }
  function DeadTexts(s: Store, now: int): set<Bytes> { set k | k in s.texts && s.texts[k].expiry <= now }
  function DeadAddresses(s: Store, now: int): set<Bytes> { set k | k in s.addresses && s.addresses[k].expiry <= now }

  /** An instance takes its service and text records with it; the rest go one by one. */
  function Expired(s: Store, now: int): Store {
    var s1 := DropInstances(s, DeadInstances(s, now));
    s1.(services := s1.services - DeadServices(s1, now), texts := s1.texts - DeadTexts(s1, now),
        addresses := s1.addresses - DeadAddresses(s1, now))
  }

  ghost predicate DeadInstance(s: Store, now: int, k: Bytes) { k in s.instances && s.instances[k].expiry <= now }

  /** Exactly what an expiry keeps: an instance or an address until its own deadline, a service or a text
      until its own deadline or its instance's; what is kept is kept unchanged. */
  lemma ExpiryKeeps(s: Store, now: int)
    ensures var t := Expired(s, now);
      && (forall k :: k in t.instances <==> k in s.instances && s.instances[k].expiry > now)
      && (forall k :: k in t.services <==> k in s.services && s.services[k].expiry > now && !DeadInstance(s, now, k))
      && (forall k :: k in t.texts <==> k in s.texts && s.texts[k].expiry > now && !DeadInstance(s, now, k))
      && (forall k :: k in t.addresses <==> k in s.addresses && s.addresses[k].expiry > now)
    ensures var t := Expired(s, now);
      && (forall k :: k in t.instances ==> t.instances[k] == s.instances[k])
      && (forall k :: k in t.services ==> t.services[k] == s.services[k])
      && (forall k :: k in t.texts ==> t.texts[k] == s.texts[k])
      && (forall k :: k in t.addresses ==> t.addresses[k] == s.addresses[k])
  {
  }

  /** So nothing stale is left for a second expiry. */
  lemma NothingStale(s: Store, now: int)
    ensures Expired(Expired(s, now), now) == Expired(s, now)
  {
    hide Expired;
    var t := Expired(s, now);
    var u := Expired(t, now);
    ExpiryKeeps(s, now);
    ExpiryKeeps(t, now);
    assert u.instances == t.instances && u.services == t.services && u.texts == t.texts && u.addresses == t.addresses;
  }

  // ---------------------------------------------------------------- one record

  const TYPE_NAME: Bytes := Lower(SERVICE_TYPE)

  predicate UnderType(name: Bytes) {
    var suffix := [DOT] + TYPE_NAME;
    |suffix| <= |name| && name[|name| - |suffix|..] == suffix
  }

  /** The value of the last "n=" entry before the first entry that does not fit. */
  function TextValue(buf: Bytes, pos: nat, end: nat): Option<Bytes>
    requires end <= |buf|
    decreases end - pos
  {
    if pos >= end || pos + 1 + buf[pos] as int > end then None
    else
      Later(buf[pos + 1..pos + 1 + buf[pos] as int], TextValue(buf, pos + 1 + buf[pos] as int, end))
  }

  lemma NextEntry(buf: Bytes, pos: nat, end: nat, next: nat, entry: Bytes)
    requires pos < end <= |buf| && next == pos + 1 + buf[pos] as int
    requires next <= end ==> entry == buf[pos + 1..next]
    ensures TextValue(buf, pos, end) == if next > end then None else Later(entry, TextValue(buf, next, end))
  {
    if next <= end {
      var later := TextValue(buf, next, end);
      assert TextValue(buf, pos, end) == Later(entry, later);
    }
  }

  lemma NoEntry(buf: Bytes, pos: nat, end: nat)
    requires end <= |buf| && pos >= end
    ensures TextValue(buf, pos, end) == None
  {
  }

  function Later(entry: Bytes, later: Option<Bytes>): Option<Bytes> {
    if later.Some? then later else if Ascii("n=") <= entry then Some(entry[2..]) else None
  }

  /** The first three bytes of the address of the interface in use, if there is one. */
  predicate SameNetwork(local: Option<Bytes>, ip: Bytes)
    requires local.Some? ==> |local.value| == 4
  {
    local.Some? && |ip| >= 3 && ip[..3] == local.value[..3]
  }

  /** An address is replaced only by the first one on the interface's own network. */
  function Better(local: Option<Bytes>, current: Option<Bytes>, candidate: Bytes): Bytes
    requires local.Some? ==> |local.value| == 4
  {
    if current == None || (SameNetwork(local, candidate) && !SameNetwork(local, current.value))
    then candidate else current.value
  }

  datatype Applied = Applied(store: Store, changed: bool)

  function ApplyPtr(s: Store, buf: Bytes, r: Record, now: int): Applied {
    match ReadName(buf, r.start)
    case None => Applied(s, false)
    case Some(target) =>
      if r.ttl == 0 then Applied(DropInstances(s, {target.name}), true)
      else Applied(s.(instances := s.instances[target.name := Instance(Expiry(now, r.ttl), now)]), true)
  }

  function ApplySrv(s: Store, buf: Bytes, r: Record, now: int): Applied
    requires r.start + r.length <= |buf| && r.length >= 6
  {
    match ReadName(buf, r.start + 6)
    case None => Applied(s, false)
    case Some(target) =>
      if r.ttl == 0 then Applied(s.(services := s.services - {r.name}), true)
      else
        var service := Service(target.name, Word16At(buf, r.start + 4), Expiry(now, r.ttl));
        Applied(s.(services := s.services[r.name := service]), true)
  }

  function ApplyTxt(s: Store, buf: Bytes, r: Record, now: int): Applied
    requires r.start + r.length <= |buf|
  {
    if r.ttl == 0 then Applied(s.(texts := s.texts - {r.name}), true)
    else PutText(s, r.name, TextValue(buf, r.start, r.start + r.length), Expiry(now, r.ttl))
  }

  function PutText(s: Store, name: Bytes, value: Option<Bytes>, expiry: int): Applied {
    match value
    case None => Applied(s, false)
    case Some(v) => Applied(s.(texts := s.texts[name := Text(v, expiry)]), true)
  }

  function CurrentIp(s: Store, host: Bytes): Option<Bytes> {
    if host in s.addresses then Some(s.addresses[host].ip) else None
  }

  function ApplyAddress(s: Store, buf: Bytes, r: Record, now: int, local: Option<Bytes>): Applied
    requires r.start + r.length <= |buf| && r.length == 4 && (local.Some? ==> |local.value| == 4)
  {
    if r.ttl == 0 then Applied(s.(addresses := s.addresses - {r.name}), true)
    else
      var ip := Better(local, CurrentIp(s, r.name), buf[r.start..r.start + 4]);
      Applied(s.(addresses := s.addresses[r.name := HostAddress(ip, Expiry(now, r.ttl))]), true)
  }

  function Apply(s: Store, buf: Bytes, r: Record, now: int, local: Option<Bytes>): Applied
    requires r.start + r.length <= |buf| && (local.Some? ==> |local.value| == 4)
  {
    if r.kind == TYPE_PTR && r.name == TYPE_NAME then ApplyPtr(s, buf, r, now)
    else if r.kind == TYPE_SRV && r.length >= 6 && UnderType(r.name) then ApplySrv(s, buf, r, now)
    else if r.kind == TYPE_TXT && UnderType(r.name) then ApplyTxt(s, buf, r, now)
    else if r.kind == TYPE_A && r.length == 4 then ApplyAddress(s, buf, r, now, local)
    else Applied(s, false)
  }

  // ---------------------------------------------------------------- a packet

  function ApplyAll(s: Store, buf: Bytes, records: seq<Record>, now: int, local: Option<Bytes>): Applied
    requires (forall r :: r in records ==> r.start + r.length <= |buf|) && (local.Some? ==> |local.value| == 4)
    decreases |records|
  {
    if records == [] then Applied(s, false)
    else
      assert records[0] in records;
      var first := Apply(s, buf, records[0], now, local);
      var rest := ApplyAll(first.store, buf, records[1..], now, local);
      rest.(changed := first.changed || rest.changed)
  }

  lemma {:induction false} RecordsInside(buf: Bytes, pos: nat, count: nat)
    ensures forall r :: r in Records(buf, pos, count).records ==> r.start + r.length <= |buf|
    decreases count
  {
    hide ReadRecord;
    if count > 0 && ReadRecord(buf, pos).Some? {
      var record := ReadRecord(buf, pos).value;
      RecordsInside(buf, record.start + record.length, count - 1);
    }
  }

  lemma PacketInside(buf: Bytes)
    requires |buf| >= 12
    ensures forall r :: r in ReadPacket(buf).records ==> r.start + r.length <= |buf|
  {
    hide Records;
    var start := SkipQuestions(buf, 12, Word16At(buf, 4));
    if start.Some? {
      RecordsInside(buf, start.value, RecordCount(buf));
    }
  }

  /** Records taken as they are read, up to the first that cannot be read. */
  datatype Outcome = Outcome(store: Store, changed: bool, complete: bool)

  function ApplyWalk(s: Store, buf: Bytes, pos: nat, count: nat, now: int, local: Option<Bytes>): Outcome
    requires local.Some? ==> |local.value| == 4
    decreases count
  {
    if count == 0 then Outcome(s, false, true)
    else match ReadRecord(buf, pos)
         case None => Outcome(s, false, false)
         case Some(record) =>
           var first := Apply(s, buf, record, now, local);
           var rest := ApplyWalk(first.store, buf, record.start + record.length, count - 1, now, local);
           rest.(changed := first.changed || rest.changed)
  }

  /** Which is the same as walking first. */
  lemma {:induction false} WalkThenApply(s: Store, buf: Bytes, pos: nat, count: nat, now: int, local: Option<Bytes>)
    requires local.Some? ==> |local.value| == 4
    ensures forall r :: r in Records(buf, pos, count).records ==> r.start + r.length <= |buf|
    ensures var walk := Records(buf, pos, count);
      var applied := ApplyAll(s, buf, walk.records, now, local);
      ApplyWalk(s, buf, pos, count, now, local) == Outcome(applied.store, applied.changed, walk.complete)
    decreases count
  {
    hide ReadRecord, Apply;
    RecordsInside(buf, pos, count);
    if count > 0 && ReadRecord(buf, pos).Some? {
      var record := ReadRecord(buf, pos).value;
      var rest := Records(buf, record.start + record.length, count - 1);
      assert Records(buf, pos, count).records == [record] + rest.records;
      assert ([record] + rest.records)[1..] == rest.records;
      WalkThenApply(Apply(s, buf, record, now, local).store, buf, record.start + record.length, count - 1, now, local);
    }
  }

  /** parseDiscoveryPacket: a packet cut short still changes the cache, but is not published. */
  datatype Parsed = Parsed(store: Store, published: bool)

  function Parse(s: Store, buf: Bytes, now: int, local: Option<Bytes>): Parsed
    requires local.Some? ==> |local.value| == 4
  {
    if |buf| < 12 then Parsed(s, false)
    else match SkipQuestions(buf, 12, Word16At(buf, 4))
         case None => Parsed(Expired(s, now), false)
         case Some(pos) =>
           var walked := ApplyWalk(Expired(s, now), buf, pos, RecordCount(buf), now, local);
           Parsed(walked.store, walked.complete && (Expired(s, now) != s || walked.changed))
  }

  /** The packet's records one after the other on the cache without its stale entries; and what is
      published is the cache exactly when the packet was whole and something changed. */
  lemma ParseMeaning(s: Store, buf: Bytes, now: int, local: Option<Bytes>)
    requires |buf| >= 12 && (local.Some? ==> |local.value| == 4)
    ensures var walk := ReadPacket(buf);
      && (forall r :: r in walk.records ==> r.start + r.length <= |buf|)
      && var applied := ApplyAll(Expired(s, now), buf, walk.records, now, local);
         Parse(s, buf, now, local) == Parsed(applied.store, walk.complete && (Expired(s, now) != s || applied.changed))
  {
    hide Records, ApplyWalk, SkipQuestions, Apply, Expired;
    match SkipQuestions(buf, 12, Word16At(buf, 4))
    case None =>
    case Some(pos) => WalkThenApply(Expired(s, now), buf, pos, RecordCount(buf), now, local);
  }
}
