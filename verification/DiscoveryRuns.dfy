/** Whole runs of the discovery cache: which address a host keeps, and what an advertisement brings about. */
module DiscoveryRuns {
  import opened ByteStrings
  import opened DnsName
  import opened DnsPacket
  import opened DnsResponse
  import opened DiscoveryStore

  type Local = l: Option<Bytes> | l.Some? ==> |l.value| == 4 witness None

  /** A packet arrives, the worker loop looks for stale records, or the user starts a new scan. */
  datatype Event = Packet(buf: Bytes, now: int) | Tick(now: int) | NewScan

  function Next(s: Store, event: Event, local: Local): Store {
    match event
    case Packet(buf, now) => Parse(s, buf, now, local).store
    case Tick(now) => Expired(s, now)
    case NewScan => EMPTY
  }

  function Run(s: Store, events: seq<Event>, local: Local): Store
    decreases |events|
  {
    if events == [] then s else Run(Next(s, events[0], local), events[1..], local)
  }

  // ---------------------------------------------------------------- what has been heard of a host

  /** The cap on lifetimes, in seconds. */
  function DayAtMost(ttl: u32): u32 { if ttl > 24 * 60 * 60 then 24 * 60 * 60 else ttl }

  /** The addresses advertised for a host since it was last removed, and when the latest runs out. */
  datatype Heard = Heard(ips: seq<Bytes>, expiry: int)

  function HearRecord(h: Option<Heard>, host: Bytes, buf: Bytes, r: Record, now: int): Option<Heard>
    requires r.start + r.length <= |buf|
  {
    if r.kind != TYPE_A || r.length != 4 || r.name != host then h
    else if r.ttl == 0 then None
    else Some(Heard((if h.Some? then h.value.ips else []) + [buf[r.start..r.start + 4]],
                    now + 1000 * DayAtMost(r.ttl)))
  }

  function HearAll(h: Option<Heard>, host: Bytes, buf: Bytes, records: seq<Record>, now: int): Option<Heard>
    requires forall r :: r in records ==> r.start + r.length <= |buf|
    decreases |records|
  {
    if records == [] then h
    else
      assert records[0] in records;
      HearAll(HearRecord(h, host, buf, records[0], now), host, buf, records[1..], now)
  }

  function Forget(h: Option<Heard>, now: int): Option<Heard> { if h.Some? && h.value.expiry <= now then None else h }

  function HearEvent(h: Option<Heard>, host: Bytes, event: Event): Option<Heard> {
    match event
    case NewScan => None
    case Tick(now) => Forget(h, now)
    case Packet(buf, now) =>
      if |buf| < 12 then h
      else
        PacketInside(buf);
        HearAll(Forget(h, now), host, buf, ReadPacket(buf).records, now)
  }

  function HearRun(h: Option<Heard>, host: Bytes, events: seq<Event>): Option<Heard>
    decreases |events|
  {
    if events == [] then h else HearRun(HearEvent(h, host, events[0]), host, events[1..])
  }

  // ---------------------------------------------------------------- the address kept

  /** The first address on the interface's own network. */
  function FirstLocal(local: Local, ips: seq<Bytes>): Option<Bytes> {
    if ips == [] then None else if SameNetwork(local, ips[0]) then Some(ips[0]) else FirstLocal(local, ips[1..])
  }

  /** That one if there is one, and else the first of all. */
  function Kept(local: Local, ips: seq<Bytes>): Bytes
    requires ips != []
  {
    var first := FirstLocal(local, ips);
    if first.Some? then first.value else ips[0]
  }

  lemma {:induction false} FirstLocalSnoc(local: Local, ips: seq<Bytes>, ip: Bytes)
    ensures FirstLocal(local, ips + [ip]) ==
      if FirstLocal(local, ips).Some? then FirstLocal(local, ips) else if SameNetwork(local, ip) then Some(ip) else None
    ensures FirstLocal(local, ips).Some? ==> SameNetwork(local, FirstLocal(local, ips).value)
    ensures ips != [] && FirstLocal(local, ips) == None ==> !SameNetwork(local, ips[0])
  {
    if ips == [] {
      assert ips + [ip] == [ip] && [ip][1..] == [];
    } else {
      assert (ips + [ip])[1..] == ips[1..] + [ip];
      FirstLocalSnoc(local, ips[1..], ip);
    }
  }

  /** An address whose first three bytes are those of the interface's own. */
  ghost predicate Near(local: Local, ip: Bytes) {
    local.Some? && |ip| >= 3 && forall i :: 0 <= i < 3 ==> ip[i] == local.value[i]
  }

  lemma NearIs(local: Local, ip: Bytes)
    ensures SameNetwork(local, ip) <==> Near(local, ip)
  {
    if Near(local, ip) {
      assert ip[..3] == [ip[0], ip[1], ip[2]] && local.value[..3] == [local.value[0], local.value[1], local.value[2]];
    }
    if SameNetwork(local, ip) {
      assert forall i :: 0 <= i < 3 ==> ip[i] == ip[..3][i] && local.value[i] == local.value[..3][i];
    }
  }

  lemma {:induction false} FirstLocalIs(local: Local, ips: seq<Bytes>)
    ensures match FirstLocal(local, ips)
            case None => forall i :: 0 <= i < |ips| ==> !Near(local, ips[i])
            case Some(ip) => exists i :: 0 <= i < |ips| && ips[i] == ip && FirstNear(local, ips, i)
  {
    hide Near, SameNetwork;
    if ips != [] {
      NearIs(local, ips[0]);
      FirstLocalIs(local, ips[1..]);
      assert forall i :: 0 <= i < |ips[1..]| ==> ips[1..][i] == ips[i + 1];
      if FirstLocal(local, ips).Some? {
        if Near(local, ips[0]) {
          assert FirstNear(local, ips, 0);
        } else {
          var i :| 0 <= i < |ips[1..]| && ips[1..][i] == FirstLocal(local, ips).value && FirstNear(local, ips[1..], i);
          assert FirstNear(local, ips, i + 1);
        }
      }
    }
  }

  ghost predicate FirstNear(local: Local, ips: seq<Bytes>, i: nat)
    requires i < |ips|
  {
    Near(local, ips[i]) && forall j :: 0 <= j < i ==> !Near(local, ips[j])
  }

  /** What is kept is the first near address, or, when none is near, the first of all. */
  lemma KeptMeaning(local: Local, ips: seq<Bytes>)
    requires ips != []
    ensures (exists i :: 0 <= i < |ips| && ips[i] == Kept(local, ips) && FirstNear(local, ips, i))
      || ((forall i :: 0 <= i < |ips| ==> !Near(local, ips[i])) && Kept(local, ips) == ips[0])
  {
    hide Near, FirstLocal;
    FirstLocalIs(local, ips);
  }

  /** One step of the cache's choice is the choice over the whole history. */
  lemma BetterIsKept(local: Local, ips: seq<Bytes>, ip: Bytes)
    ensures Better(local, if ips == [] then None else Some(Kept(local, ips)), ip) == Kept(local, ips + [ip])
  {
    FirstLocalSnoc(local, ips, ip);
  }

  /** The cache holds for the host what its history says. */
  ghost predicate Follows(s: Store, host: Bytes, h: Option<Heard>, local: Local) {
    match h
    case None => host !in s.addresses
    case Some(heard) =>
      heard.ips != [] && host in s.addresses && s.addresses[host] == HostAddress(Kept(local, heard.ips), heard.expiry)
  }

  lemma RecordFollows(s: Store, host: Bytes, h: Option<Heard>, buf: Bytes, r: Record, now: int, local: Local)
    requires Follows(s, host, h, local) && r.start + r.length <= |buf|
    ensures Follows(Apply(s, buf, r, now, local).store, host, HearRecord(h, host, buf, r, now), local)
  {
    hide ReadName, UnderType, Kept, Better, TextValue;
    if r.kind == TYPE_A && r.length == 4 && r.name == host && r.ttl != 0 {
      BetterIsKept(local, if h.Some? then h.value.ips else [], buf[r.start..r.start + 4]);
    }
  }

  lemma {:induction false} RecordsFollow(s: Store, host: Bytes, h: Option<Heard>, buf: Bytes, records: seq<Record>,
                                         now: int, local: Local)
    requires Follows(s, host, h, local) && forall r :: r in records ==> r.start + r.length <= |buf|
    ensures Follows(ApplyAll(s, buf, records, now, local).store, host, HearAll(h, host, buf, records, now), local)
    decreases |records|
  {
    hide Apply, HearRecord, Follows;
    if records != [] {
      assert records[0] in records;
      RecordFollows(s, host, h, buf, records[0], now, local);
      RecordsFollow(Apply(s, buf, records[0], now, local).store, host, HearRecord(h, host, buf, records[0], now),
                    buf, records[1..], now, local);
    }
  }

  lemma ExpiryFollows(s: Store, host: Bytes, h: Option<Heard>, now: int, local: Local)
    requires Follows(s, host, h, local)
    ensures Follows(Expired(s, now), host, Forget(h, now), local)
  {
    hide Kept;
  }

  lemma EventFollows(s: Store, host: Bytes, h: Option<Heard>, event: Event, local: Local)
    requires Follows(s, host, h, local)
    ensures Follows(Next(s, event, local), host, HearEvent(h, host, event), local)
  {
    hide Follows, Expired, ApplyAll, HearAll, Parse, ReadPacket;
    match event
    case NewScan => NothingKept(host, local);
    case Tick(now) => ExpiryFollows(s, host, h, now, local);
    case Packet(buf, now) =>
      if |buf| < 12 {
        TooShort(s, buf, now, local);
      } else {
        ExpiryFollows(s, host, h, now, local);
        ParseMeaning(s, buf, now, local);
        RecordsFollow(Expired(s, now), host, Forget(h, now), buf, ReadPacket(buf).records, now, local);
      }
  }

  lemma NothingKept(host: Bytes, local: Local)
    ensures Follows(EMPTY, host, None, local)
  {
  }

  lemma TooShort(s: Store, buf: Bytes, now: int, local: Local)
    requires |buf| < 12
    ensures Parse(s, buf, now, local) == Parsed(s, false)
  {
  }

  lemma {:induction false} RunFollows(s: Store, host: Bytes, h: Option<Heard>, events: seq<Event>, local: Local)
    requires Follows(s, host, h, local)
    ensures Follows(Run(s, events, local), host, HearRun(h, host, events), local)
    decreases |events|
  {
    hide Follows, Next, HearEvent;
    if events != [] {
      EventFollows(s, host, h, events[0], local);
      RunFollows(Next(s, events[0], local), host, HearEvent(h, host, events[0]), events[1..], local);
    }
  }

  /** After any packets, expiries and scans: a host is in the cache exactly if it has been advertised since
      it was last removed, and then with the first address on the interface's network, or else the first. */
  lemma AddressesStick(host: Bytes, events: seq<Event>, local: Local)
    ensures var s, h := Run(EMPTY, events, local), HearRun(None, host, events);
      && (host in s.addresses <==> h.Some?)
      && (h.Some? ==> h.value.ips != [] && s.addresses[host] == HostAddress(Kept(local, h.value.ips), h.value.expiry))
  {
    hide Run, HearRun, Kept;
    NothingKept(host, local);
    RunFollows(EMPTY, host, None, events, local);
  }

  // ---------------------------------------------------------------- an advertisement is understood

  /** What was heard of the service, kind by kind: whether the record's TTL was other than zero. */
  type Lives = map<u16, bool>

  /** What the cache is to hold of the service after those records; `prior` is the host's address before them. */
  ghost predicate Holds(s: Store, c: Identity, lives: Lives, prior: Option<Bytes>, local: Local) {
    var name, host := Lower(InstanceName(c)), Lower(HostName(c));
    && (TYPE_SRV in lives ==> if lives[TYPE_SRV] then ServiceKnown(s, name, host, c.port) else name !in s.services)
    && (TYPE_TXT in lives ==> if lives[TYPE_TXT] then TextKnown(s, name, c.info) else name !in s.texts)
    && CurrentIp(s, host) ==
         if TYPE_A !in lives then prior else if lives[TYPE_A] then Some(Better(local, prior, c.ip)) else None
  }

  ghost predicate ServiceKnown(s: Store, name: Bytes, host: Bytes, port: u16) {
    name in s.services && s.services[name].host == host && s.services[name].port == port
  }

  ghost predicate TextKnown(s: Store, name: Bytes, value: Bytes) { name in s.texts && s.texts[name].value == value }

  /** The instance leads to the host, port, text and address that the service advertises. */
  ghost predicate Resolves(s: Store, c: Identity) {
    var name, host := Lower(InstanceName(c)), Lower(HostName(c));
    ServiceKnown(s, name, host, c.port) && TextKnown(s, name, c.info) && CurrentIp(s, host) == Some(c.ip)
  }

  lemma ServiceNames(c: Identity)
    ensures UnderType(Lower(InstanceName(c)))
  {
    hide Ascii;
    LowerAppend(c.instance + [DOT], SERVICE_TYPE);
    LowerAppend(c.instance, [DOT]);
    assert Lower([DOT]) == [DOT];
    var name, suffix := Lower(InstanceName(c)), [DOT] + TYPE_NAME;
    assert name == Lower(c.instance) + suffix;
    assert name[|name| - |suffix|..] == suffix;
  }

  lemma SrvKnown(s: Store, c: Identity, buf: Bytes, r: Record, now: int)
    requires GoodIdentity(c) && r.start + r.length <= |buf|
    requires r.length == |Srv(c).rdata| && buf[r.start..r.start + r.length] == Srv(c).rdata
    ensures r.length >= 6
    ensures ApplySrv(s, buf, r, now).store == s.(services :=
      if r.ttl == 0 then s.services - {r.name}
      else s.services[r.name := Service(Lower(HostName(c)), c.port, Expiry(now, r.ttl))])
  {
    hide ReadName, Word16, Word16At, Encoded, Written, Lower, Ascii, InstanceName, HostName, InstanceLabels,
         HostLabels, Join;
    NamesWritten(c);
    var whole, host := Srv(c).rdata, Written(HostName(c));
    assert whole == Word16(0) + Word16(0) + Word16(c.port) + host;
    assert whole[4..6] == Word16(c.port) && whole[6..6 + |host|] == host;
    Part(buf, r.start, whole, 4, Word16(c.port));
    Part(buf, r.start, whole, 6, host);
    WordAt(buf, r.start + 4, c.port);
    FewHostLabels(c);
    EncodedRead(buf, r.start + 6, HostLabels(c));
  }

  lemma FewHostLabels(c: Identity)
    ensures |HostLabels(c)| == 2
  {
  }

  lemma TxtKnown(c: Identity, buf: Bytes, start: nat, length: nat)
    requires GoodIdentity(c) && start + length <= |buf|
    requires length == |Txt(c).rdata| && buf[start..start + length] == Txt(c).rdata
    ensures TextValue(buf, start, start + length) == Some(c.info)
  {
    hide TextValue, Ascii, Written, InstanceName;
    var whole, entry := Txt(c).rdata, TxtEntry(c);
    assert whole == [|entry|] + entry;
    assert buf[start] == buf[start..start + length][0];
    assert whole[1..1 + |entry|] == entry;
    Part(buf, start, whole, 1, entry);
    NextEntry(buf, start, start + length, start + 1 + |entry|, entry);
    NoEntry(buf, start + 1 + |entry|, start + length);
    assert entry[2..] == c.info;
  }

  type Ttl = b: Bytes | |b| == 4 witness [0, 0, 0, 0]

  ghost predicate OneOfFour(c: Identity, owner: seq<Bytes>, entry: Entry) {
    entry == Ptr(c, Encoded(owner)) || entry == Srv(c) || entry == Txt(c) || entry == Address(c)
  }

  lemma SrvHeld(s: Store, c: Identity, lives: Lives, prior: Option<Bytes>, buf: Bytes, r: Record,
                ttl: Ttl, now: int, local: Local)
    requires GoodIdentity(c) && Holds(s, c, lives, prior, local) && TYPE_SRV !in lives
    requires Recovers(buf, r, Srv(c), InstanceLabels(c), ttl)
    ensures Holds(Apply(s, buf, r, now, local).store, c, lives[TYPE_SRV := FromWord32(ttl) != 0], prior, local)
  {
    hide ReadName, Word16, Word16At, Encoded, Written, Lower, Ascii, InstanceName, HostName, InstanceLabels,
         HostLabels, Join, UnderType, TextValue, FromWord32, ApplySrv, TxtEntry, Better, GoodIdentity;
    NamesWritten(c);
    ServiceNames(c);
    SrvKnown(s, c, buf, r, now);
  }

  lemma TxtHeld(s: Store, c: Identity, lives: Lives, prior: Option<Bytes>, buf: Bytes, r: Record,
                ttl: Ttl, now: int, local: Local)
    requires GoodIdentity(c) && Holds(s, c, lives, prior, local) && TYPE_TXT !in lives
    requires Recovers(buf, r, Txt(c), InstanceLabels(c), ttl)
    ensures Holds(Apply(s, buf, r, now, local).store, c, lives[TYPE_TXT := FromWord32(ttl) != 0], prior, local)
  {
    hide ReadName, Word16, Word16At, Encoded, Written, Lower, Ascii, InstanceName, HostName, InstanceLabels,
         HostLabels, Join, UnderType, TextValue, FromWord32, ApplySrv, TxtEntry, Better, GoodIdentity;
    NamesWritten(c);
    ServiceNames(c);
    TxtKnown(c, buf, r.start, r.length);
  }

  lemma AddressHeld(s: Store, c: Identity, lives: Lives, prior: Option<Bytes>, buf: Bytes, r: Record,
                    ttl: Ttl, now: int, local: Local)
    requires GoodIdentity(c) && Holds(s, c, lives, prior, local) && TYPE_A !in lives
    requires Recovers(buf, r, Address(c), HostLabels(c), ttl)
    ensures Holds(Apply(s, buf, r, now, local).store, c, lives[TYPE_A := FromWord32(ttl) != 0], prior, local)
  {
    hide ReadName, Word16, Word16At, Encoded, Written, Lower, Ascii, InstanceName, HostName, InstanceLabels,
         HostLabels, Join, UnderType, TextValue, FromWord32, ApplySrv, TxtEntry, Better, GoodIdentity;
    NamesWritten(c);
    ServiceNames(c);
    AddressSize(c);
  }

  lemma PtrHeld(s: Store, c: Identity, lives: Lives, prior: Option<Bytes>, buf: Bytes, r: Record, owner: seq<Bytes>,
                ttl: Ttl, now: int, local: Local)
    requires GoodIdentity(c) && Holds(s, c, lives, prior, local) && lives == map[]
    requires Recovers(buf, r, Ptr(c, Encoded(owner)), owner, ttl)
    ensures Holds(Apply(s, buf, r, now, local).store, c, lives[TYPE_PTR := FromWord32(ttl) != 0], prior, local)
  {
    hide ReadName, Word16, Word16At, Encoded, Written, Lower, Ascii, InstanceName, HostName, InstanceLabels,
         HostLabels, Join, UnderType, TextValue, FromWord32, ApplySrv, TxtEntry, Better, GoodIdentity;
    NamesWritten(c);
    ServiceNames(c);
  }

  lemma AddressSize(c: Identity)
    requires GoodIdentity(c)
    ensures |Address(c).rdata| == 4
  {
  }

  lemma EntryHeld(s: Store, c: Identity, lives: Lives, prior: Option<Bytes>, buf: Bytes, r: Record, entry: Entry,
                  owner: seq<Bytes>, ttl: Ttl, now: int, local: Local)
    requires GoodIdentity(c) && Holds(s, c, lives, prior, local) && OneOfFour(c, owner, entry)
    requires Recovers(buf, r, entry, OwnerOf(c, owner, entry), ttl)
    requires entry.kind !in lives && (entry.kind == TYPE_PTR ==> lives == map[])
    ensures Holds(Apply(s, buf, r, now, local).store, c, lives[entry.kind := FromWord32(ttl) != 0], prior, local)
  {
    assert Srv(c).kind == TYPE_SRV && Txt(c).kind == TYPE_TXT && Address(c).kind == TYPE_A;
    PtrKind(c, Encoded(owner));
    hide GoodIdentity, Holds, Recovers, Srv, Txt, Address, Ptr, Encoded, InstanceLabels, HostLabels, FromWord32, Apply;
    if entry == Srv(c) {
      SrvHeld(s, c, lives, prior, buf, r, ttl, now, local);
    } else if entry == Txt(c) {
      TxtHeld(s, c, lives, prior, buf, r, ttl, now, local);
    } else if entry == Address(c) {
      AddressHeld(s, c, lives, prior, buf, r, ttl, now, local);
    } else {
      PtrHeld(s, c, lives, prior, buf, r, owner, ttl, now, local);
    }
  }

  function AllLives(lives: Lives, entries: seq<Entry>, ttls: seq<Ttl>): Lives
    requires |entries| == |ttls|
    decreases |entries|
  {
    if entries == [] then lives
    else AllLives(lives[entries[0].kind := FromWord32(ttls[0]) != 0], entries[1..], ttls[1..])
  }

  /** Each kind at most once, and a pointer record, which may take the others with it, in front. */
  ghost predicate Arranged(kinds: set<u16>, entries: seq<Entry>) {
    && (forall i :: 0 <= i < |entries| ==> entries[i].kind !in kinds)
    && (forall i, j :: 0 <= i < j < |entries| ==> entries[i].kind != entries[j].kind)
    && (forall i :: 0 <= i < |entries| && entries[i].kind == TYPE_PTR ==> i == 0 && kinds == {})
  }

  lemma {:induction false} LivesAt(lives: Lives, entries: seq<Entry>, ttls: seq<Ttl>)
    requires |entries| == |ttls| && Arranged(lives.Keys, entries)
    ensures forall k :: k in lives ==>
      k in AllLives(lives, entries, ttls) && AllLives(lives, entries, ttls)[k] == lives[k]
    ensures forall i :: 0 <= i < |entries| ==>
      && entries[i].kind in AllLives(lives, entries, ttls)
      && AllLives(lives, entries, ttls)[entries[i].kind] == (FromWord32(ttls[i]) != 0)
    decreases |entries|
  {
    hide FromWord32;
    if entries != [] {
      var next := lives[entries[0].kind := FromWord32(ttls[0]) != 0];
      LivesAt(next, entries[1..], ttls[1..]);
      forall i | 0 <= i < |entries|
        ensures entries[i].kind in AllLives(lives, entries, ttls)
        ensures AllLives(lives, entries, ttls)[entries[i].kind] == (FromWord32(ttls[i]) != 0)
      {
        if i > 0 {
          assert entries[i] == entries[1..][i - 1] && ttls[i] == ttls[1..][i - 1];
        }
      }
    }
  }

  ghost predicate AllRecovered(c: Identity, buf: Bytes, records: seq<Record>, entries: seq<Entry>, owner: seq<Bytes>,
                               ttls: seq<Ttl>) {
    && |records| == |entries| == |ttls|
    && forall i :: 0 <= i < |entries| ==>
         OneOfFour(c, owner, entries[i])
         && Recovers(buf, records[i], entries[i], OwnerOf(c, owner, entries[i]), ttls[i])
  }

  lemma {:induction false} EntriesHeld(s: Store, c: Identity, lives: Lives, prior: Option<Bytes>, buf: Bytes,
                                       records: seq<Record>, entries: seq<Entry>, owner: seq<Bytes>, ttls: seq<Ttl>,
                                       now: int, local: Local)
    requires GoodIdentity(c) && Holds(s, c, lives, prior, local)
    requires AllRecovered(c, buf, records, entries, owner, ttls) && Arranged(lives.Keys, entries)
    requires forall r :: r in records ==> r.start + r.length <= |buf|
    ensures Holds(ApplyAll(s, buf, records, now, local).store, c, AllLives(lives, entries, ttls), prior, local)
    decreases |records|
  {
    hide Apply, Holds, GoodIdentity, Recovers, OneOfFour, OwnerOf, Encoded, FromWord32;
    if records != [] {
      assert records[0] in records;
      assert entries[0].kind !in lives.Keys && (entries[0].kind == TYPE_PTR ==> lives.Keys == {});
      EntryHeld(s, c, lives, prior, buf, records[0], entries[0], owner, ttls[0], now, local);
      EntriesHeld(Apply(s, buf, records[0], now, local).store, c, lives[entries[0].kind := FromWord32(ttls[0]) != 0],
                  prior, buf, records[1..], entries[1..], owner, ttls[1..], now, local);
    }
  }

  lemma EntriesArranged(c: Identity, owner: Bytes, w: Wants)
    ensures Arranged({}, Answers(c, owner, w) + Additionals(c, w))
  {
    assert Srv(c).kind == TYPE_SRV && Txt(c).kind == TYPE_TXT && Address(c).kind == TYPE_A;
    PtrKind(c, owner);
    hide Srv, Txt, Address, Ptr, Answers, Additionals, Times;
    var all := Answers(c, owner, w) + Additionals(c, w);
    forall i, j | 0 <= i < j < |all|
      ensures all[i].kind != all[j].kind
    {
      assert all[i] in all && all[j] in all;
      OnlyTheFour(c, owner, w, all[i]);
      OnlyTheFour(c, owner, w, all[j]);
      if all[i] == all[j] {
        Twice(all, i, j);
        EachOnce(c, owner, w, all[i]);
      }
    }
    forall i | 0 <= i < |all| && all[i].kind == TYPE_PTR
      ensures i == 0
    {
      assert all[i] in all;
      OnlyTheFour(c, owner, w, all[i]);
      EachOnce(c, owner, w, all[i]);
      Once(all, i);
      PtrFirst(c, owner, w);
      assert all[0] == all[i];
    }
  }

  lemma PtrFirst(c: Identity, owner: Bytes, w: Wants)
    ensures w.ptr ==> Answers(c, owner, w) != [] && Answers(c, owner, w)[0] == Ptr(c, owner)
  {
    hide Srv, Txt, Address, Ptr;
  }

  lemma Once(entries: seq<Entry>, i: nat)
    requires i < |entries|
    ensures Times(entries, entries[i]) >= 1
  {
    assert entries[i] in multiset(entries);
  }

  lemma Twice(entries: seq<Entry>, i: nat, j: nat)
    requires i < j < |entries| && entries[i] == entries[j]
    ensures Times(entries, entries[i]) >= 2
  {
    assert entries == entries[..j] + entries[j..];
    assert entries[..j][i] in multiset(entries[..j]) && entries[j..][0] in multiset(entries[j..]);
  }

  /** The records that every response carries. */
  lemma AlwaysThere(c: Identity, owner: Bytes, w: Wants)
    ensures var all := Answers(c, owner, w) + Additionals(c, w); Srv(c) in all && Txt(c) in all && Address(c) in all
  {
    hide Answers, Additionals, Srv, Txt, Address, Ptr;
    EachOnce(c, owner, w, Srv(c));
    EachOnce(c, owner, w, Txt(c));
    EachOnce(c, owner, w, Address(c));
  }

  /** The entries of a response, and whether all of them but the pointer record were given a lifetime. */
  function Entries(c: Identity, owner: seq<Bytes>, w: Wants): seq<Entry> {
    Answers(c, Encoded(owner), w) + Additionals(c, w)
  }

  ghost predicate AllLive(c: Identity, owner: seq<Bytes>, w: Wants, ttls: Ttls)
    requires GoodTtls(ttls)
  {
    var entries := Entries(c, owner, w);
    forall i :: 0 <= i < |entries| && entries[i].kind != TYPE_PTR ==> FromWord32(ttls(i)) != 0
  }

  ghost function FirstTtls(ttls: Ttls, n: nat): (r: seq<Ttl>)
    requires GoodTtls(ttls)
    ensures |r| == n
  {
    seq(n, i requires 0 <= i < n => ttls(i))
  }

  /** That depends on the kinds alone. */
  lemma LiveKinds(c: Identity, owner: seq<Bytes>, w: Wants, ttls: Ttls)
    requires GoodTtls(ttls)
    ensures var lives := AllLives(map[], Entries(c, owner, w), FirstTtls(ttls, |Entries(c, owner, w)|));
      && TYPE_SRV in lives && TYPE_TXT in lives && TYPE_A in lives
      && (AllLive(c, owner, w, ttls) <==> lives[TYPE_SRV] && lives[TYPE_TXT] && lives[TYPE_A])
  {
    assert Srv(c).kind == TYPE_SRV && Txt(c).kind == TYPE_TXT && Address(c).kind == TYPE_A;
    PtrKind(c, Encoded(owner));
    hide Encoded, FromWord32, Srv, Txt, Address, Ptr, Answers, Additionals, AllLives, Arranged;
    var entries := Entries(c, owner, w);
    var none: Lives := map[];
    assert none.Keys == {};
    EntriesArranged(c, Encoded(owner), w);
    LivesAt(none, entries, FirstTtls(ttls, |entries|));
    AlwaysThere(c, Encoded(owner), w);
    forall i | 0 <= i < |entries|
      ensures entries[i].kind in {TYPE_PTR, TYPE_SRV, TYPE_TXT, TYPE_A}
    {
      assert entries[i] in entries;
      OnlyTheFour(c, Encoded(owner), w, entries[i]);
    }
  }

  lemma HoldsResolves(s: Store, c: Identity, owner: seq<Bytes>, w: Wants, ttls: Ttls,
                      prior: Option<Bytes>, local: Local)
    requires GoodTtls(ttls)
    requires Holds(s, c, AllLives(map[], Entries(c, owner, w), FirstTtls(ttls, |Entries(c, owner, w)|)), prior, local)
    ensures Resolves(s, c) <==> AllLive(c, owner, w, ttls) && Better(local, prior, c.ip) == c.ip
  {
    hide Encoded, Lower, InstanceName, HostName, Better, AllLives, AllLive, Entries;
    LiveKinds(c, owner, w, ttls);
  }

  lemma PtrKind(c: Identity, owner: Bytes)
    ensures Ptr(c, owner).kind == TYPE_PTR
  {
  }

  /** Whatever was asked and whatever TTLs were written, once the packet is parsed the instance resolves to
      the advertised host, port, text and address if and only if the service, text and address records were
      written with TTLs other than zero and the address is not held back by the one cached before. */
  lemma AdvertisementResolves(s: Store, c: Identity, id: u16, flush: bool, owner: seq<Bytes>, w: Wants, question: Bytes,
                              ttls: Ttls, now: int, local: Local)
    requires GoodIdentity(c) && GoodLabels(owner) && |owner| <= 31 && GoodQuestion(question) && GoodTtls(ttls)
    ensures var t := Parse(s, Response(c, id, flush, Encoded(owner), w, question, ttls), now, local).store;
      Resolves(t, c) <==>
        AllLive(c, owner, w, ttls) && Better(local, CurrentIp(Expired(s, now), Lower(HostName(c))), c.ip) == c.ip
  {
    hide Parse, Response, ApplyAll, ReadPacket, Expired, GoodIdentity, GoodQuestion, GoodLabels, Recovers, OwnerOf,
         Answers, Additionals, Encoded, Lower, InstanceName, HostName, FromWord32, Srv, Txt, Address, Ptr, Better,
         AllLives, Resolves, AllLive, Arranged;
    var packet := Response(c, id, flush, Encoded(owner), w, question, ttls);
    var entries := Entries(c, owner, w);
    ResponseRoundTrip(c, id, flush, owner, w, question, ttls);
    ResponseSize(c, id, flush, owner, w, question, ttls);
    ParseMeaning(s, packet, now, local);
    var written := FirstTtls(ttls, |entries|);
    forall i | 0 <= i < |entries|
      ensures OneOfFour(c, owner, entries[i])
    {
      assert entries[i] in entries;
      OnlyTheFour(c, Encoded(owner), w, entries[i]);
    }
    var before := Expired(s, now);
    var prior := CurrentIp(before, Lower(HostName(c)));
    assert Holds(before, c, map[], prior, local);
    EntriesArranged(c, Encoded(owner), w);
    var none: Lives := map[];
    assert none.Keys == {};
    EntriesHeld(before, c, none, prior, packet, ReadPacket(packet).records, entries, owner, written, now, local);
    HoldsResolves(ApplyAll(before, packet, ReadPacket(packet).records, now, local).store, c, owner, w, ttls,
                  prior, local);
  }

  /** So a host that the cache does not know, or knows by this very address, resolves exactly on the TTLs. */
  lemma NewHostResolves(s: Store, c: Identity, id: u16, flush: bool, owner: seq<Bytes>, w: Wants, question: Bytes,
                        ttls: Ttls, now: int, local: Local)
    requires GoodIdentity(c) && GoodLabels(owner) && |owner| <= 31 && GoodQuestion(question) && GoodTtls(ttls)
    requires CurrentIp(Expired(s, now), Lower(HostName(c))) in {None, Some(c.ip)}
    ensures var t := Parse(s, Response(c, id, flush, Encoded(owner), w, question, ttls), now, local).store;
      Resolves(t, c) <==> AllLive(c, owner, w, ttls)
  {
    hide Parse, Response, Expired, GoodIdentity, GoodQuestion, GoodLabels, Encoded, Lower, HostName, Resolves, AllLive;
    AdvertisementResolves(s, c, id, flush, owner, w, question, ttls, now, local);
  }

  // ---------------------------------------------------------------- an advertisement is listed

  lemma PtrKnown(s: Store, c: Identity, owner: seq<Bytes>, buf: Bytes, r: Record, ttl: Ttl, now: int, local: Local)
    requires GoodIdentity(c) && Recovers(buf, r, Ptr(c, Encoded(owner)), owner, ttl)
    ensures var t, name := Apply(s, buf, r, now, local).store, Lower(InstanceName(c));
      t.instances ==
        if Lower(Join(owner)) != TYPE_NAME then s.instances
        else if FromWord32(ttl) == 0 then s.instances - {name}
        else s.instances[name := Instance(now + 1000 * DayAtMost(FromWord32(ttl)), now)]
  {
    hide ReadName, Encoded, Written, Lower, Ascii, InstanceName, InstanceLabels, HostLabels, Join, FromWord32;
    NamesWritten(c);
    PtrKind(c, Encoded(owner));
    EncodedRead(buf, r.start, InstanceLabels(c));
  }

  lemma OtherKindKeepsInstances(s: Store, buf: Bytes, r: Record, now: int, local: Local)
    requires r.start + r.length <= |buf| && r.kind != TYPE_PTR
    ensures Apply(s, buf, r, now, local).store.instances == s.instances
  {
    hide ReadName, UnderType, TextValue, Better;
  }

  lemma {:induction false} OthersKeepInstances(s: Store, buf: Bytes, records: seq<Record>, now: int, local: Local)
    requires forall r :: r in records ==> r.start + r.length <= |buf| && r.kind != TYPE_PTR
    ensures ApplyAll(s, buf, records, now, local).store.instances == s.instances
    decreases |records|
  {
    hide Apply;
    if records != [] {
      assert records[0] in records;
      OtherKindKeepsInstances(s, buf, records[0], now, local);
      OthersKeepInstances(Apply(s, buf, records[0], now, local).store, buf, records[1..], now, local);
    }
  }

  /** If a pointer record was asked for, under the name of the service type, the instance is cached with a
      deadline of at most a day and as seen now, or with a zero TTL is gone; else no instance changes. */
  lemma AdvertisementListed(s: Store, c: Identity, id: u16, flush: bool, owner: seq<Bytes>, w: Wants, question: Bytes,
                            ttls: Ttls, now: int, local: Local)
    requires GoodIdentity(c) && GoodLabels(owner) && |owner| <= 31 && GoodQuestion(question) && GoodTtls(ttls)
    ensures var t := Parse(s, Response(c, id, flush, Encoded(owner), w, question, ttls), now, local).store;
      var before, name, ttl := Expired(s, now).instances, Lower(InstanceName(c)), FromWord32(ttls(0));
      t.instances ==
        if !w.ptr || Lower(Join(owner)) != TYPE_NAME then before
        else if ttl == 0 then before - {name}
        else before[name := Instance(now + 1000 * DayAtMost(ttl), now)]
  {
    hide Parse, Response, ApplyAll, ReadPacket, Expired, GoodIdentity, GoodQuestion, GoodLabels, OwnerOf,
         Answers, Additionals, Encoded, Lower, InstanceName, FromWord32, Srv, Txt, Address, Ptr, Join, Arranged,
         Recovers, Entries, Apply, DayAtMost;
    var packet := Response(c, id, flush, Encoded(owner), w, question, ttls);
    var entries := Entries(c, owner, w);
    ResponseRoundTrip(c, id, flush, owner, w, question, ttls);
    ResponseSize(c, id, flush, owner, w, question, ttls);
    ParseMeaning(s, packet, now, local);
    var records := ReadPacket(packet).records;
    PtrPlace(c, owner, w);
    assert entries == Answers(c, Encoded(owner), w) + Additionals(c, w) by {
      EntriesAre(c, owner, w);
    }
    forall i | 0 <= i < |records|
      ensures records[i].kind == entries[i].kind
    {
      RecoveredKind(packet, records[i], entries[i], OwnerOf(c, owner, entries[i]), ttls(i));
    }
    RecordsFirst(Expired(s, now), packet, records, now, local, w.ptr);
    if w.ptr {
      PtrOwner(c, owner);
      PtrKnown(Expired(s, now), c, owner, packet, records[0], ttls(0), now, local);
    }
  }

  lemma EntriesAre(c: Identity, owner: seq<Bytes>, w: Wants)
    ensures Entries(c, owner, w) == Answers(c, Encoded(owner), w) + Additionals(c, w)
  {
  }

  lemma RecoveredKind(buf: Bytes, r: Record, entry: Entry, owner: seq<Bytes>, ttl: Bytes)
    requires Recovers(buf, r, entry, owner, ttl)
    ensures r.kind == entry.kind
  {
  }

  /** The pointer record stands in front, if at all. */
  lemma PtrPlace(c: Identity, owner: seq<Bytes>, w: Wants)
    ensures var entries := Entries(c, owner, w);
      && (w.ptr ==> entries != [] && entries[0] == Ptr(c, Encoded(owner)))
      && (forall i :: 0 <= i < |entries| && (i > 0 || !w.ptr) ==> entries[i].kind != TYPE_PTR)
  {
    hide Encoded, Answers, Additionals, Ptr, Srv, Txt, Address, Times;
    var entries := Entries(c, owner, w);
    PtrFirst(c, Encoded(owner), w);
    EntriesArranged(c, Encoded(owner), w);
    forall i | 0 <= i < |entries| && (i > 0 || !w.ptr)
      ensures entries[i].kind != TYPE_PTR
    {
      assert entries[i] in entries;
      OnlyTheFour(c, Encoded(owner), w, entries[i]);
      EntryKinds(c);
      if entries[i] == Ptr(c, Encoded(owner)) && !w.ptr {
        Once(entries, i);
        EachOnce(c, Encoded(owner), w, entries[i]);
        PtrKind(c, Encoded(owner));
      }
    }
  }

  lemma EntryKinds(c: Identity)
    ensures Srv(c).kind == TYPE_SRV && Txt(c).kind == TYPE_TXT && Address(c).kind == TYPE_A
  {
  }

  lemma PtrOwner(c: Identity, owner: seq<Bytes>)
    ensures OwnerOf(c, owner, Ptr(c, Encoded(owner))) == owner
  {
    hide Encoded, Written;
  }

  lemma RecordsFirst(s: Store, buf: Bytes, records: seq<Record>, now: int, local: Local, first: bool)
    requires forall r :: r in records ==> r.start + r.length <= |buf|
    requires first ==> records != []
    requires forall i :: 0 <= i < |records| && (i > 0 || !first) ==> records[i].kind != TYPE_PTR
    ensures ApplyAll(s, buf, records, now, local).store.instances ==
      if first then Apply(s, buf, records[0], now, local).store.instances else s.instances
  {
    hide Apply;
    if first {
      assert records[0] in records;
      OthersKeepInstances(Apply(s, buf, records[0], now, local).store, buf, records[1..], now, local);
    } else {
      OthersKeepInstances(s, buf, records, now, local);
    }
  }

  const SAMPLE := Identity([97], [98], [], 1, [10, 0, 0, 1])
  const SILENT := Wants(false, false, false, false)

  /** The service record is written with no lifetime, the other two with two minutes. */
  const FIRST_ZERO: Ttls := k => if k == 0 then [0, 0, 0, 0] else [0, 0, 0, 120]

  /** A response the code may well build, when the bytes behind the variable are zero: whatever the cache
      held before, the instance does not resolve. */
  lemma ZeroTtlDoesNotResolve(s: Store, now: int, local: Local)
    ensures !Resolves(Parse(s, Response(SAMPLE, 0, false, Encoded([]), SILENT, [], FIRST_ZERO), now, local).store,
                      SAMPLE)
  {
    hide Parse, Response, Expired, Encoded, Lower, HostName, InstanceName, Resolves, Better, Answers, Additionals;
    SampleIsGood();
    AdvertisementResolves(s, SAMPLE, 0, false, [], SILENT, [], FIRST_ZERO, now, local);
    SilentEntries(SAMPLE, []);
    assert FromWord32(FIRST_ZERO(0)) == 0;
  }

  lemma SampleIsGood()
    ensures GoodIdentity(SAMPLE)
  {
  }

  lemma SilentEntries(c: Identity, owner: seq<Bytes>)
    ensures Entries(c, owner, SILENT) == [Srv(c), Txt(c), Address(c)] && Srv(c).kind == TYPE_SRV
  {
  }

  lemma ResponseSize(c: Identity, id: u16, flush: bool, owner: seq<Bytes>, w: Wants, question: Bytes, ttls: Ttls)
    ensures |Response(c, id, flush, Encoded(owner), w, question, ttls)| >= 12
  {
    hide Header, EntriesBytes, Answers, Additionals;
  }

  // ---------------------------------------------------------------- a packet cut short

  /** Two records announced, one sent. */
  const CUT_SHORT := Header(0, false, 2, 0) + EntryBytes(Address(SAMPLE), false, [0, 0, 0, 120])

  /** Its one record is taken into the cache, but nothing is published. */
  lemma TruncatedUnpublished(now: int, local: Local)
    ensures Parse(EMPTY, CUT_SHORT, now, local) == Parsed(
      EMPTY.(addresses := map[Lower(HostName(SAMPLE)) := HostAddress(SAMPLE.ip, Expiry(now, 120))]), false)
  {
    hide Parse, Expired, EntryBytes, Header, Encoded, Lower, HostName, InstanceName, Records, ReadRecord, Recovers,
         Writes, SkipQuestions, ApplyAll, ApplyAddress, ReadName, Word16At, HostLabels, Join, Address;
    var entry, ttl: Bytes := Address(SAMPLE), [0, 0, 0, 120];
    var body := EntryBytes(entry, false, ttl);
    SampleIsGood();
    HeaderParts(0, false, 2, 0, body);
    assert CUT_SHORT[12..12 + |body|] == body && |CUT_SHORT| == 12 + |body|;
    AddressWrites(SAMPLE);
    ReadsEntry(CUT_SHORT, 12, entry, HostLabels(SAMPLE), false, ttl);
    var r := ReadRecord(CUT_SHORT, 12).value;
    NothingThere(CUT_SHORT, |CUT_SHORT|);
    OneThenNone(CUT_SHORT, 12, r);
    OneQuestion(CUT_SHORT, 12);
    ParseMeaning(EMPTY, CUT_SHORT, now, local);
    assert Expired(EMPTY, now) == EMPTY by {
      ExpiryKeeps(EMPTY, now);
      NothingIn(Expired(EMPTY, now));
    }
    OneAddress(CUT_SHORT, r, HostLabels(SAMPLE), SAMPLE, now, local);
  }

  lemma NothingIn(s: Store)
    requires forall k :: k !in s.instances && k !in s.services && k !in s.texts && k !in s.addresses
    ensures s == EMPTY
  {
  }

  lemma AddressWrites(c: Identity)
    requires GoodIdentity(c)
    ensures Writes(Address(c), HostLabels(c)) && Join(HostLabels(c)) == HostName(c)
  {
    hide Encoded, Written, HostName, GoodLabels;
    NamesWritten(c);
  }

  lemma NothingThere(buf: Bytes, pos: nat)
    requires pos >= |buf|
    ensures ReadRecord(buf, pos) == None
  {
    hide Expansion;
    ExpansionStops(buf, pos, MAX_VISITS);
  }

  lemma OneThenNone(buf: Bytes, pos: nat, r: Record)
    requires ReadRecord(buf, pos) == Some(r) && ReadRecord(buf, r.start + r.length) == None
    ensures Records(buf, pos, 2) == Walk([r], false, r.start + r.length)
  {
    hide ReadRecord;
    assert Records(buf, r.start + r.length, 1) == Walk([], false, r.start + r.length);
  }

  lemma OneAddress(buf: Bytes, r: Record, owner: seq<Bytes>, c: Identity, now: int, local: Local)
    requires GoodIdentity(c) && Recovers(buf, r, Address(c), owner, [0, 0, 0, 120]) && Join(owner) == HostName(c)
    ensures ApplyAll(EMPTY, buf, [r], now, local) ==
      Applied(EMPTY.(addresses := map[Lower(HostName(c)) := HostAddress(c.ip, Expiry(now, 120))]), true)
  {
    hide Lower, HostName, Join, UnderType;
    assert FromWord32([0, 0, 0, 120]) == 120;
    var first := Apply(EMPTY, buf, r, now, local);
    assert ApplyAll(first.store, buf, [], now, local) == Applied(first.store, false);
    assert [r][1..] == [];
  }
}
