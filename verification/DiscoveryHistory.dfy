/** The cache as a record of what was heard: after any packets, expiries and scans, which instances,
    services and texts it holds, in terms of the moments of that history. */
module DiscoveryHistory {
  import opened ByteStrings
  import opened DnsName
  import opened DnsPacket
  import opened DiscoveryStore
  import opened DiscoveryRuns

  // ---------------------------------------------------------------- moments

  /** A new scan, a look for stale records, or one record of a packet. */
  datatype Moment = Scan | Sweep(now: int) | Hears(buf: Bytes, record: Record, now: int)

  ghost predicate Sound(m: Moment) { m.Hears? ==> m.record.start + m.record.length <= |m.buf| }

  function Happens(s: Store, m: Moment, local: Local): Store
    requires Sound(m)
  {
    match m
    case Scan => EMPTY
    case Sweep(now) => Expired(s, now)
    case Hears(buf, record, now) => Apply(s, buf, record, now, local).store
  }

  function Unfold(s: Store, moments: seq<Moment>, local: Local): Store
    requires forall m :: m in moments ==> Sound(m)
    decreases |moments|
  {
    if moments == [] then s
    else
      assert moments[0] in moments;
      Unfold(Happens(s, moments[0], local), moments[1..], local)
  }

  function HeardIn(buf: Bytes, records: seq<Record>, now: int): (r: seq<Moment>)
    ensures |r| == |records|
    ensures forall i :: 0 <= i < |r| ==> r[i] == Hears(buf, records[i], now)
  {
    seq(|records|, i requires 0 <= i < |records| => Hears(buf, records[i], now))
  }

  /** A packet with a header first drops what is stale and is then heard record by record. */
  function MomentsOf(event: Event): (r: seq<Moment>)
    ensures forall m :: m in r ==> Sound(m)
  {
    match event
    case NewScan => [Scan]
    case Tick(now) => [Sweep(now)]
    case Packet(buf, now) =>
      if |buf| < 12 then []
      else
        PacketInside(buf);
        [Sweep(now)] + HeardIn(buf, ReadPacket(buf).records, now)
  }

  function History(events: seq<Event>): (r: seq<Moment>)
    ensures forall m :: m in r ==> Sound(m)
    decreases |events|
  {
    if events == [] then [] else MomentsOf(events[0]) + History(events[1..])
  }

  lemma {:induction false} UnfoldAppend(s: Store, first: seq<Moment>, second: seq<Moment>, local: Local)
    requires forall m :: m in first + second ==> Sound(m)
    ensures forall m :: m in first || m in second ==> Sound(m)
    ensures Unfold(s, first + second, local) == Unfold(Unfold(s, first, local), second, local)
    decreases |first|
  {
    hide Happens, Sound;
    forall m | m in first || m in second
      ensures Sound(m)
    {
      assert m in first + second;
    }
    if first == [] {
      assert first + second == second;
    } else {
      assert (first + second)[1..] == first[1..] + second;
      UnfoldAppend(Happens(s, first[0], local), first[1..], second, local);
    }
  }

  lemma OneMoment(s: Store, m: Moment, local: Local)
    requires Sound(m)
    ensures Unfold(s, [m], local) == Happens(s, m, local)
  {
    hide Happens, Sound;
    assert [m][1..] == [];
  }

  lemma {:induction false} RecordsUnfold(s: Store, buf: Bytes, records: seq<Record>, now: int, local: Local)
    requires forall r :: r in records ==> r.start + r.length <= |buf|
    ensures Unfold(s, HeardIn(buf, records, now), local) == ApplyAll(s, buf, records, now, local).store
    decreases |records|
  {
    hide Apply;
    var heard := HeardIn(buf, records, now);
    if records != [] {
      assert records[0] in records;
      assert heard[1..] == HeardIn(buf, records[1..], now);
      RecordsUnfold(Apply(s, buf, records[0], now, local).store, buf, records[1..], now, local);
    }
  }

  lemma EventUnfolds(s: Store, event: Event, local: Local)
    ensures Unfold(s, MomentsOf(event), local) == Next(s, event, local)
  {
    hide Expired, ApplyAll, Parse, ReadPacket, Unfold;
    match event
    case NewScan => OneMoment(s, Scan, local);
    case Tick(now) => OneMoment(s, Sweep(now), local);
    case Packet(buf, now) =>
      if |buf| < 12 {
        TooShort(s, buf, now, local);
        NoMoments(s, local);
      } else {
        PacketInside(buf);
        var heard := HeardIn(buf, ReadPacket(buf).records, now);
        ParseMeaning(s, buf, now, local);
        UnfoldAppend(s, [Sweep(now)], heard, local);
        OneMoment(s, Sweep(now), local);
        RecordsUnfold(Expired(s, now), buf, ReadPacket(buf).records, now, local);
      }
  }

  lemma NoMoments(s: Store, local: Local)
    ensures Unfold(s, [], local) == s
  {
  }

  lemma {:induction false} RunUnfolds(s: Store, events: seq<Event>, local: Local)
    ensures Unfold(s, History(events), local) == Run(s, events, local)
    decreases |events|
  {
    hide MomentsOf, Next, Unfold;
    if events == [] {
      NoMoments(s, local);
    } else {
      EventUnfolds(s, events[0], local);
      UnfoldAppend(s, MomentsOf(events[0]), History(events[1..]), local);
      RunUnfolds(Next(s, events[0], local), events[1..], local);
    }
  }

  // ---------------------------------------------------------------- what a record says

  /** At most a day, in milliseconds, from when it was heard. */
  function Deadline(m: Moment): int
    requires m.Hears?
  {
    m.now + 1000 * DayAtMost(m.record.ttl)
  }

  /** A pointer from the service type to k. */
  ghost predicate PointsTo(m: Moment, k: Bytes) {
    && m.Hears? && m.record.kind == 12 && m.record.name == TYPE_NAME
    && ReadName(m.buf, m.record.start).Some? && ReadName(m.buf, m.record.start).value.name == k
  }

  ghost predicate Announces(m: Moment, k: Bytes) { PointsTo(m, k) && m.record.ttl > 0 }
  ghost predicate SaysGoodbye(m: Moment, k: Bytes) { PointsTo(m, k) && m.record.ttl == 0 }

  /** A service record of k under the service type, with a target that can be read. */
  ghost predicate Locates(m: Moment, k: Bytes) {
    && m.Hears? && Sound(m) && m.record.kind == 33 && m.record.length >= 6 && m.record.name == k && UnderType(k)
    && ReadName(m.buf, m.record.start + 6).Some?
  }

  function LocatedAt(m: Moment, k: Bytes): Service
    requires Locates(m, k)
  {
    var at := m.record.start;
    Service(ReadName(m.buf, at + 6).value.name, m.buf[at + 4] as int * 256 + m.buf[at + 5] as int, Deadline(m))
  }

  /** A text record of k under the service type. */
  ghost predicate Describes(m: Moment, k: Bytes) {
    m.Hears? && Sound(m) && m.record.kind == 16 && m.record.name == k && UnderType(k)
  }

  function ValueIn(m: Moment): Option<Bytes>
    requires m.Hears? && Sound(m)
  {
    TextValue(m.buf, m.record.start, m.record.start + m.record.length)
  }

  // ---------------------------------------------------------------- one moment

  /** A new scan, a look for stale records past the deadline, a goodbye, or another announcement. */
  ghost predicate EndsInstance(m: Moment, k: Bytes, deadline: int) {
    m.Scan? || (m.Sweep? && deadline <= m.now) || SaysGoodbye(m, k) || Announces(m, k)
  }

  /** The same for a service or text, which its instance takes with it. */
  ghost predicate EndsWith(m: Moment, k: Bytes, deadline: int, alive: Option<int>) {
    m.Scan? || (m.Sweep? && (deadline <= m.now || (alive.Some? && alive.value <= m.now))) || SaysGoodbye(m, k)
  }

  function AliveUntil(s: Store, k: Bytes): Option<int> {
    if k in s.instances then Some(s.instances[k].expiry) else None
  }

  /** What a record does to the entries of a name it is not about. */
  lemma Untouched(s: Store, m: Moment, local: Local, k: Bytes)
    requires Sound(m) && m.Hears?
    ensures var t := Happens(s, m, local);
      && (!PointsTo(m, k) ==> InstanceOf(t, k) == InstanceOf(s, k))
      && (!PointsTo(m, k) && !Locates(m, k) ==> ServiceOf(t, k) == ServiceOf(s, k))
      && (!PointsTo(m, k) && !Describes(m, k) ==> TextOf(t, k) == TextOf(s, k))
  {
    hide ReadName, UnderType, ApplyPtr, ApplySrv, ApplyTxt, ApplyAddress;
    var buf, r, now := m.buf, m.record, m.now;
    if r.kind == TYPE_PTR && r.name == TYPE_NAME {
      if !PointsTo(m, k) {
        PtrOther(s, buf, r, now, k);
      }
    } else if r.kind == TYPE_SRV && r.length >= 6 && UnderType(r.name) {
      SrvOther(s, buf, r, now, k);
    } else if r.kind == TYPE_TXT && UnderType(r.name) {
      TxtOther(s, buf, r, now, k);
    } else if r.kind == TYPE_A && r.length == 4 {
      AddressOther(s, buf, r, now, local, k);
    }
  }

  lemma PtrOther(s: Store, buf: Bytes, r: Record, now: int, k: Bytes)
    requires !(ReadName(buf, r.start).Some? && ReadName(buf, r.start).value.name == k)
    ensures var t := ApplyPtr(s, buf, r, now).store;
      InstanceOf(t, k) == InstanceOf(s, k) && ServiceOf(t, k) == ServiceOf(s, k) && TextOf(t, k) == TextOf(s, k)
  {
    hide ReadName;
  }

  lemma SrvOther(s: Store, buf: Bytes, r: Record, now: int, k: Bytes)
    requires r.start + r.length <= |buf| && r.length >= 6
    ensures var t := ApplySrv(s, buf, r, now).store;
      && InstanceOf(t, k) == InstanceOf(s, k) && TextOf(t, k) == TextOf(s, k)
      && (r.name != k || ReadName(buf, r.start + 6) == None ==> ServiceOf(t, k) == ServiceOf(s, k))
  {
    hide ReadName, Word16At;
  }

  lemma TxtOther(s: Store, buf: Bytes, r: Record, now: int, k: Bytes)
    requires r.start + r.length <= |buf|
    ensures var t := ApplyTxt(s, buf, r, now).store;
      && InstanceOf(t, k) == InstanceOf(s, k) && ServiceOf(t, k) == ServiceOf(s, k)
      && (r.name != k ==> TextOf(t, k) == TextOf(s, k))
  {
    hide TextValue;
  }

  lemma AddressOther(s: Store, buf: Bytes, r: Record, now: int, local: Local, k: Bytes)
    requires r.start + r.length <= |buf| && r.length == 4
    ensures var t := ApplyAddress(s, buf, r, now, local).store;
      InstanceOf(t, k) == InstanceOf(s, k) && ServiceOf(t, k) == ServiceOf(s, k) && TextOf(t, k) == TextOf(s, k)
  {
    hide Better;
  }

  function InstanceOf(s: Store, k: Bytes): Option<Instance> { if k in s.instances then Some(s.instances[k]) else None }
  function ServiceOf(s: Store, k: Bytes): Option<Service> { if k in s.services then Some(s.services[k]) else None }
  function TextOf(s: Store, k: Bytes): Option<Text> { if k in s.texts then Some(s.texts[k]) else None }

  lemma PointerHeard(s: Store, m: Moment, local: Local, k: Bytes)
    requires PointsTo(m, k) && Sound(m)
    ensures var t := Happens(s, m, local);
      && (m.record.ttl > 0 ==>
            InstanceOf(t, k) == Some(Instance(Deadline(m), m.now))
            && ServiceOf(t, k) == ServiceOf(s, k) && TextOf(t, k) == TextOf(s, k))
      && (m.record.ttl == 0 ==> InstanceOf(t, k) == None && ServiceOf(t, k) == None && TextOf(t, k) == None)
  {
    hide ReadName, UnderType, Better, TextValue, Word16At, ApplySrv, ApplyTxt, ApplyAddress;
  }

  lemma ServiceHeard(s: Store, m: Moment, local: Local, k: Bytes)
    requires Locates(m, k)
    ensures var t := Happens(s, m, local);
      ServiceOf(t, k) == if m.record.ttl > 0 then Some(LocatedAt(m, k)) else None
  {
    hide ReadName, UnderType, Better, TextValue, Word16At, ApplyPtr, ApplyTxt, ApplyAddress;
    WordIs(m.buf, m.record.start + 4);
  }

  lemma TextHeard(s: Store, m: Moment, local: Local, k: Bytes)
    requires Describes(m, k)
    ensures var t := Happens(s, m, local);
      TextOf(t, k) ==
        if m.record.ttl == 0 then None
        else if ValueIn(m).Some? then Some(Text(ValueIn(m).value, Deadline(m))) else TextOf(s, k)
  {
    hide ReadName, UnderType, Better, TextValue, Word16At, ApplyPtr, ApplySrv, ApplyAddress;
  }

  /** No record is of two kinds. */
  lemma OneKind(m: Moment, k: Bytes)
    ensures !(PointsTo(m, k) && Locates(m, k)) && !(PointsTo(m, k) && Describes(m, k))
    ensures !(Locates(m, k) && Describes(m, k))
  {
    hide ReadName, UnderType;
  }

  lemma WordIs(buf: Bytes, pos: nat)
    requires pos + 2 <= |buf|
    ensures Word16At(buf, pos) == buf[pos] as int * 256 + buf[pos + 1] as int
  {
  }

  lemma InstanceStep(s: Store, m: Moment, local: Local, k: Bytes)
    requires Sound(m)
    ensures InstanceOf(Happens(s, m, local), k) ==
      if Announces(m, k) then Some(Instance(Deadline(m), m.now))
      else if k in s.instances && !EndsInstance(m, k, s.instances[k].expiry) then InstanceOf(s, k)
      else None
  {
    hide ReadName, Apply, Expired;
    match m
    case Scan =>
    case Sweep(now) => ExpiryKeeps(s, now);
    case Hears(_, _, _) =>
      if PointsTo(m, k) {
        PointerHeard(s, m, local, k);
      } else {
        Untouched(s, m, local, k);
      }
  }

  lemma ServiceStep(s: Store, m: Moment, local: Local, k: Bytes)
    requires Sound(m)
    ensures ServiceOf(Happens(s, m, local), k) ==
      if Locates(m, k) then if m.record.ttl > 0 then Some(LocatedAt(m, k)) else None
      else if k in s.services && !EndsWith(m, k, s.services[k].expiry, AliveUntil(s, k)) then ServiceOf(s, k)
      else None
  {
    hide ReadName, UnderType, Apply, Expired;
    OneKind(m, k);
    match m
    case Scan =>
    case Sweep(now) => ExpiryKeeps(s, now);
    case Hears(_, _, _) =>
      if PointsTo(m, k) {
        PointerHeard(s, m, local, k);
      } else if Locates(m, k) {
        ServiceHeard(s, m, local, k);
      } else {
        Untouched(s, m, local, k);
      }
  }

  lemma TextStep(s: Store, m: Moment, local: Local, k: Bytes)
    requires Sound(m)
    ensures TextOf(Happens(s, m, local), k) ==
      if Describes(m, k) && m.record.ttl == 0 then None
      else if Describes(m, k) && ValueIn(m).Some? then Some(Text(ValueIn(m).value, Deadline(m)))
      else if k in s.texts && !EndsWith(m, k, s.texts[k].expiry, AliveUntil(s, k)) then TextOf(s, k)
      else None
  {
    hide ReadName, UnderType, TextValue, Apply, Expired;
    OneKind(m, k);
    match m
    case Scan =>
    case Sweep(now) => ExpiryKeeps(s, now);
    case Hears(_, _, _) =>
      if PointsTo(m, k) {
        PointerHeard(s, m, local, k);
      } else if Describes(m, k) {
        TextHeard(s, m, local, k);
      } else {
        Untouched(s, m, local, k);
      }
  }

  // ---------------------------------------------------------------- histories

  lemma Split(s: Store, moments: seq<Moment>, local: Local) returns (before: seq<Moment>, last: Moment)
    requires moments != [] && forall m :: m in moments ==> Sound(m)
    ensures moments == before + [last] && |before| == |moments| - 1 && Sound(last)
    ensures forall m :: m in before ==> Sound(m)
    ensures Unfold(s, moments, local) == Happens(Unfold(s, before, local), last, local)
  {
    hide Happens, Sound, Unfold;
    before, last := moments[..|moments| - 1], moments[|moments| - 1];
    assert moments == before + [last];
    assert last in moments;
    UnfoldAppend(s, before, [last], local);
    OneMoment(Unfold(s, before, local), last, local);
  }

  /** Moment i announced k, which made v, and nothing since then has ended that. */
  ghost predicate AnnouncedAt(moments: seq<Moment>, k: Bytes, i: nat, v: Instance) {
    && i < |moments| && Announces(moments[i], k) && v == Instance(Deadline(moments[i]), moments[i].now)
    && forall j: nat :: i < j < |moments| ==> !EndsInstance(moments[j], k, v.expiry)
  }

  ghost predicate Announced(moments: seq<Moment>, k: Bytes, v: Instance) {
    exists i: nat :: AnnouncedAt(moments, k, i, v)
  }

  lemma AnnouncedNext(before: seq<Moment>, m: Moment, k: Bytes, v: Instance)
    ensures Announced(before + [m], k, v) <==>
      (Announces(m, k) && v == Instance(Deadline(m), m.now))
      || (Announced(before, k, v) && !EndsInstance(m, k, v.expiry))
  {
    hide ReadName, EndsInstance;
    var all, n := before + [m], |before|;
    if Announced(all, k, v) {
      var i: nat :| AnnouncedAt(all, k, i, v);
      if i < n {
        assert !EndsInstance(all[n], k, v.expiry);
        assert forall j: nat :: j < n ==> before[j] == all[j];
        assert AnnouncedAt(before, k, i, v);
      }
    }
    if Announces(m, k) && v == Instance(Deadline(m), m.now) {
      assert AnnouncedAt(all, k, n, v);
    }
    if Announced(before, k, v) && !EndsInstance(m, k, v.expiry) {
      var i: nat :| AnnouncedAt(before, k, i, v);
      assert AnnouncedAt(all, k, i, v);
    }
  }

  /** An instance is held exactly while an announcement stands, with the deadline and the time of that one. */
  lemma {:induction false} InstanceHistory(moments: seq<Moment>, local: Local, k: Bytes, v: Instance)
    requires forall m :: m in moments ==> Sound(m)
    ensures InstanceOf(Unfold(EMPTY, moments, local), k) == Some(v) <==> Announced(moments, k, v)
    decreases |moments|
  {
    hide Happens, Sound, Unfold, PointsTo, Deadline, AnnouncedAt;
    if moments == [] {
      NoMoments(EMPTY, local);
      NothingYet(k);
    } else {
      var before, last := Split(EMPTY, moments, local);
      InstanceHistory(before, local, k, v);
      InstanceStep(Unfold(EMPTY, before, local), last, local, k);
      AnnouncedNext(before, last, k, v);
    }
  }

  lemma NothingYet(k: Bytes)
    ensures forall i: nat, v :: !AnnouncedAt([], k, i, v)
    ensures forall i: nat, v :: !LocatedIn([], k, i, v)
    ensures forall i: nat, v :: !DescribedIn([], k, i, v)
  {
  }

  /** Moment j is a look for stale records at which k's own announcement has run out. */
  ghost predicate RunsOut(moments: seq<Moment>, j: nat, k: Bytes)
    requires j < |moments|
  {
    moments[j].Sweep? && exists u: Instance :: u.expiry <= moments[j].now && Announced(moments[..j], k, u)
  }

  /** What ends a service or a text of k: a new scan, its own deadline, k's goodbye, or the end of k. */
  ghost predicate EndsAt(moments: seq<Moment>, j: nat, k: Bytes, deadline: int)
    requires j < |moments|
  {
    var m := moments[j];
    m.Scan? || (m.Sweep? && deadline <= m.now) || SaysGoodbye(m, k) || RunsOut(moments, j, k)
  }

  lemma EndsMeans(before: seq<Moment>, m: Moment, local: Local, k: Bytes, deadline: int)
    requires forall b :: b in before ==> Sound(b)
    ensures var s := Unfold(EMPTY, before, local);
      EndsAt(before + [m], |before|, k, deadline) <==> EndsWith(m, k, deadline, AliveUntil(s, k))
  {
    hide Unfold, Sound, PointsTo, Announced;
    var all, n := before + [m], |before|;
    assert all[n] == m && all[..n] == before;
    var s := Unfold(EMPTY, before, local);
    if RunsOut(all, n, k) {
      var u: Instance :| u.expiry <= m.now && Announced(all[..n], k, u);
      InstanceHistory(before, local, k, u);
    }
    if k in s.instances {
      InstanceHistory(before, local, k, s.instances[k]);
      assert Announced(all[..n], k, s.instances[k]);
    }
  }

  lemma EndsEarlier(before: seq<Moment>, m: Moment, j: nat, k: Bytes, deadline: int)
    requires j < |before|
    ensures EndsAt(before + [m], j, k, deadline) <==> EndsAt(before, j, k, deadline)
  {
    hide PointsTo, Announced;
    var all := before + [m];
    assert all[j] == before[j] && all[..j] == before[..j];
  }

  /** The record makes this service of k; any readable service record of k replaces what was there. */
  ghost predicate MakesService(m: Moment, k: Bytes, v: Service) {
    Locates(m, k) && m.record.ttl > 0 && v == LocatedAt(m, k)
  }

  /** Moment i located k there, and nothing since then has replaced or ended that. */
  ghost predicate LocatedIn(moments: seq<Moment>, k: Bytes, i: nat, v: Service) {
    && i < |moments| && MakesService(moments[i], k, v)
    && forall j: nat :: i < j < |moments| ==> !Locates(moments[j], k) && !EndsAt(moments, j, k, v.expiry)
  }

  ghost predicate Located(moments: seq<Moment>, k: Bytes, v: Service) { exists i: nat :: LocatedIn(moments, k, i, v) }

  lemma LocatedNext(before: seq<Moment>, m: Moment, k: Bytes, v: Service)
    ensures Located(before + [m], k, v) <==>
      MakesService(m, k, v)
      || (Located(before, k, v) && !Locates(m, k) && !EndsAt(before + [m], |before|, k, v.expiry))
  {
    hide MakesService, Locates, EndsAt;
    var all, n := before + [m], |before|;
    forall j: nat | j < n
      ensures all[j] == before[j] && (EndsAt(all, j, k, v.expiry) <==> EndsAt(before, j, k, v.expiry))
    {
      EndsEarlier(before, m, j, k, v.expiry);
    }
    if Located(all, k, v) {
      var i: nat :| LocatedIn(all, k, i, v);
      if i < n {
        assert !Locates(all[n], k) && !EndsAt(all, n, k, v.expiry);
        assert LocatedIn(before, k, i, v);
      }
    }
    if MakesService(m, k, v) {
      assert LocatedIn(all, k, n, v);
    }
    if Located(before, k, v) && !Locates(m, k) && !EndsAt(all, n, k, v.expiry) {
      var i: nat :| LocatedIn(before, k, i, v);
      assert LocatedIn(all, k, i, v);
    }
  }

  /** A service is held exactly while the last record that located it stands. */
  lemma {:induction false} ServiceHistory(moments: seq<Moment>, local: Local, k: Bytes, v: Service)
    requires forall m :: m in moments ==> Sound(m)
    ensures ServiceOf(Unfold(EMPTY, moments, local), k) == Some(v) <==> Located(moments, k, v)
    decreases |moments|
  {
    hide Happens, Sound, Unfold, PointsTo, Deadline, LocatedIn, EndsAt, EndsWith, UnderType, ReadName, TextValue;
    if moments == [] {
      NoMoments(EMPTY, local);
      NothingYet(k);
    } else {
      var before, last := Split(EMPTY, moments, local);
      ServiceHistory(before, local, k, v);
      ServiceStep(Unfold(EMPTY, before, local), last, local, k);
      LocatedNext(before, last, k, v);
      EndsMeans(before, last, local, k, v.expiry);
    }
  }

  /** The record makes this text of k; a record with a zero TTL or a text replaces what was there. */
  ghost predicate MakesText(m: Moment, k: Bytes, v: Text) {
    Describes(m, k) && m.record.ttl > 0 && ValueIn(m).Some? && v == Text(ValueIn(m).value, Deadline(m))
  }

  ghost predicate ReplacesText(m: Moment, k: Bytes) {
    Describes(m, k) && (m.record.ttl == 0 || ValueIn(m).Some?)
  }

  /** Moment i described k so, and nothing since then has replaced or ended that. */
  ghost predicate DescribedIn(moments: seq<Moment>, k: Bytes, i: nat, v: Text) {
    && i < |moments| && MakesText(moments[i], k, v)
    && forall j: nat :: i < j < |moments| ==> !ReplacesText(moments[j], k) && !EndsAt(moments, j, k, v.expiry)
  }

  ghost predicate Described(moments: seq<Moment>, k: Bytes, v: Text) { exists i: nat :: DescribedIn(moments, k, i, v) }

  lemma DescribedNext(before: seq<Moment>, m: Moment, k: Bytes, v: Text)
    ensures Described(before + [m], k, v) <==>
      MakesText(m, k, v)
      || (Described(before, k, v) && !ReplacesText(m, k) && !EndsAt(before + [m], |before|, k, v.expiry))
  {
    hide MakesText, ReplacesText, EndsAt;
    var all, n := before + [m], |before|;
    forall j: nat | j < n
      ensures all[j] == before[j] && (EndsAt(all, j, k, v.expiry) <==> EndsAt(before, j, k, v.expiry))
    {
      EndsEarlier(before, m, j, k, v.expiry);
    }
    if Described(all, k, v) {
      var i: nat :| DescribedIn(all, k, i, v);
      if i < n {
        assert !ReplacesText(all[n], k) && !EndsAt(all, n, k, v.expiry);
        assert DescribedIn(before, k, i, v);
      }
    }
    if MakesText(m, k, v) {
      assert DescribedIn(all, k, n, v);
    }
    if Described(before, k, v) && !ReplacesText(m, k) && !EndsAt(all, n, k, v.expiry) {
      var i: nat :| DescribedIn(before, k, i, v);
      assert DescribedIn(all, k, i, v);
    }
  }

  /** A text is held exactly while the last record that had one stands. */
  lemma {:induction false} TextHistory(moments: seq<Moment>, local: Local, k: Bytes, v: Text)
    requires forall m :: m in moments ==> Sound(m)
    ensures TextOf(Unfold(EMPTY, moments, local), k) == Some(v) <==> Described(moments, k, v)
    decreases |moments|
  {
    hide Happens, Sound, Unfold, PointsTo, Deadline, DescribedIn, EndsAt, EndsWith, UnderType, ReadName, TextValue;
    if moments == [] {
      NoMoments(EMPTY, local);
      NothingYet(k);
    } else {
      var before, last := Split(EMPTY, moments, local);
      TextHistory(before, local, k, v);
      TextStep(Unfold(EMPTY, before, local), last, local, k);
      DescribedNext(before, last, k, v);
      EndsMeans(before, last, local, k, v.expiry);
    }
  }

  // ---------------------------------------------------------------- the whole cache

  /** After any packets, expiries and scans: which instances, services and texts the cache holds. */
  lemma CacheHistory(events: seq<Event>, local: Local, k: Bytes)
    ensures var s, moments := Run(EMPTY, events, local), History(events);
      && (forall v :: (k in s.instances && s.instances[k] == v) <==> Announced(moments, k, v))
      && (forall v :: (k in s.services && s.services[k] == v) <==> Located(moments, k, v))
      && (forall v :: (k in s.texts && s.texts[k] == v) <==> Described(moments, k, v))
  {
    hide Run, History, Unfold, Sound, Announced, Located, Described;
    RunUnfolds(EMPTY, events, local);
    var moments := History(events);
    forall v: Instance
      ensures InstanceOf(Run(EMPTY, events, local), k) == Some(v) <==> Announced(moments, k, v)
    {
      InstanceHistory(moments, local, k, v);
    }
    forall v: Service
      ensures ServiceOf(Run(EMPTY, events, local), k) == Some(v) <==> Located(moments, k, v)
    {
      ServiceHistory(moments, local, k, v);
    }
    forall v: Text
      ensures TextOf(Run(EMPTY, events, local), k) == Some(v) <==> Described(moments, k, v)
    {
      TextHistory(moments, local, k, v);
    }
  }

  /** A goodbye leaves nothing of the instance, its service or its text, whatever was there. */
  lemma GoodbyeClears(s: Store, m: Moment, local: Local, k: Bytes)
    requires Sound(m) && SaysGoodbye(m, k)
    ensures var t := Happens(s, m, local); k !in t.instances && k !in t.services && k !in t.texts
  {
    hide ReadName, Apply;
    PointerHeard(s, m, local, k);
  }

  // ---------------------------------------------------------------- publishing

  /** A record the cache takes: a pointer from the service type, a service or a text under it, or an address. */
  ghost predicate Taken(m: Moment)
    requires m.Hears? && Sound(m)
  {
    || (exists k :: PointsTo(m, k)) || Locates(m, m.record.name)
    || (Describes(m, m.record.name) && (m.record.ttl == 0 || ValueIn(m).Some?))
    || (m.record.kind == 1 && m.record.length == 4)
  }

  lemma TakenMeaning(s: Store, m: Moment, local: Local)
    requires m.Hears? && Sound(m)
    ensures Apply(s, m.buf, m.record, m.now, local).changed <==> Taken(m)
  {
    hide ReadName, UnderType, TextValue, Better;
    if ReadName(m.buf, m.record.start).Some? && m.record.kind == 12 && m.record.name == TYPE_NAME {
      assert PointsTo(m, ReadName(m.buf, m.record.start).value.name);
    }
  }

  ghost predicate AnyTaken(buf: Bytes, records: seq<Record>, now: int)
    requires forall r :: r in records ==> r.start + r.length <= |buf|
  {
    exists i :: 0 <= i < |records| && Taken(Hears(buf, records[i], now))
  }

  lemma {:induction false} AnyTakenMeaning(s: Store, buf: Bytes, records: seq<Record>, now: int, local: Local)
    requires forall r :: r in records ==> r.start + r.length <= |buf|
    ensures ApplyAll(s, buf, records, now, local).changed <==> AnyTaken(buf, records, now)
    decreases |records|
  {
    hide Apply, Taken;
    if records != [] {
      var rest := records[1..];
      TakenMeaning(s, Hears(buf, records[0], now), local);
      AnyTakenMeaning(Apply(s, buf, records[0], now, local).store, buf, rest, now, local);
      assert forall i :: 0 <= i < |rest| ==> rest[i] == records[i + 1];
    }
  }

  ghost predicate StaleAt(s: Store, now: int, k: Bytes) {
    || (k in s.instances && s.instances[k].expiry <= now) || (k in s.services && s.services[k].expiry <= now)
    || (k in s.texts && s.texts[k].expiry <= now) || (k in s.addresses && s.addresses[k].expiry <= now)
  }

  lemma StaleMeaning(s: Store, now: int)
    ensures Expired(s, now) != s <==> exists k :: StaleAt(s, now, k)
  {
    hide Expired;
    ExpiryKeeps(s, now);
    var t := Expired(s, now);
    if k :| StaleAt(s, now, k) {
      assert t.instances != s.instances || t.services != s.services || t.texts != s.texts || t.addresses != s.addresses;
    } else {
      forall k
        ensures (k in s.instances ==> k in t.instances) && (k in s.services ==> k in t.services)
        ensures (k in s.texts ==> k in t.texts) && (k in s.addresses ==> k in t.addresses)
      {
        assert !StaleAt(s, now, k);
      }
      assert t.instances == s.instances && t.services == s.services;
      assert t.texts == s.texts && t.addresses == s.addresses;
    }
  }

  /** A packet is published exactly if it was whole and the cache held something stale or took a record. */
  lemma PublishMeaning(s: Store, buf: Bytes, now: int, local: Local)
    ensures |buf| >= 12 ==> forall r :: r in ReadPacket(buf).records ==> r.start + r.length <= |buf|
    ensures Parse(s, buf, now, local).published <==>
      && |buf| >= 12 && ReadPacket(buf).complete
      && ((exists k :: StaleAt(s, now, k)) || AnyTaken(buf, ReadPacket(buf).records, now))
  {
    if |buf| >= 12 {
      hide Parse, ReadPacket, ApplyAll, Expired, AnyTaken, StaleAt;
      PacketInside(buf);
      ParseMeaning(s, buf, now, local);
      StaleMeaning(s, now);
      AnyTakenMeaning(Expired(s, now), buf, ReadPacket(buf).records, now, local);
    }
  }
}
