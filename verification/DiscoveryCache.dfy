/** The discovery state of ShareCtx: nine hash maps changed in place, which together are one store. */
module DiscoveryCache {
  import opened ByteStrings
  import opened DnsName
  import opened DnsPacket
  import opened DiscoveryStore

  /** A follow-up question sent on the network, and when. */
  datatype Query = Query(kind: u16, name: Bytes, time: int)

  function Decimal(n: nat): Bytes { if n < 10 then [48 + n] else Decimal(n / 10) + [48 + n % 10] }

  function QueryKey(kind: u16, name: Bytes): Bytes { Decimal(kind) + [58] + name }

  /** Questions with the same key are a second apart. */
  ghost predicate Throttled(sent: seq<Query>) {
    forall i, j | 0 <= i < j < |sent| && QueryKey(sent[i].kind, sent[i].name) == QueryKey(sent[j].kind, sent[j].name) ::
      sent[i].time + 1000 <= sent[j].time
  }

  /** Every question sent keeps its key blocked until a second later. */
  ghost predicate Remembered(sent: seq<Query>, blocked: map<Bytes, int>) {
    forall i :: 0 <= i < |sent| ==>
      var key := QueryKey(sent[i].kind, sent[i].name); key in blocked && sent[i].time + 1000 <= blocked[key]
  }

  lemma PacedMore(sent: seq<Query>, blocked: map<Bytes, int>, q: Query)
    requires Throttled(sent) && Remembered(sent, blocked)
    requires QueryKey(q.kind, q.name) in blocked ==> blocked[QueryKey(q.kind, q.name)] <= q.time
    ensures Throttled(sent + [q]) && Remembered(sent + [q], blocked[QueryKey(q.kind, q.name) := q.time + 1000])
  {
    hide QueryKey;
    var all := sent + [q];
    forall i, j | 0 <= i < j < |all| && QueryKey(all[i].kind, all[i].name) == QueryKey(all[j].kind, all[j].name)
      ensures all[i].time + 1000 <= all[j].time
    {
      assert all[i] == sent[i];
      assert j < |sent| ==> all[j] == sent[j];
    }
    forall i | 0 <= i < |all|
      ensures var key := QueryKey(all[i].kind, all[i].name);
        var next := blocked[QueryKey(q.kind, q.name) := q.time + 1000];
        key in next && all[i].time + 1000 <= next[key]
    {
      assert i < |sent| ==> all[i] == sent[i];
    }
  }

  // ---------------------------------------------------------------- companion maps side by side

  function Instances(expiry: map<Bytes, int>, seen: map<Bytes, int>): map<Bytes, Instance>
    requires expiry.Keys == seen.Keys
  {
    map k | k in expiry :: Instance(expiry[k], seen[k])
  }

  function Services(hosts: map<Bytes, Bytes>, ports: map<Bytes, u16>, expiry: map<Bytes, int>): map<Bytes, Service>
    requires hosts.Keys == ports.Keys == expiry.Keys
  {
    map k | k in hosts :: Service(hosts[k], ports[k], expiry[k])
  }

  function Texts(values: map<Bytes, Bytes>, expiry: map<Bytes, int>): map<Bytes, Text>
    requires values.Keys == expiry.Keys
  {
    map k | k in values :: Text(values[k], expiry[k])
  }

  function Addresses(ips: map<Bytes, Bytes>, expiry: map<Bytes, int>): map<Bytes, HostAddress>
    requires ips.Keys == expiry.Keys
  {
    map k | k in ips :: HostAddress(ips[k], expiry[k])
  }

  lemma InstancesChange(expiry: map<Bytes, int>, seen: map<Bytes, int>, key: Bytes, e: int, s: int)
    requires expiry.Keys == seen.Keys
    ensures (expiry - {key}).Keys == (seen - {key}).Keys
    ensures Instances(expiry - {key}, seen - {key}) == Instances(expiry, seen) - {key}
    ensures Instances(expiry[key := e], seen[key := s]) == Instances(expiry, seen)[key := Instance(e, s)]
  {
  }

  lemma ServicesChange(hosts: map<Bytes, Bytes>, ports: map<Bytes, u16>, expiry: map<Bytes, int>, key: Bytes,
                       h: Bytes, p: u16, e: int)
    requires hosts.Keys == ports.Keys == expiry.Keys
    ensures (hosts - {key}).Keys == (ports - {key}).Keys == (expiry - {key}).Keys
    ensures Services(hosts - {key}, ports - {key}, expiry - {key}) == Services(hosts, ports, expiry) - {key}
    ensures Services(hosts[key := h], ports[key := p], expiry[key := e])
         == Services(hosts, ports, expiry)[key := Service(h, p, e)]
  {
  }

  lemma TextsChange(values: map<Bytes, Bytes>, expiry: map<Bytes, int>, key: Bytes, v: Bytes, e: int)
    requires values.Keys == expiry.Keys
    ensures (values - {key}).Keys == (expiry - {key}).Keys
    ensures Texts(values - {key}, expiry - {key}) == Texts(values, expiry) - {key}
    ensures Texts(values[key := v], expiry[key := e]) == Texts(values, expiry)[key := Text(v, e)]
  {
  }

  lemma AddressesChange(ips: map<Bytes, Bytes>, expiry: map<Bytes, int>, key: Bytes, ip: Bytes, e: int)
    requires ips.Keys == expiry.Keys
    ensures (ips - {key}).Keys == (expiry - {key}).Keys
    ensures Addresses(ips - {key}, expiry - {key}) == Addresses(ips, expiry) - {key}
    ensures Addresses(ips[key := ip], expiry[key := e]) == Addresses(ips, expiry)[key := HostAddress(ip, e)]
  {
  }

  class ShareContext {
    var localIp: Option<Bytes>
    var instanceExpiry: map<Bytes, int>
    var instanceSeen: map<Bytes, int>
    var srvHosts: map<Bytes, Bytes>
    var srvPorts: map<Bytes, u16>
    var srvExpiry: map<Bytes, int>
    var txts: map<Bytes, Bytes>
    var txtExpiry: map<Bytes, int>
    var addresses: map<Bytes, Bytes>
    var addressExpiry: map<Bytes, int>
    var followups: map<Bytes, int>
    var sent: seq<Query>

    /** Companion maps have the same keys, and every address has four bytes. */
    ghost predicate Aligned()
      reads this
    {
      && instanceExpiry.Keys == instanceSeen.Keys
      && srvHosts.Keys == srvPorts.Keys == srvExpiry.Keys
      && txts.Keys == txtExpiry.Keys
      && addresses.Keys == addressExpiry.Keys
      && (forall h :: h in addresses ==> |addresses[h]| == 4)
      && (localIp.Some? ==> |localIp.value| == 4)
    }

    ghost predicate Paced()
      reads this
    {
      Throttled(sent) && Remembered(sent, followups)
    }

    /** The one store the nine maps stand for. */
    ghost function Contents(): Store
      reads this
      requires Aligned()
    {
      Store(Instances(instanceExpiry, instanceSeen), Services(srvHosts, srvPorts, srvExpiry), Texts(txts, txtExpiry),
            Addresses(addresses, addressExpiry))
    }

    constructor (localIp: Option<Bytes>)
      requires localIp.Some? ==> |localIp.value| == 4
      ensures Aligned() && Contents() == EMPTY && Paced() && sent == [] && this.localIp == localIp
    {
      this.localIp := localIp;
      instanceExpiry, instanceSeen, srvHosts, srvPorts, srvExpiry := map[], map[], map[], map[], map[];
      txts, txtExpiry, addresses, addressExpiry, followups, sent := map[], map[], map[], map[], map[], [];
    }

    // -------------------------------------------------------------- changes to companion maps together

    method RemoveInstance(key: Bytes)
      requires Aligned()
      modifies this`instanceExpiry, this`instanceSeen, this`srvHosts, this`srvPorts, this`srvExpiry, this`txts,
               this`txtExpiry
      ensures Aligned() && Contents() == DropInstances(old(Contents()), {key})
      ensures instanceExpiry == old(instanceExpiry) - {key}
    {
      hide Instances, Services, Texts, Addresses, DropInstances;
      DroppedIs(Contents(), key);
      InstancesChange(instanceExpiry, instanceSeen, key, 0, 0);
      instanceExpiry := instanceExpiry - {key};
      instanceSeen := instanceSeen - {key};
      RemoveService(key);
      RemoveText(key);
    }

    static lemma DroppedIs(s: Store, key: Bytes)
      ensures DropInstances(s, {key}) == Store(s.instances - {key}, s.services - {key}, s.texts - {key}, s.addresses)
    {
    }

    method RemoveService(key: Bytes)
      requires Aligned()
      modifies this`srvHosts, this`srvPorts, this`srvExpiry
      ensures Aligned() && Contents() == old(Contents()).(services := old(Contents()).services - {key})
      ensures srvExpiry == old(srvExpiry) - {key}
    {
      hide Instances, Services, Texts, Addresses;
      ServicesChange(srvHosts, srvPorts, srvExpiry, key, [], 0, 0);
      srvHosts := srvHosts - {key};
      srvPorts := srvPorts - {key};
      srvExpiry := srvExpiry - {key};
    }

    method RemoveText(key: Bytes)
      requires Aligned()
      modifies this`txts, this`txtExpiry
      ensures Aligned() && Contents() == old(Contents()).(texts := old(Contents()).texts - {key})
      ensures txtExpiry == old(txtExpiry) - {key}
    {
      hide Instances, Services, Texts, Addresses;
      TextsChange(txts, txtExpiry, key, [], 0);
      txts := txts - {key};
      txtExpiry := txtExpiry - {key};
    }

    method RemoveAddress(key: Bytes)
      requires Aligned()
      modifies this`addresses, this`addressExpiry
      ensures Aligned() && Contents() == old(Contents()).(addresses := old(Contents()).addresses - {key})
      ensures addressExpiry == old(addressExpiry) - {key}
    {
      hide Instances, Services, Texts, Addresses;
      AddressesChange(addresses, addressExpiry, key, [], 0);
      addresses := addresses - {key};
      addressExpiry := addressExpiry - {key};
    }

    // -------------------------------------------------------------- expiry

    method ExpireInstances(now: int) returns (changed: bool)
      requires Aligned()
      modifies this`instanceExpiry, this`instanceSeen, this`srvHosts, this`srvPorts, this`srvExpiry, this`txts,
               this`txtExpiry
      ensures Aligned() && Contents() == DropInstances(old(Contents()), DeadInstances(old(Contents()), now))
      ensures changed == (DeadInstances(old(Contents()), now) != {})
    {
      hide Contents, DeadInstances, Instances, Services, Texts, Addresses, DropInstances;
      ghost var before := Contents();
      ghost var gone: set<Bytes> := {};
      ghost var dead := DeadInstances(before, now);
      var todo := instanceExpiry.Keys;
      changed := false;
      InstanceDeadlines(now);
      NoneDropped(before);
      while todo != {}
        invariant Aligned() && Contents() == DropInstances(before, gone) && changed == (gone != {})
        invariant gone <= dead <= gone + todo && todo <= instanceExpiry.Keys
        invariant forall k :: k in todo ==> (k in dead <==> instanceExpiry[k] <= now)
        decreases |todo|
      {
        var key :| key in todo;
        todo := todo - {key};
        if instanceExpiry[key] <= now {
          RemoveInstance(key);
          DroppedMore(before, gone, key);
          gone := gone + {key};
          changed := true;
        }
      }
      assert gone == dead;
    }

    lemma InstanceDeadlines(now: int)
      requires Aligned()
      ensures DeadInstances(Contents(), now) <= instanceExpiry.Keys
      ensures forall k :: k in instanceExpiry ==> (k in DeadInstances(Contents(), now) <==> instanceExpiry[k] <= now)
    {
    }

    static lemma MinusNone<V>(m: map<Bytes, V>)
      ensures m - {} == m
    {
    }

    static lemma MinusMore<V>(m: map<Bytes, V>, gone: set<Bytes>, key: Bytes)
      ensures m - gone - {key} == m - (gone + {key})
    {
    }

    static lemma NoneDropped(s: Store)
      ensures DropInstances(s, {}) == s
    {
      assert s.instances - {} == s.instances && s.services - {} == s.services && s.texts - {} == s.texts;
    }

    static lemma DroppedMore(s: Store, gone: set<Bytes>, key: Bytes)
      ensures DropInstances(DropInstances(s, gone), {key}) == DropInstances(s, gone + {key})
    {
      assert s.instances - gone - {key} == s.instances - (gone + {key});
      assert s.services - gone - {key} == s.services - (gone + {key});
      assert s.texts - gone - {key} == s.texts - (gone + {key});
    }

    method ExpireServices(now: int) returns (changed: bool)
      requires Aligned()
      modifies this`srvHosts, this`srvPorts, this`srvExpiry
      ensures Aligned() && changed == (DeadServices(old(Contents()), now) != {})
      ensures var s := old(Contents()); Contents() == s.(services := s.services - DeadServices(s, now))
    {
      hide Contents, DeadServices, Instances, Services, Texts, Addresses, DropInstances;
      ghost var before := Contents();
      ghost var gone: set<Bytes> := {};
      ghost var dead := DeadServices(before, now);
      var todo := srvExpiry.Keys;
      changed := false;
      ServiceDeadlines(now);
      MinusNone(before.services);
      while todo != {}
        invariant Aligned() && Contents() == before.(services := before.services - gone) && changed == (gone != {})
        invariant gone <= dead <= gone + todo && todo <= srvExpiry.Keys
        invariant forall k :: k in todo ==> (k in dead <==> srvExpiry[k] <= now)
        decreases |todo|
      {
        var key :| key in todo;
        todo := todo - {key};
        if srvExpiry[key] <= now {
          RemoveService(key);
          MinusMore(before.services, gone, key);
          gone := gone + {key};
          changed := true;
        }
      }
      assert gone == dead;
    }

    lemma ServiceDeadlines(now: int)
      requires Aligned()
      ensures DeadServices(Contents(), now) <= srvExpiry.Keys
      ensures forall k :: k in srvExpiry ==> (k in DeadServices(Contents(), now) <==> srvExpiry[k] <= now)
    {
    }

    method ExpireTexts(now: int) returns (changed: bool)
      requires Aligned()
      modifies this`txts, this`txtExpiry
      ensures Aligned() && changed == (DeadTexts(old(Contents()), now) != {})
      ensures var s := old(Contents()); Contents() == s.(texts := s.texts - DeadTexts(s, now))
    {
      hide Contents, DeadTexts, Instances, Services, Texts, Addresses, DropInstances;
      ghost var before := Contents();
      ghost var gone: set<Bytes> := {};
      ghost var dead := DeadTexts(before, now);
      var todo := txtExpiry.Keys;
      changed := false;
      TextDeadlines(now);
      MinusNone(before.texts);
      while todo != {}
        invariant Aligned() && Contents() == before.(texts := before.texts - gone) && changed == (gone != {})
        invariant gone <= dead <= gone + todo && todo <= txtExpiry.Keys
        invariant forall k :: k in todo ==> (k in dead <==> txtExpiry[k] <= now)
        decreases |todo|
      {
        var key :| key in todo;
        todo := todo - {key};
        if txtExpiry[key] <= now {
          RemoveText(key);
          MinusMore(before.texts, gone, key);
          gone := gone + {key};
          changed := true;
        }
      }
      assert gone == dead;
    }

    lemma TextDeadlines(now: int)
      requires Aligned()
      ensures DeadTexts(Contents(), now) <= txtExpiry.Keys
      ensures forall k :: k in txtExpiry ==> (k in DeadTexts(Contents(), now) <==> txtExpiry[k] <= now)
    {
    }

    method ExpireAddresses(now: int) returns (changed: bool)
      requires Aligned()
      modifies this`addresses, this`addressExpiry
      ensures Aligned() && changed == (DeadAddresses(old(Contents()), now) != {})
      ensures var s := old(Contents()); Contents() == s.(addresses := s.addresses - DeadAddresses(s, now))
    {
      hide Contents, DeadAddresses, Instances, Services, Texts, Addresses, DropInstances;
      ghost var before := Contents();
      ghost var gone: set<Bytes> := {};
      ghost var dead := DeadAddresses(before, now);
      var todo := addressExpiry.Keys;
      changed := false;
      AddressDeadlines(now);
      MinusNone(before.addresses);
      while todo != {}
        invariant Aligned() && Contents() == before.(addresses := before.addresses - gone) && changed == (gone != {})
        invariant gone <= dead <= gone + todo && todo <= addressExpiry.Keys
        invariant forall k :: k in todo ==> (k in dead <==> addressExpiry[k] <= now)
        decreases |todo|
      {
        var key :| key in todo;
        todo := todo - {key};
        if addressExpiry[key] <= now {
          RemoveAddress(key);
          MinusMore(before.addresses, gone, key);
          gone := gone + {key};
          changed := true;
        }
      }
      assert gone == dead;
    }

    lemma AddressDeadlines(now: int)
      requires Aligned()
      ensures DeadAddresses(Contents(), now) <= addressExpiry.Keys
      ensures forall k :: k in addressExpiry ==> (k in DeadAddresses(Contents(), now) <==> addressExpiry[k] <= now)
    {
    }

    /** expireDiscoveryRecords; the flag says exactly whether anything was removed. */
    method Expire(now: int) returns (changed: bool)
      requires Aligned()
      modifies this`instanceExpiry, this`instanceSeen, this`srvHosts, this`srvPorts, this`srvExpiry, this`txts,
               this`txtExpiry, this`addresses, this`addressExpiry
      ensures Aligned() && Contents() == Expired(old(Contents()), now) && changed == (Contents() != old(Contents()))
    {
      hide DropInstances, DeadInstances, DeadServices, DeadTexts, DeadAddresses;
      ghost var s := Contents();
      var a := ExpireInstances(now);
      ghost var s1 := Contents();
      OtherDead(s1, now);
      var b := ExpireServices(now);
      var c := ExpireTexts(now);
      var d := ExpireAddresses(now);
      WhenUnchanged(s, now);
      changed := a || b || c || d;
    }

    /** Dropping one kind of record leaves the others' deadlines alone. */
    static lemma OtherDead(s: Store, now: int)
      ensures var t := s.(services := s.services - DeadServices(s, now));
        && DeadTexts(t, now) == DeadTexts(s, now)
        && var u := t.(texts := t.texts - DeadTexts(s, now)); DeadAddresses(u, now) == DeadAddresses(s, now)
    {
    }

    static lemma WhenUnchanged(s: Store, now: int)
      ensures var s1 := DropInstances(s, DeadInstances(s, now));
        Expired(s, now) != s <==>
          (DeadInstances(s, now) != {} || DeadServices(s1, now) != {} || DeadTexts(s1, now) != {}
           || DeadAddresses(s1, now) != {})
    {
      var s1 := DropInstances(s, DeadInstances(s, now));
      var t := Expired(s, now);
      if DeadInstances(s, now) != {} {
        var k :| k in DeadInstances(s, now);
        assert k in s.instances && k !in t.instances;
      } else {
        NoneDropped(s);
        if DeadServices(s1, now) != {} {
          var k :| k in DeadServices(s1, now);
          assert k in s.services && k !in t.services;
        } else if DeadTexts(s1, now) != {} {
          var k :| k in DeadTexts(s1, now);
          assert k in s.texts && k !in t.texts;
        } else if DeadAddresses(s1, now) != {} {
          var k :| k in DeadAddresses(s1, now);
          assert k in s.addresses && k !in t.addresses;
        } else {
          assert s1.services - {} == s1.services && s1.texts - {} == s1.texts && s1.addresses - {} == s1.addresses;
        }
      }
    }

    // -------------------------------------------------------------- a new scan

    method Reset()
      requires Aligned()
      modifies this`instanceExpiry, this`instanceSeen, this`srvHosts, this`srvPorts, this`srvExpiry, this`txts,
               this`txtExpiry, this`addresses, this`addressExpiry
      ensures Aligned() && Contents() == EMPTY
    {
      instanceExpiry, instanceSeen, srvHosts, srvExpiry := map[], map[], map[], map[];
      txts, txtExpiry, addresses, addressExpiry, srvPorts := map[], map[], map[], map[], map[];
    }

    // -------------------------------------------------------------- records

    method TakePtr(buf: Bytes, r: Record, now: int) returns (changed: bool)
      requires Aligned()
      modifies this`instanceExpiry, this`instanceSeen, this`srvHosts, this`srvPorts, this`srvExpiry, this`txts,
               this`txtExpiry
      ensures Aligned() && Applied(Contents(), changed) == ApplyPtr(old(Contents()), buf, r, now)
    {
      hide ReadName, DropInstances, Instances, Services, Texts, Addresses;
      var ok, target, p := ReadDnsName(buf, r.start);
      if !ok {
        return false;
      }
      if r.ttl == 0 {
        RemoveInstance(target);
      } else {
        InstancesChange(instanceExpiry, instanceSeen, target, Expiry(now, r.ttl), now);
        instanceExpiry := instanceExpiry[target := Expiry(now, r.ttl)];
        instanceSeen := instanceSeen[target := now];
      }
      return true;
    }

    method TakeSrv(buf: Bytes, r: Record, now: int) returns (changed: bool)
      requires Aligned() && r.start + r.length <= |buf| && r.length >= 6
      modifies this`srvHosts, this`srvPorts, this`srvExpiry
      ensures Aligned() && Applied(Contents(), changed) == ApplySrv(old(Contents()), buf, r, now)
    {
      hide ReadName, Word16At, Instances, Services, Texts, Addresses;
      var ok, target, p := ReadDnsName(buf, r.start + 6);
      if !ok {
        return false;
      }
      if r.ttl == 0 {
        RemoveService(r.name);
      } else {
        ServicesChange(srvHosts, srvPorts, srvExpiry, r.name, target, Word16At(buf, r.start + 4), Expiry(now, r.ttl));
        srvHosts := srvHosts[r.name := target];
        srvPorts := srvPorts[r.name := Word16At(buf, r.start + 4)];
        srvExpiry := srvExpiry[r.name := Expiry(now, r.ttl)];
      }
      return true;
    }

    method TakeTxt(buf: Bytes, r: Record, now: int) returns (changed: bool)
      requires Aligned() && r.start + r.length <= |buf|
      modifies this`txts, this`txtExpiry
      ensures Aligned() && Applied(Contents(), changed) == ApplyTxt(old(Contents()), buf, r, now)
    {
      hide Contents, TextValue;
      if r.ttl == 0 {
        RemoveText(r.name);
        return true;
      }
      ghost var before := Contents();
      var p, end := r.start, r.start + r.length;
      ghost var expiry, start := Expiry(now, r.ttl), p;
      changed := false;
      while p < end
        invariant r.start <= p == start && end <= |buf| && Aligned()
        invariant var rest := PutText(Contents(), r.name, TextValue(buf, p, end), expiry);
          PutText(before, r.name, TextValue(buf, r.start, end), expiry) == rest.(changed := changed || rest.changed)
        decreases end - p
      {
        var n := buf[p] as int;
        p := p + 1;
        if p + n > end {
          NextEntry(buf, start, end, p + n, []);
          return;
        }
        var entry := buf[p..p + n];
        NextEntry(buf, start, end, p + n, entry);
        if Ascii("n=") <= entry {
          PutTwice(Contents(), r.name, entry[2..], TextValue(buf, p + n, end), expiry);
          PutEntry(r.name, entry[2..], Expiry(now, r.ttl));
          changed := true;
        }
        p := p + n;
        start := p;
      }
      NoEntry(buf, p, end);
    }

    method PutEntry(name: Bytes, value: Bytes, expiry: int)
      requires Aligned()
      modifies this`txts, this`txtExpiry
      ensures Aligned() && Contents() == PutText(old(Contents()), name, Some(value), expiry).store
    {
      hide Instances, Services, Texts, Addresses;
      TextsChange(txts, txtExpiry, name, value, expiry);
      txts := txts[name := value];
      txtExpiry := txtExpiry[name := expiry];
    }

    /** A later entry replaces an earlier one. */
    static lemma PutTwice(s: Store, name: Bytes, value: Bytes, later: Option<Bytes>, expiry: int)
      ensures var once := PutText(s, name, Some(value), expiry);
        PutText(once.store, name, later, expiry).store
          == PutText(s, name, if later.Some? then later else Some(value), expiry).store
    {
      if later.Some? {
        assert s.texts[name := Text(value, expiry)][name := Text(later.value, expiry)]
            == s.texts[name := Text(later.value, expiry)];
      }
    }

    lemma AddressAt(host: Bytes)
      requires Aligned()
      ensures CurrentIp(Contents(), host) == if host in addresses then Some(addresses[host]) else None
    {
    }

    method TakeAddress(buf: Bytes, r: Record, now: int) returns (changed: bool)
      requires Aligned() && r.start + r.length <= |buf| && r.length == 4
      modifies this`addresses, this`addressExpiry
      ensures Aligned() && Applied(Contents(), changed) == ApplyAddress(old(Contents()), buf, r, now, localIp)
    {
      hide Instances, Services, Texts, Addresses;
      AddressAt(r.name);
      if r.ttl == 0 {
        RemoveAddress(r.name);
        return true;
      }
      var candidate := buf[r.start..r.start + 4];
      var current := if r.name in addresses then addresses[r.name] else [];
      var candidateLocal := localIp.Some? && candidate[..3] == localIp.value[..3];
      var currentLocal := localIp.Some? && |current| == 4 && current[..3] == localIp.value[..3];
      ghost var kept := if |current| != 4 || (candidateLocal && !currentLocal) then candidate else current;
      AddressesChange(addresses, addressExpiry, r.name, kept, Expiry(now, r.ttl));
      assert r.name in addresses && kept == current ==> addresses[r.name := kept] == addresses;
      if |current| != 4 || (candidateLocal && !currentLocal) {
        addresses := addresses[r.name := candidate];
      }
      addressExpiry := addressExpiry[r.name := Expiry(now, r.ttl)];
      return true;
    }

    method TakeRecord(buf: Bytes, r: Record, now: int) returns (changed: bool)
      requires Aligned() && r.start + r.length <= |buf|
      modifies this`instanceExpiry, this`instanceSeen, this`srvHosts, this`srvPorts, this`srvExpiry, this`txts,
               this`txtExpiry, this`addresses, this`addressExpiry
      ensures Aligned() && Applied(Contents(), changed) == Apply(old(Contents()), buf, r, now, localIp)
    {
      hide ApplyPtr, ApplySrv, ApplyTxt, ApplyAddress, UnderType;
      if r.kind == TYPE_PTR && r.name == TYPE_NAME {
        changed := TakePtr(buf, r, now);
      } else if r.kind == TYPE_SRV && r.length >= 6 && UnderType(r.name) {
        changed := TakeSrv(buf, r, now);
      } else if r.kind == TYPE_TXT && UnderType(r.name) {
        changed := TakeTxt(buf, r, now);
      } else if r.kind == TYPE_A && r.length == 4 {
        changed := TakeAddress(buf, r, now);
      } else {
        changed := false;
      }
    }

    // -------------------------------------------------------------- packets

    static method ReadRecordAt(buf: Bytes, pos: nat) returns (r: Option<Record>)
      ensures r == ReadRecord(buf, pos)
    {
      hide ReadName, Word16At, FromWord32;
      var ok, name, p := ReadDnsName(buf, pos);
      if !ok || p + 10 > |buf| {
        return None;
      }
      var kind := Word16At(buf, p);
      p := p + 2;
      p := p + 2; // class
      var ttl := FromWord32(buf[p..p + 4]);
      p := p + 4;
      var length := Word16At(buf, p);
      p := p + 2;
      if p + length > |buf| {
        return None;
      }
      return Some(Record(name, kind, ttl, p, length));
    }

    static method SkipAllQuestions(buf: Bytes, count: nat) returns (r: Option<nat>)
      ensures r == SkipQuestions(buf, 12, count)
    {
      hide ReadName;
      var pos: nat := 12;
      for i := 0 to count
        invariant SkipQuestions(buf, 12, count) == SkipQuestions(buf, pos, count - i)
      {
        var ok, ignored, p := ReadDnsName(buf, pos);
        if !ok || p + 4 > |buf| {
          return None;
        }
        pos := p + 4;
      }
      return Some(pos);
    }

    method TakeRecords(buf: Bytes, start: nat, count: nat, now: int) returns (changed: bool, complete: bool)
      requires Aligned()
      modifies this`instanceExpiry, this`instanceSeen, this`srvHosts, this`srvPorts, this`srvExpiry, this`txts,
               this`txtExpiry, this`addresses, this`addressExpiry
      ensures Aligned()
      ensures Outcome(Contents(), changed, complete) == ApplyWalk(old(Contents()), buf, start, count, now, localIp)
    {
      hide ReadRecord, Apply, Contents;
      ghost var before := Contents();
      var pos: nat := start;
      changed := false;
      for i := 0 to count
        invariant Aligned()
        invariant var rest := ApplyWalk(Contents(), buf, pos, count - i, now, localIp);
          ApplyWalk(before, buf, start, count, now, localIp) == rest.(changed := changed || rest.changed)
      {
        var record := ReadRecordAt(buf, pos);
        if record == None {
          return changed, false;
        }
        var more := TakeRecord(buf, record.value, now);
        changed := changed || more;
        pos := record.value.start + record.value.length;
      }
      return changed, true;
    }

    /** The result says whether the devices are published. */
    method ParseDiscoveryPacket(buf: Bytes, now: int) returns (published: bool)
      requires Aligned() && Paced()
      modifies this
      ensures Aligned() && localIp == old(localIp)
      ensures Parsed(Contents(), published) == Parse(old(Contents()), buf, now, localIp)
      ensures Paced() && old(sent) <= sent && forall k :: |old(sent)| <= k < |sent| ==> sent[k].time == now
    {
      hide Contents, SkipQuestions, ApplyWalk, Expired, Word16At, Throttled, Remembered;
      if |buf| < 12 {
        return false;
      }
      var changed := Expire(now);
      var start := SkipAllQuestions(buf, Word16At(buf, 4));
      if start == None {
        return false;
      }
      var count := Word16At(buf, 6) + Word16At(buf, 8) + Word16At(buf, 10);
      var more, complete := TakeRecords(buf, start.value, count, now);
      if !complete {
        return false;
      }
      SendResolutionQueries(now);
      return changed || more;
    }

    // -------------------------------------------------------------- follow-up questions

    method SendFollowupQuery(name: Bytes, kind: u16, now: int)
      requires Paced()
      modifies this`followups, this`sent
      ensures Paced()
      ensures var key, before := QueryKey(kind, name), old(followups);
        if (if key in before then before[key] else 0) > now then sent == old(sent) && followups == before
        else sent == old(sent) + [Query(kind, name, now)] && followups == before[key := now + 1000]
    {
      hide QueryKey, Throttled, Remembered;
      var key := QueryKey(kind, name);
      if (if key in followups then followups[key] else 0) > now {
        return;
      }
      PacedMore(sent, followups, Query(kind, name, now));
      followups := followups[key := now + 1000];
      sent := sent + [Query(kind, name, now)];
    }

    /** An instance without its service or text record, or a host without its address. */
    static ghost predicate Unresolved(instances: set<Bytes>, hosts: map<Bytes, Bytes>, texts: set<Bytes>,
                                      known: set<Bytes>, q: Query) {
      || (q.name in instances && q.kind == TYPE_SRV && q.name !in hosts)
      || (q.name in instances && q.kind == TYPE_TXT && q.name !in texts)
      || (q.kind == TYPE_A && q.name !in known && exists k :: k in instances && k in hosts && hosts[k] == q.name)
    }

    ghost predicate Asks(before: seq<Query>, now: int)
      reads this
    {
      before <= sent && forall k :: |before| <= k < |sent| ==>
        sent[k].time == now && Unresolved(instanceExpiry.Keys, srvHosts, txts.Keys, addresses.Keys, sent[k])
    }

    /** The question has been put within the last second. */
    static ghost predicate Put(blocked: map<Bytes, int>, kind: u16, name: Bytes, now: int) {
      QueryKey(kind, name) in blocked && blocked[QueryKey(kind, name)] > now
    }

    static ghost predicate StillPut(before: map<Bytes, int>, after: map<Bytes, int>, now: int) {
      forall key :: key in before && before[key] > now ==> key in after && after[key] > now
    }

    method Ask(name: Bytes, kind: u16, now: int, ghost before: seq<Query>)
      requires Aligned() && Paced() && Asks(before, now)
      requires Unresolved(instanceExpiry.Keys, srvHosts, txts.Keys, addresses.Keys, Query(kind, name, now))
      modifies this`followups, this`sent
      ensures Aligned() && Paced() && Asks(before, now)
      ensures now >= 0 ==> Put(followups, kind, name, now)
      ensures StillPut(old(followups), followups, now)
    {
      hide QueryKey, Throttled, Remembered, Unresolved;
      ghost var had := sent;
      SendFollowupQuery(name, kind, now);
      assert forall k :: 0 <= k < |had| ==> sent[k] == had[k];
    }

    /** Everything still to learn about an instance has been asked for within the last second. */
    ghost predicate AskedFor(instance: Bytes, now: int)
      reads this
    {
      && (instance !in srvHosts ==> Put(followups, TYPE_SRV, instance, now))
      && (instance !in txts ==> Put(followups, TYPE_TXT, instance, now))
      && (instance in srvHosts && srvHosts[instance] != [] && srvHosts[instance] !in addresses ==>
            Put(followups, TYPE_A, srvHosts[instance], now))
    }

    method AskAbout(instance: Bytes, now: int, ghost before: seq<Query>)
      requires Aligned() && Paced() && Asks(before, now) && instance in instanceExpiry
      modifies this`followups, this`sent
      ensures Aligned() && Paced() && Asks(before, now) && StillPut(old(followups), followups, now)
      ensures now >= 0 ==> AskedFor(instance, now)
    {
      hide QueryKey, Throttled, Remembered, Asks;
      if instance !in srvHosts {
        Ask(instance, TYPE_SRV, now, before);
      }
      if instance !in txts {
        Ask(instance, TYPE_TXT, now, before);
      }
      var host := if instance in srvHosts then srvHosts[instance] else [];
      if host != [] && host !in addresses {
        Ask(host, TYPE_A, now, before);
      }
    }

    /** Only what is missing is asked for, and all of it, but nothing twice within a second. */
    method SendResolutionQueries(now: int)
      requires Aligned() && Paced()
      modifies this`followups, this`sent
      ensures Aligned() && Contents() == old(Contents()) && Paced() && Asks(old(sent), now)
      ensures now >= 0 ==> forall k :: k in instanceExpiry ==> AskedFor(k, now)
    {
      hide QueryKey, Throttled, Remembered, Instances, Services, Texts, Addresses;
      var todo := instanceExpiry.Keys;
      while todo != {}
        invariant todo <= instanceExpiry.Keys && Paced() && Asks(old(sent), now)
        invariant now >= 0 ==> forall k :: k in instanceExpiry && k !in todo ==> AskedFor(k, now)
        decreases |todo|
      {
        var instance :| instance in todo;
        todo := todo - {instance};
        AskAbout(instance, now, old(sent));
      }
    }
  }
}
