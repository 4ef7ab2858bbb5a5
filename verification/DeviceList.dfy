/** The list of devices shown to the user: publishDiscoveredDevices, with its three collections that are
    replaced in place. */
module DeviceList {
  import opened ByteStrings
  import opened DnsName
  import opened DiscoveryStore
  import Base64

  datatype Device = Device(instance: Bytes, name: Bytes, ip: Bytes, port: u16)

  /** The display name of decoded endpoint information, in UTF-8. */
  type Naming = Bytes -> Bytes

  /** The row of an instance whose service, address and port are all there and that is not this device. */
  function Candidate(s: Store, local: Option<Bytes>, naming: Naming, instance: Bytes): Option<Device> {
    if instance !in s.services then None
    else
      var service := s.services[instance];
      if service.host == [] || service.host !in s.addresses || |s.addresses[service.host].ip| != 4 || service.port == 0
      then None
      else
        var ip := s.addresses[service.host].ip;
        if local == Some(ip) then None
        else
          var info := if instance in s.texts then s.texts[instance].value else [];
          Some(Device(instance, naming(Base64.DecodeEndpointInfo(info)), ip, service.port))
  }

  // ---------------------------------------------------------------- the instances in order

  /** The order of the strings, byte by byte; a prefix comes first. */
  predicate Before(a: Bytes, b: Bytes) {
    b != [] && (a == [] || a[0] < b[0] || (a[0] == b[0] && Before(a[1..], b[1..])))
  }

  lemma {:induction false} BeforeTotal(a: Bytes, b: Bytes)
    ensures Before(a, b) || a == b || Before(b, a)
    ensures !(Before(a, b) && Before(b, a)) && !Before(a, a)
  {
    if a != [] {
      BeforeTotal(a[1..], if b == [] then [] else b[1..]);
      if b != [] && a[0] == b[0] && a[1..] == b[1..] {
        assert a == [a[0]] + a[1..] && b == [b[0]] + b[1..];
      }
    }
  }

  lemma {:induction false} BeforeTransitive(a: Bytes, b: Bytes, c: Bytes)
    requires Before(a, b) && Before(b, c)
    ensures Before(a, c)
  {
    if a != [] && a[0] == b[0] && b[0] == c[0] {
      BeforeTransitive(a[1..], b[1..], c[1..]);
    }
  }

  /** They agree up to k; there a ends, and b does not, or has the smaller byte. */
  ghost predicate SmallerAt(a: Bytes, b: Bytes, k: nat) {
    k <= |a| && k < |b| && a[..k] == b[..k] && (k == |a| || a[k] < b[k])
  }

  ghost predicate Precedes(a: Bytes, b: Bytes) { exists k: nat :: SmallerAt(a, b, k) }

  lemma {:induction false} BeforeMeaning(a: Bytes, b: Bytes)
    ensures Before(a, b) <==> Precedes(a, b)
    decreases |a|
  {
    if a == [] || b == [] {
      assert a == [] && b != [] ==> SmallerAt(a, b, 0);
    } else {
      BeforeMeaning(a[1..], b[1..]);
      assert a[0] < b[0] ==> SmallerAt(a, b, 0);
      if k: nat :| SmallerAt(a[1..], b[1..], k) && a[0] == b[0] {
        SmallerLater(a, b, k);
      }
      if k: nat :| SmallerAt(a, b, k) && k > 0 {
        assert a[..k][0] == b[..k][0];
        SmallerLater(a, b, k - 1);
      }
    }
  }

  lemma SmallerLater(a: Bytes, b: Bytes, k: nat)
    requires a != [] && b != [] && a[0] == b[0]
    ensures SmallerAt(a[1..], b[1..], k) <==> SmallerAt(a, b, k + 1)
  {
    if k + 1 <= |a| && k + 1 <= |b| {
      assert a[..k + 1] == [a[0]] + a[1..][..k] && b[..k + 1] == [b[0]] + b[1..][..k];
      assert a[..k + 1][1..] == a[1..][..k] && b[..k + 1][1..] == b[1..][..k];
    }
  }

  ghost predicate Sorted(list: seq<Bytes>) { forall i, j :: 0 <= i < j < |list| ==> Before(list[i], list[j]) }

  /** Exactly the instances of the cache, in that order. */
  ghost predicate InstancesInOrder(s: Store, ordered: seq<Bytes>) {
    Sorted(ordered) && forall k :: k in ordered <==> k in s.instances
  }

  ghost predicate SameMembers(a: seq<Bytes>, b: seq<Bytes>) { forall k :: k in a <==> k in b }

  lemma FirstIsLeast(a: seq<Bytes>, b: seq<Bytes>)
    requires Sorted(a) && Sorted(b) && SameMembers(a, b) && a != []
    ensures b != [] && a[0] == b[0]
  {
    hide Before;
    assert a[0] in b && b[0] in a;
    BeforeTotal(a[0], b[0]);
  }

  lemma NoMembers(b: seq<Bytes>)
    ensures b != [] ==> b[0] in b
  {
  }

  lemma {:induction false} SortedOnce(a: seq<Bytes>, b: seq<Bytes>)
    requires Sorted(a) && Sorted(b) && SameMembers(a, b)
    ensures a == b
    decreases |a|
  {
    hide Before;
    if a == [] {
      NoMembers(b);
    } else {
      FirstIsLeast(a, b);
      forall k
        ensures k in a[1..] <==> k in b[1..]
      {
        TailMembers(a, k);
        TailMembers(b, k);
      }
      SortedOnce(a[1..], b[1..]);
      assert a == [a[0]] + a[1..] && b == [b[0]] + b[1..];
    }
  }

  lemma TailMembers(a: seq<Bytes>, k: Bytes)
    requires Sorted(a) && a != []
    ensures k in a[1..] <==> k in a && k != a[0]
  {
    hide Before;
    BeforeTotal(a[0], a[0]);
    assert a == [a[0]] + a[1..];
  }

  /** So the order is one. */
  lemma OneOrder(s: Store, a: seq<Bytes>, b: seq<Bytes>)
    requires InstancesInOrder(s, a) && InstancesInOrder(s, b)
    ensures a == b
  {
    hide Sorted;
    SortedOnce(a, b);
  }

  /** The keys of the hash table, in whatever order it is walked. */
  method CollectInstances(s: Store) returns (list: seq<Bytes>)
    ensures (forall k :: k in list <==> k in s.instances) && forall i, j :: 0 <= i < j < |list| ==> list[i] != list[j]
  {
    list := [];
    var keys := s.instances.Keys;
    while keys != {}
      invariant keys <= s.instances.Keys && forall k :: k in list <==> k in s.instances && k !in keys
      invariant forall i, j :: 0 <= i < j < |list| ==> list[i] != list[j]
      decreases keys
    {
      var k :| k in keys;
      list := list + [k];
      keys := keys - {k};
    }
  }

  /** QStringList::sort, on strings that all differ. */
  method SortStrings(list: seq<Bytes>) returns (r: seq<Bytes>)
    requires forall i, j :: 0 <= i < j < |list| ==> list[i] != list[j]
    ensures Sorted(r) && SameMembers(list, r)
  {
    hide Before;
    r := [];
    for n := 0 to |list|
      invariant Sorted(r) && SameMembers(list[..n], r)
    {
      assert list[..n + 1] == list[..n] + [list[n]];
      assert list[n] !in list[..n];
      var at := |r|;
      while at > 0 && Before(list[n], r[at - 1])
        invariant 0 <= at <= |r| && forall i :: at <= i < |r| ==> Before(list[n], r[i])
      {
        at := at - 1;
      }
      Inserted(r, list[n], at);
      r := r[..at] + [list[n]] + r[at..];
    }
    assert list[..|list|] == list;
  }

  lemma Inserted(r: seq<Bytes>, k: Bytes, at: nat)
    requires Sorted(r) && k !in r && at <= |r| && forall i :: at <= i < |r| ==> Before(k, r[i])
    requires at > 0 ==> !Before(k, r[at - 1])
    ensures var t := r[..at] + [k] + r[at..]; Sorted(t) && forall x :: x in t <==> x in r || x == k
  {
    hide Before;
    forall i | 0 <= i < at
      ensures Before(r[i], k)
    {
      BeforeTotal(r[at - 1], k);
      if i < at - 1 {
        BeforeTransitive(r[i], r[at - 1], k);
      }
    }
    assert r == r[..at] + r[at..];
  }

  // ---------------------------------------------------------------- the rows

  function Seen(s: Store, instance: Bytes): int { if instance in s.instances then s.instances[instance].seen else 0 }

  /** Two devices are one to the user when their names and addresses agree. */
  function Identity(d: Device): Bytes { d.name + [0] + d.ip }

  lemma IdentityInjective(a: Device, b: Device)
    requires |a.ip| == 4 && |b.ip| == 4
    ensures Identity(a) == Identity(b) <==> a.name == b.name && a.ip == b.ip
  {
    var x, y := Identity(a), Identity(b);
    if x == y {
      assert |a.name| == |b.name|;
      assert x[..|a.name|] == a.name && y[..|b.name|] == b.name;
      assert x[|a.name| + 1..] == a.ip && y[|b.name| + 1..] == b.ip;
    }
  }

  ghost predicate Listed(s: Store, local: Option<Bytes>, naming: Naming, row: Device, instance: Bytes) {
    Candidate(s, local, naming, instance) == Some(row)
  }

  /** The row for an identity beats the candidate: seen later, or as late and earlier in the order. */
  ghost predicate Beats(s: Store, ordered: seq<Bytes>, j: nat, i: nat)
    requires j < |ordered| && i < |ordered|
  {
    Seen(s, ordered[j]) > Seen(s, ordered[i]) || (Seen(s, ordered[j]) == Seen(s, ordered[i]) && j <= i)
  }

  /** Row k comes from the instance at place source[k]. */
  ghost predicate FromInstances(s: Store, local: Option<Bytes>, naming: Naming, ordered: seq<Bytes>, n: nat,
                                rows: seq<Device>, source: seq<nat>) {
    && n <= |ordered| && |source| == |rows|
    && forall k :: 0 <= k < |rows| ==> source[k] < n && Listed(s, local, naming, rows[k], ordered[source[k]])
  }

  ghost predicate Distinct(rows: seq<Device>) {
    forall k, l :: 0 <= k < l < |rows| ==> Identity(rows[k]) != Identity(rows[l])
  }

  /** Some row of this identity beats the candidate at place i. */
  ghost predicate Represented(s: Store, ordered: seq<Bytes>, rows: seq<Device>, source: seq<nat>, identity: Bytes,
                              i: nat) {
    && |source| == |rows| && i < |ordered|
    && exists k :: 0 <= k < |rows| && source[k] < |ordered| && Identity(rows[k]) == identity
         && Beats(s, ordered, source[k], i)
  }

  ghost predicate Covered(s: Store, local: Option<Bytes>, naming: Naming, ordered: seq<Bytes>, n: nat,
                          rows: seq<Device>, source: seq<nat>)
    requires n <= |ordered|
  {
    forall i :: 0 <= i < n && Candidate(s, local, naming, ordered[i]).Some? ==>
      Represented(s, ordered, rows, source, Identity(Candidate(s, local, naming, ordered[i]).value), i)
  }

  /** The rows for the first n instances. */
  ghost predicate Published(s: Store, local: Option<Bytes>, naming: Naming, ordered: seq<Bytes>, n: nat,
                            rows: seq<Device>, source: seq<nat>) {
    FromInstances(s, local, naming, ordered, n, rows, source) && Distinct(rows)
    && Covered(s, local, naming, ordered, n, rows, source)
  }

  /** The three collections agree: the index of each identity is the index of its row. */
  ghost predicate Indexed(rows: seq<Device>, index: map<Bytes, nat>) {
    && (forall k :: 0 <= k < |rows| ==> Identity(rows[k]) in index && index[Identity(rows[k])] == k)
    && (forall id :: id in index ==> index[id] < |rows| && Identity(rows[index[id]]) == id)
  }

  lemma IndexedDistinct(rows: seq<Device>, index: map<Bytes, nat>)
    requires Indexed(rows, index)
    ensures Distinct(rows)
  {
    hide Identity;
  }

  lemma IndexMore(rows: seq<Device>, index: map<Bytes, nat>, row: Device)
    requires Indexed(rows, index) && Identity(row) !in index
    ensures Indexed(rows + [row], index[Identity(row) := |rows|])
  {
    hide Identity;
    var all, next := rows + [row], index[Identity(row) := |rows|];
    forall k | 0 <= k < |all|
      ensures Identity(all[k]) in next && next[Identity(all[k])] == k
    {
      assert k < |rows| ==> all[k] == rows[k];
    }
    forall id | id in next
      ensures next[id] < |all| && Identity(all[next[id]]) == id
    {
      if id != Identity(row) {
        assert all[index[id]] == rows[index[id]];
      }
    }
  }

  lemma IndexSame(rows: seq<Device>, index: map<Bytes, nat>, row: Device)
    requires Indexed(rows, index) && Identity(row) in index
    ensures index[Identity(row)] < |rows| && Indexed(rows[index[Identity(row)] := row], index)
  {
    hide Identity;
    var e := index[Identity(row)];
    var all := rows[e := row];
    forall k | 0 <= k < |all|
      ensures Identity(all[k]) == Identity(rows[k])
    {
    }
  }

  lemma StillRepresented(s: Store, ordered: seq<Bytes>, rows: seq<Device>, source: seq<nat>, row: Device, n: nat,
                         identity: Bytes, i: nat)
    requires Represented(s, ordered, rows, source, identity, i) && n < |ordered|
    ensures Represented(s, ordered, rows + [row], source + [n], identity, i)
  {
    hide Identity, Seen, Beats;
    var k :| 0 <= k < |rows| && source[k] < |ordered| && Identity(rows[k]) == identity
             && Beats(s, ordered, source[k], i);
    assert (rows + [row])[k] == rows[k] && (source + [n])[k] == source[k];
  }

  lemma ReplacementRepresents(s: Store, ordered: seq<Bytes>, rows: seq<Device>, source: seq<nat>, row: Device,
                              e: nat, n: nat, identity: Bytes, i: nat)
    requires Represented(s, ordered, rows, source, identity, i) && n < |ordered| && e < |rows| && source[e] < |ordered|
    requires Identity(row) == Identity(rows[e]) && Seen(s, ordered[n]) > Seen(s, ordered[source[e]])
    ensures Represented(s, ordered, rows[e := row], source[e := n], identity, i)
  {
    hide Identity, Seen;
    var k :| 0 <= k < |rows| && source[k] < |ordered| && Identity(rows[k]) == identity
             && Beats(s, ordered, source[k], i);
    var rows', source' := rows[e := row], source[e := n];
    assert Identity(rows'[k]) == identity && source'[k] < |ordered| && Beats(s, ordered, source'[k], i);
  }

  lemma RowAdded(s: Store, local: Option<Bytes>, naming: Naming, ordered: seq<Bytes>, n: nat, rows: seq<Device>,
                 source: seq<nat>,
                 index: map<Bytes, nat>, row: Device)
    requires Published(s, local, naming, ordered, n, rows, source) && Indexed(rows, index)
    requires n < |ordered| && Listed(s, local, naming, row, ordered[n]) && Identity(row) !in index
    ensures Published(s, local, naming, ordered, n + 1, rows + [row], source + [n])
    ensures Indexed(rows + [row], index[Identity(row) := |rows|])
  {
    hide Candidate, Identity, Seen, Represented, Indexed, Distinct;
    var rows', source' := rows + [row], source + [n];
    IndexMore(rows, index, row);
    IndexedDistinct(rows', index[Identity(row) := |rows|]);
    forall i | 0 <= i < n + 1 && Candidate(s, local, naming, ordered[i]).Some?
      ensures Represented(s, ordered, rows', source', Identity(Candidate(s, local, naming, ordered[i]).value), i)
    {
      if i == n {
        LastRepresents(s, ordered, rows', source', n);
      } else {
        StillRepresented(s, ordered, rows, source, row, n, Identity(Candidate(s, local, naming, ordered[i]).value), i);
      }
    }
    forall k | 0 <= k < |rows'|
      ensures source'[k] < n + 1 && Listed(s, local, naming, rows'[k], ordered[source'[k]])
    {
      assert k < |rows| ==> rows'[k] == rows[k] && source'[k] == source[k];
    }
  }

  lemma LastRepresents(s: Store, ordered: seq<Bytes>, rows: seq<Device>, source: seq<nat>, n: nat)
    requires rows != [] && |source| == |rows| && source[|rows| - 1] == n < |ordered|
    ensures Represented(s, ordered, rows, source, Identity(rows[|rows| - 1]), n)
  {
    hide Identity, Seen;
    assert Beats(s, ordered, source[|rows| - 1], n);
  }

  lemma RowRepresents(s: Store, ordered: seq<Bytes>, rows: seq<Device>, source: seq<nat>, e: nat, identity: Bytes,
                      i: nat)
    requires |source| == |rows| && e < |rows| && source[e] < |ordered| && i < |ordered|
    requires Identity(rows[e]) == identity && Beats(s, ordered, source[e], i)
    ensures Represented(s, ordered, rows, source, identity, i)
  {
    hide Identity, Seen, Beats;
  }

  lemma RowReplaced(s: Store, local: Option<Bytes>, naming: Naming, ordered: seq<Bytes>, n: nat, rows: seq<Device>,
                    source: seq<nat>,
                    index: map<Bytes, nat>, row: Device)
    requires Published(s, local, naming, ordered, n, rows, source) && Indexed(rows, index)
    requires n < |ordered| && Listed(s, local, naming, row, ordered[n]) && Identity(row) in index
    requires Seen(s, ordered[n]) > Seen(s, ordered[source[index[Identity(row)]]])
    ensures var e := index[Identity(row)];
      Published(s, local, naming, ordered, n + 1, rows[e := row], source[e := n]) && Indexed(rows[e := row], index)
  {
    hide Candidate, Identity, Seen, Represented, Distinct;
    var e := index[Identity(row)];
    var rows', source' := rows[e := row], source[e := n];
    IndexSame(rows, index, row);
    IndexedDistinct(rows', index);
    forall i | 0 <= i < n + 1 && Candidate(s, local, naming, ordered[i]).Some?
      ensures Represented(s, ordered, rows', source', Identity(Candidate(s, local, naming, ordered[i]).value), i)
    {
      if i == n {
        RowRepresents(s, ordered, rows', source', e, Identity(row), n);
      } else {
        ReplacementRepresents(s, ordered, rows, source, row, e, n, Identity(Candidate(s, local, naming,
                              ordered[i]).value), i);
      }
    }
  }

  lemma RowKept(s: Store, local: Option<Bytes>, naming: Naming, ordered: seq<Bytes>, n: nat, rows: seq<Device>,
                source: seq<nat>,
                index: map<Bytes, nat>, row: Device)
    requires Published(s, local, naming, ordered, n, rows, source) && Indexed(rows, index)
    requires n < |ordered| && Listed(s, local, naming, row, ordered[n]) && Identity(row) in index
    requires Seen(s, ordered[n]) <= Seen(s, ordered[source[index[Identity(row)]]])
    ensures Published(s, local, naming, ordered, n + 1, rows, source)
  {
    hide Candidate, Identity, Seen, Represented, Distinct;
    RowRepresents(s, ordered, rows, source, index[Identity(row)], Identity(row), n);
  }

  lemma NoRow(s: Store, local: Option<Bytes>, naming: Naming, ordered: seq<Bytes>, n: nat, rows: seq<Device>,
              source: seq<nat>)
    requires Published(s, local, naming, ordered, n, rows, source) && n < |ordered|
    requires Candidate(s, local, naming, ordered[n]) == None
    ensures Published(s, local, naming, ordered, n + 1, rows, source)
  {
    hide Candidate, Identity, Seen, Represented, Distinct;
  }

  /** The instance that opened row k, the first of its identity: replacing a row does not move it. */
  ghost predicate Opening(s: Store, local: Option<Bytes>, naming: Naming, ordered: seq<Bytes>, identity: Bytes,
                          i: nat) {
    && i < |ordered| && Candidate(s, local, naming, ordered[i]).Some?
    && Identity(Candidate(s, local, naming, ordered[i]).value) == identity
    && forall j :: 0 <= j < i && Candidate(s, local, naming, ordered[j]).Some? ==>
         Identity(Candidate(s, local, naming, ordered[j]).value) != identity
  }

  ghost predicate Increasing(first: seq<nat>) { forall i, j :: 0 <= i < j < |first| ==> first[i] < first[j] }

  /** The rows stand in the order in which their identities first appear. */
  ghost predicate InOrder(s: Store, local: Option<Bytes>, naming: Naming, ordered: seq<Bytes>, n: nat,
                          rows: seq<Device>, first: seq<nat>) {
    && |first| == |rows|
    && (forall k :: 0 <= k < |rows| ==> first[k] < n && Opening(s, local, naming, ordered, Identity(rows[k]), first[k]))
    && Increasing(first)
  }

  lemma NewOpening(s: Store, local: Option<Bytes>, naming: Naming, ordered: seq<Bytes>, n: nat, rows: seq<Device>,
                   source: seq<nat>,
                   index: map<Bytes, nat>, row: Device)
    requires Published(s, local, naming, ordered, n, rows, source) && Indexed(rows, index)
    requires n < |ordered| && Candidate(s, local, naming, ordered[n]) == Some(row) && Identity(row) !in index
    ensures Opening(s, local, naming, ordered, Identity(row), n)
  {
    hide Candidate, Identity, Beats;
    forall j | 0 <= j < n && Candidate(s, local, naming, ordered[j]).Some?
      ensures Identity(Candidate(s, local, naming, ordered[j]).value) != Identity(row)
    {
      assert Represented(s, ordered, rows, source, Identity(Candidate(s, local, naming, ordered[j]).value), j);
    }
  }

  /** The finished list, in its order, for the instances in theirs. */
  ghost predicate Shown(s: Store, local: Option<Bytes>, naming: Naming, ordered: seq<Bytes>, rows: seq<Device>) {
    exists source: seq<nat>, first: seq<nat> ::
      Published(s, local, naming, ordered, |ordered|, rows, source)
      && InOrder(s, local, naming, ordered, |ordered|, rows, first)
  }

  /** What the cache makes of the list. */
  ghost predicate Listing(s: Store, local: Option<Bytes>, naming: Naming, rows: seq<Device>) {
    exists ordered: seq<Bytes> :: InstancesInOrder(s, ordered) && Shown(s, local, naming, ordered, rows)
  }

  /** The instances are sorted first; each row is the freshest instance of its identity. */
  method PublishDiscoveredDevices(s: Store, local: Option<Bytes>, naming: Naming)
    returns (rows: seq<Device>, rowInstances: seq<Bytes>)
    ensures Listing(s, local, naming, rows)
    ensures |rowInstances| == |rows| && forall k :: 0 <= k < |rows| ==> rowInstances[k] == rows[k].instance
  {
    hide Shown, Sorted;
    var list := CollectInstances(s);
    var ordered := SortStrings(list);
    rows, rowInstances := MakeRows(s, local, naming, ordered);
  }

  method MakeRows(s: Store, local: Option<Bytes>, naming: Naming, ordered: seq<Bytes>)
    returns (rows: seq<Device>, rowInstances: seq<Bytes>)
    ensures Shown(s, local, naming, ordered, rows)
    ensures |rowInstances| == |rows| && forall k :: 0 <= k < |rows| ==> rowInstances[k] == rows[k].instance
  {
    hide Published, Indexed, Candidate, Identity, Seen, Listed, Opening;
    rows, rowInstances := [], [];
    ghost var source: seq<nat>, first: seq<nat> := [], [];
    var identityRows: map<Bytes, nat> := map[];
    Nothing(s, local, naming, ordered);
    for i := 0 to |ordered|
      invariant Published(s, local, naming, ordered, i, rows, source) && Indexed(rows, identityRows)
      invariant Aligned(ordered, rows, rowInstances, source) && InOrder(s, local, naming, ordered, i, rows, first)
    {
      var instance := ordered[i];
      var candidate := Candidate(s, local, naming, instance);
      if candidate == None {
        NoRow(s, local, naming, ordered, i, rows, source);
      } else {
        var row := candidate.value;
        Own(s, local, naming, instance);
        var identity := Identity(row);
        if identity in identityRows {
          InRange(rows, identityRows, row);
          var existing := identityRows[identity];
          var previous := rowInstances[existing];
          if Seen(s, instance) <= Seen(s, previous) {
            RowKept(s, local, naming, ordered, i, rows, source, identityRows, row);
          } else {
            RowReplaced(s, local, naming, ordered, i, rows, source, identityRows, row);
            rows := rows[existing := row];
            rowInstances := rowInstances[existing := instance];
            source := source[existing := i];
          }
        } else {
          RowAdded(s, local, naming, ordered, i, rows, source, identityRows, row);
          NewOpening(s, local, naming, ordered, i, rows, source, identityRows, row);
          identityRows := identityRows[identity := |rows|];
          rows := rows + [row];
          rowInstances := rowInstances + [instance];
          source := source + [i];
          first := first + [i];
        }
      }
    }
    assert Published(s, local, naming, ordered, |ordered|, rows, source);
    assert InOrder(s, local, naming, ordered, |ordered|, rows, first);
  }

  /** Row by row the instance and the place it has in the order. */
  ghost predicate Aligned(ordered: seq<Bytes>, rows: seq<Device>, instances: seq<Bytes>, source: seq<nat>) {
    && |instances| == |rows| == |source|
    && forall k :: 0 <= k < |rows| ==> source[k] < |ordered| && instances[k] == ordered[source[k]] == rows[k].instance
  }

  lemma Nothing(s: Store, local: Option<Bytes>, naming: Naming, ordered: seq<Bytes>)
    ensures Published(s, local, naming, ordered, 0, [], []) && Indexed([], map[])
  {
  }

  lemma Own(s: Store, local: Option<Bytes>, naming: Naming, instance: Bytes)
    requires Candidate(s, local, naming, instance).Some?
    ensures Listed(s, local, naming, Candidate(s, local, naming, instance).value, instance)
    ensures Candidate(s, local, naming, instance).value.instance == instance
  {
  }

  lemma InRange(rows: seq<Device>, index: map<Bytes, nat>, row: Device)
    requires Indexed(rows, index) && Identity(row) in index
    ensures index[Identity(row)] < |rows| && Identity(rows[index[Identity(row)]]) == Identity(row)
  {
  }

  // ---------------------------------------------------------------- what the list means

  /** The device that an instance stands for: its service's port, the four-byte address of its host, and the
      name that its text, or the lack of one, stands for; a port is there and the address is not our own. */
  ghost predicate StandsFor(s: Store, local: Option<Bytes>, naming: Naming, instance: Bytes, d: Device) {
    && instance in s.services
    && var host := s.services[instance].host;
       && host != [] && host in s.addresses && d.ip == s.addresses[host].ip && |d.ip| == 4 && local != Some(d.ip)
       && d.port == s.services[instance].port && d.port > 0 && d.instance == instance
       && d.name == naming(Base64.DecodeEndpointInfo(if instance in s.texts then s.texts[instance].value else []))
  }

  lemma CandidateMeaning(s: Store, local: Option<Bytes>, naming: Naming, instance: Bytes, d: Device)
    ensures Candidate(s, local, naming, instance) == Some(d) <==> StandsFor(s, local, naming, instance, d)
  {
    hide Base64.DecodeEndpointInfo;
  }

  /** No two rows show the same name at the same address; every row is a resolved service of another
      device; and each such service is shown by the row of its name and address that was seen last. */
  lemma ListMeaning(s: Store, local: Option<Bytes>, naming: Naming, rows: seq<Device>)
    requires Listing(s, local, naming, rows)
    ensures forall k, l :: 0 <= k < l < |rows| ==> rows[k].name != rows[l].name || rows[k].ip != rows[l].ip
    ensures forall k :: 0 <= k < |rows| ==>
      rows[k].instance in s.instances && StandsFor(s, local, naming, rows[k].instance, rows[k])
    ensures forall instance, d :: instance in s.instances && StandsFor(s, local, naming, instance, d) ==>
      exists k :: 0 <= k < |rows| && Shows(s, rows[k], d)
  {
    hide Shown, Candidate, Sorted, StandsFor, Shows;
    var ordered: seq<Bytes> :| InstancesInOrder(s, ordered) && Shown(s, local, naming, ordered, rows);
    ShownMeaning(s, local, naming, ordered, rows);
    forall instance, d | instance in s.instances && StandsFor(s, local, naming, instance, d)
      ensures exists k :: 0 <= k < |rows| && Shows(s, rows[k], d)
    {
      CandidateMeaning(s, local, naming, instance, d);
    }
    forall k | 0 <= k < |rows|
      ensures rows[k].instance in s.instances && StandsFor(s, local, naming, rows[k].instance, rows[k])
    {
      CandidateMeaning(s, local, naming, rows[k].instance, rows[k]);
    }
  }

  lemma ShownMeaning(s: Store, local: Option<Bytes>, naming: Naming, ordered: seq<Bytes>, rows: seq<Device>)
    requires InstancesInOrder(s, ordered) && Shown(s, local, naming, ordered, rows)
    ensures forall k, l :: 0 <= k < l < |rows| ==> rows[k].name != rows[l].name || rows[k].ip != rows[l].ip
    ensures forall k :: 0 <= k < |rows| ==>
      rows[k].instance in ordered && Candidate(s, local, naming, rows[k].instance) == Some(rows[k])
    ensures forall instance :: instance in ordered && Candidate(s, local, naming, instance).Some? ==>
      exists k :: 0 <= k < |rows| && Shows(s, rows[k], Candidate(s, local, naming, instance).value)
  {
    hide Identity, Candidate, Represented, Seen, InOrder, Shows, Before;
    var source: seq<nat>, first: seq<nat> :|
      Published(s, local, naming, ordered, |ordered|, rows, source)
      && InOrder(s, local, naming, ordered, |ordered|, rows, first);
    forall k | 0 <= k < |rows|
      ensures rows[k].instance in ordered && Candidate(s, local, naming, rows[k].instance) == Some(rows[k])
    {
      CandidateIs(s, local, naming, ordered[source[k]]);
    }
    forall k, l | 0 <= k < l < |rows|
      ensures rows[k].name != rows[l].name || rows[k].ip != rows[l].ip
    {
      CandidateIs(s, local, naming, rows[k].instance);
      CandidateIs(s, local, naming, rows[l].instance);
      IdentityInjective(rows[k], rows[l]);
    }
    forall instance | instance in ordered && Candidate(s, local, naming, instance).Some?
      ensures exists k :: 0 <= k < |rows| && Shows(s, rows[k], Candidate(s, local, naming, instance).value)
    {
      var i :| 0 <= i < |ordered| && ordered[i] == instance;
      CandidateShown(s, local, naming, ordered, rows, source, i);
    }
  }

  lemma CandidateIs(s: Store, local: Option<Bytes>, naming: Naming, instance: Bytes)
    requires Candidate(s, local, naming, instance).Some?
    ensures var d := Candidate(s, local, naming, instance).value;
      d.instance == instance && d.port > 0 && |d.ip| == 4 && local != Some(d.ip)
  {
  }

  lemma CandidateShown(s: Store, local: Option<Bytes>, naming: Naming, ordered: seq<Bytes>, rows: seq<Device>,
                       source: seq<nat>, i: nat)
    requires Published(s, local, naming, ordered, |ordered|, rows, source)
    requires InstancesInOrder(s, ordered) && i < |ordered| && Candidate(s, local, naming, ordered[i]).Some?
    ensures exists k :: 0 <= k < |rows| && Shows(s, rows[k], Candidate(s, local, naming, ordered[i]).value)
  {
    hide Identity, Candidate, Distinct, Before, Precedes;
    var d := Candidate(s, local, naming, ordered[i]).value;
    assert Represented(s, ordered, rows, source, Identity(d), i);
    var k :| 0 <= k < |rows| && source[k] < |ordered| && Identity(rows[k]) == Identity(d)
             && Beats(s, ordered, source[k], i);
    assert Listed(s, local, naming, rows[k], ordered[source[k]]);
    CandidateIs(s, local, naming, ordered[source[k]]);
    CandidateIs(s, local, naming, ordered[i]);
    IdentityInjective(rows[k], d);
    BeforeMeaning(ordered[source[k]], ordered[i]);
    assert ordered[source[k]] in ordered && ordered[i] in ordered;
    assert Shows(s, rows[k], d);
  }

  /** The row is for the same name and address; its instance was seen later, or as late and comes first or is
      that very one. */
  ghost predicate Shows(s: Store, row: Device, d: Device) {
    && row.name == d.name && row.ip == d.ip && row.instance in s.instances && d.instance in s.instances
    && var seen, other := s.instances[row.instance].seen, s.instances[d.instance].seen;
       seen > other || (seen == other && (row.instance == d.instance || Precedes(row.instance, d.instance)))
  }

  /** The first instance, in the order of bytes, that stands for a device of the row's name and address. */
  ghost predicate LeastFor(s: Store, local: Option<Bytes>, naming: Naming, row: Device, a: Bytes) {
    && a in s.instances && (exists d :: StandsFor(s, local, naming, a, d) && SameDevice(d, row))
    && forall b, d :: b in s.instances && StandsFor(s, local, naming, b, d) && SameDevice(d, row) ==>
         a == b || Precedes(a, b)
  }

  ghost predicate SameDevice(d: Device, row: Device) { d.name == row.name && d.ip == row.ip }

  lemma OpeningLeast(s: Store, local: Option<Bytes>, naming: Naming, ordered: seq<Bytes>, row: Device, i: nat)
    requires InstancesInOrder(s, ordered) && |row.ip| == 4
    requires Opening(s, local, naming, ordered, Identity(row), i)
    ensures LeastFor(s, local, naming, row, ordered[i])
  {
    hide Identity, Candidate, StandsFor, Before, Precedes;
    var a := ordered[i];
    assert a in ordered;
    var mine := Candidate(s, local, naming, a).value;
    CandidateMeaning(s, local, naming, a, mine);
    CandidateIs(s, local, naming, a);
    IdentityInjective(mine, row);
    assert StandsFor(s, local, naming, a, mine) && SameDevice(mine, row);
    forall b, d | b in s.instances && StandsFor(s, local, naming, b, d) && SameDevice(d, row)
      ensures a == b || Precedes(a, b)
    {
      CandidateMeaning(s, local, naming, b, d);
      CandidateIs(s, local, naming, b);
      IdentityInjective(d, row);
      assert b in ordered;
      var j :| 0 <= j < |ordered| && ordered[j] == b;
      BeforeMeaning(a, b);
    }
  }

  /** Replacing a row does not move it: the rows stand in the order of the first instances of their devices. */
  lemma RowOrder(s: Store, local: Option<Bytes>, naming: Naming, rows: seq<Device>, k: nat, l: nat)
      returns (a: Bytes, b: Bytes)
    requires Listing(s, local, naming, rows) && k < l < |rows|
    ensures LeastFor(s, local, naming, rows[k], a) && LeastFor(s, local, naming, rows[l], b) && Precedes(a, b)
  {
    hide Identity, Candidate, Represented, Covered, Distinct, Opening, LeastFor, Before, Precedes;
    var ordered: seq<Bytes> :| InstancesInOrder(s, ordered) && Shown(s, local, naming, ordered, rows);
    var source: seq<nat>, first: seq<nat> :|
      Published(s, local, naming, ordered, |ordered|, rows, source)
      && InOrder(s, local, naming, ordered, |ordered|, rows, first);
    a, b := ordered[first[k]], ordered[first[l]];
    CandidateIs(s, local, naming, ordered[source[k]]);
    CandidateIs(s, local, naming, ordered[source[l]]);
    OpeningLeast(s, local, naming, ordered, rows[k], first[k]);
    OpeningLeast(s, local, naming, ordered, rows[l], first[l]);
    BeforeMeaning(a, b);
  }

  lemma SameChoice(s: Store, local: Option<Bytes>, naming: Naming, ordered: seq<Bytes>, rows: seq<Device>,
                   source: seq<nat>,
                   other: seq<Device>, otherSource: seq<nat>, k: nat)
    requires Published(s, local, naming, ordered, |ordered|, rows, source)
    requires Published(s, local, naming, ordered, |ordered|, other, otherSource) && k < |rows|
    ensures exists l :: 0 <= l < |other| && other[l] == rows[k]
  {
    hide Identity, Seen, Candidate;
    var i: nat := source[k];
    assert Listed(s, local, naming, rows[k], ordered[i]);
    assert Represented(s, ordered, other, otherSource, Identity(rows[k]), i);
    var l :| 0 <= l < |other| && otherSource[l] < |ordered| && Identity(other[l]) == Identity(rows[k])
             && Beats(s, ordered, otherSource[l], i);
    var j := otherSource[l];
    assert Listed(s, local, naming, other[l], ordered[j]);
    assert Represented(s, ordered, rows, source, Identity(other[l]), j);
    var m :| 0 <= m < |rows| && source[m] < |ordered| && Identity(rows[m]) == Identity(other[l])
             && Beats(s, ordered, source[m], j);
    assert m == k;
    assert i == j;
  }

  /** An identity first appears at one place. */
  lemma OneOpening(s: Store, local: Option<Bytes>, naming: Naming, ordered: seq<Bytes>, identity: Bytes, i: nat, j: nat)
    requires Opening(s, local, naming, ordered, identity, i) && Opening(s, local, naming, ordered, identity, j)
    ensures i == j
  {
    hide Candidate, Identity;
  }

  ghost predicate SameElements(a: seq<nat>, b: seq<nat>) { forall x: nat :: x in a <==> x in b }

  /** An increasing list is determined by its elements. */
  lemma {:induction false} IncreasingUnique(a: seq<nat>, b: seq<nat>)
    requires Increasing(a) && Increasing(b) && SameElements(a, b)
    ensures a == b
  {
    if a == [] {
      var x := if b == [] then 0 else b[0];
      assert b == [] || x in b;
    } else {
      assert a[0] in b;
      LastGreatest(a, b);
      LastGreatest(b, a);
      var a', b' := a[..|a| - 1], b[..|b| - 1];
      WithoutLast(a);
      WithoutLast(b);
      forall x: nat
        ensures x in a' <==> x in b'
      {
        assert x in a <==> x in b;
      }
      IncreasingUnique(a', b');
      assert a == a' + [a[|a| - 1]] && b == b' + [b[|b| - 1]];
    }
  }

  lemma LastGreatest(a: seq<nat>, b: seq<nat>)
    requires Increasing(a) && a != [] && b != [] && SameElements(a, b)
    ensures b[|b| - 1] <= a[|a| - 1]
  {
    assert b[|b| - 1] in a;
  }

  lemma WithoutLast(a: seq<nat>)
    requires Increasing(a) && a != []
    ensures forall x: nat :: x in a[..|a| - 1] <==> x in a && x != a[|a| - 1]
    ensures Increasing(a[..|a| - 1])
  {
    assert a == a[..|a| - 1] + [a[|a| - 1]];
  }

  /** The list is determined: the cache leaves no choice of rows and none of their order. */
  lemma OneList(s: Store, local: Option<Bytes>, naming: Naming, rows: seq<Device>, other: seq<Device>)
    requires Listing(s, local, naming, rows) && Listing(s, local, naming, other)
    ensures rows == other
  {
    hide Shown, InstancesInOrder;
    var ordered: seq<Bytes> :| InstancesInOrder(s, ordered) && Shown(s, local, naming, ordered, rows);
    var ordered': seq<Bytes> :| InstancesInOrder(s, ordered') && Shown(s, local, naming, ordered', other);
    OneOrder(s, ordered, ordered');
    ShownOnce(s, local, naming, ordered, rows, other);
  }

  lemma ShownOnce(s: Store, local: Option<Bytes>, naming: Naming, ordered: seq<Bytes>, rows: seq<Device>,
                  other: seq<Device>)
    requires Shown(s, local, naming, ordered, rows) && Shown(s, local, naming, ordered, other)
    ensures rows == other
  {
    hide Published, Opening, Identity, Increasing;
    var source: seq<nat>, first: seq<nat> :|
      Published(s, local, naming, ordered, |ordered|, rows, source) && InOrder(s, local, naming, ordered, |ordered|,
                rows, first);
    var source': seq<nat>, first': seq<nat> :|
      Published(s, local, naming, ordered, |ordered|, other, source') && InOrder(s, local, naming, ordered,
                |ordered|, other, first');
    forall i | 0 <= i < |rows|
      ensures exists l :: 0 <= l < |other| && other[l] == rows[i] && first'[l] == first[i]
    {
      SameRow(s, local, naming, ordered, rows, source, first, other, source', first', i);
    }
    forall l | 0 <= l < |other|
      ensures first'[l] in first
    {
      SameRow(s, local, naming, ordered, other, source', first', rows, source, first, l);
    }
    assert SameElements(first, first');
    IncreasingUnique(first, first');
    forall i | 0 <= i < |rows|
      ensures rows[i] == other[i]
    {
      var l :| 0 <= l < |other| && other[l] == rows[i] && first'[l] == first[i];
      OnePlace(first, l, i);
    }
  }

  lemma OnePlace(first: seq<nat>, k: nat, l: nat)
    requires Increasing(first) && k < |first| && l < |first| && first[k] == first[l]
    ensures k == l
  {
  }

  lemma SameRow(s: Store, local: Option<Bytes>, naming: Naming, ordered: seq<Bytes>, rows: seq<Device>,
                source: seq<nat>, first: seq<nat>,
                other: seq<Device>, source': seq<nat>, first': seq<nat>, i: nat)
    requires Published(s, local, naming, ordered, |ordered|, rows, source)
    requires InOrder(s, local, naming, ordered, |ordered|, rows, first)
    requires Published(s, local, naming, ordered, |ordered|, other, source')
    requires InOrder(s, local, naming, ordered, |ordered|, other, first')
    requires i < |rows|
    ensures exists l :: 0 <= l < |other| && other[l] == rows[i] && first'[l] == first[i]
  {
    hide Published, Opening, Identity, Increasing;
    SameChoice(s, local, naming, ordered, rows, source, other, source', i);
    var l :| 0 <= l < |other| && other[l] == rows[i];
    OneOpening(s, local, naming, ordered, Identity(rows[i]), first[i], first'[l]);
  }
}
