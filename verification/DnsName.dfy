/** DNS names on the wire: the writer and the pointer-following reader of src/ShareService.cpp
    (sections 3.1 and 4.1.4 of RFC 1035). */
module DnsName {
  import opened ByteStrings

  const DOT: byte := 46
  const MAX_VISITS := 32

  // ---------------------------------------------------------------- dotted text

  /** toLower of a byte string read as Latin-1. */
  function LowerByte(b: byte): byte {
    if 65 <= b <= 90 || (192 <= b <= 222 && b != 215) then b + 32 else b
  }

  function Lower(s: Bytes): (r: Bytes)
    ensures |r| == |s|
  {
    seq(|s|, i requires 0 <= i < |s| => LowerByte(s[i]))
  }

  lemma LowerAppend(a: Bytes, b: Bytes)
    ensures Lower(a + b) == Lower(a) + Lower(b)
  {
  }

  /** Labels with dots between them. */
  function Join(labels: seq<Bytes>): Bytes {
    if labels == [] then []
    else if |labels| == 1 then labels[0]
    else labels[0] + [DOT] + Join(labels[1..])
  }

  ghost predicate GoodLabel(l: Bytes) { 1 <= |l| <= 63 }

  ghost predicate GoodLabels(labels: seq<Bytes>) { forall l :: l in labels ==> GoodLabel(l) }

  lemma {:induction false} JoinSnoc(labels: seq<Bytes>, l: Bytes)
    ensures Join(labels + [l]) == if labels == [] then l else Join(labels) + [DOT] + l
  {
    if |labels| == 1 {
      assert (labels + [l])[1..] == [l];
    } else if labels != [] {
      assert (labels + [l])[1..] == labels[1..] + [l];
      JoinSnoc(labels[1..], l);
    }
  }

  lemma {:induction false} JoinEmpty(labels: seq<Bytes>)
    requires GoodLabels(labels)
    ensures Join(labels) == [] <==> labels == []
  {
    if labels != [] {
      assert labels[0] in labels;
    }
  }

  // ---------------------------------------------------------------- the writer

  /** The bytes before the first dot. */
  function Until(s: Bytes): (r: Bytes)
    ensures |r| <= |s|
  {
    if s == [] || s[0] == DOT then [] else [s[0]] + Until(s[1..])
  }

  /** dnsName; the length is cut to a byte, and a final dot adds no label. */
  function Written(fqdn: Bytes): Bytes {
    if fqdn == [] then [0]
    else
      var l := Until(fqdn);
      [|l| % 256] + l + if |l| == |fqdn| then [0] else Written(fqdn[|l| + 1..])
  }

  lemma {:induction false} UntilIs(s: Bytes, k: nat)
    requires k <= |s| && DOT !in s[..k] && (k < |s| ==> s[k] == DOT)
    ensures Until(s) == s[..k]
  {
    if k > 0 {
      assert s[..k][0] == s[0];
      assert s[1..][..k - 1] == s[..k][1..];
      assert forall b :: b in s[..k][1..] ==> b in s[..k];
      UntilIs(s[1..], k - 1);
      assert s[..k] == [s[0]] + s[1..][..k - 1];
    }
  }

  /** memchr for a dot; the size when there is none. */
  method FindDot(s: Bytes, from: nat) returns (dot: nat)
    requires from <= |s|
    ensures from <= dot <= |s| && Until(s[from..]) == s[from..dot] && (dot < |s| ==> s[dot] == DOT)
  {
    dot := from;
    while dot < |s| && s[dot] != DOT
      invariant from <= dot <= |s| && DOT !in s[from..dot]
    {
      assert s[from..dot + 1] == s[from..dot] + [s[dot]];
      dot := dot + 1;
    }
    assert s[from..][..dot - from] == s[from..dot];
    UntilIs(s[from..], dot - from);
  }

  method DnsName(fqdn: Bytes) returns (out: Bytes)
    ensures out == Written(fqdn)
  {
    hide Written, Until;
    out := [];
    var p: nat := 0;
    assert fqdn[0..] == fqdn;
    while p < |fqdn|
      invariant p <= |fqdn| && out + Written(fqdn[p..]) == Written(fqdn)
    {
      var dot := FindDot(fqdn, p);
      var l := fqdn[p..dot];
      WrittenStep(out, fqdn, p, dot);
      out := out + [|l| % 256] + l;
      if dot == |fqdn| {
        out := out + [0];
        return;
      }
      p := dot + 1;
    }
    assert fqdn[p..] == [] && Written([]) == [0] by { NothingWritten(); }
    out := out + [0];
  }

  lemma NothingWritten()
    ensures Written([]) == [0]
  {
  }

  lemma WrittenStep(out: Bytes, fqdn: Bytes, p: nat, dot: nat)
    requires p < |fqdn| && p <= dot <= |fqdn| && Until(fqdn[p..]) == fqdn[p..dot]
    ensures var next := out + [(dot - p) % 256] + fqdn[p..dot];
      out + Written(fqdn[p..]) == next + if dot == |fqdn| then [0] else Written(fqdn[dot + 1..])
  {
    hide Until;
    var l := fqdn[p..dot];
    if dot < |fqdn| {
      assert fqdn[p..][|l| + 1..] == fqdn[dot + 1..];
    }
    var tail := if dot == |fqdn| then [0] else Written(fqdn[dot + 1..]);
    assert Written(fqdn[p..]) == [|l| % 256] + l + tail;
    assert out + ([|l| % 256] + l + tail) == out + [|l| % 256] + l + tail;
  }

  /** The labels of a name one after the other, and the root. */
  function Encoded(labels: seq<Bytes>): Bytes {
    if labels == [] then [0] else [|labels[0]| % 256] + labels[0] + Encoded(labels[1..])
  }

  lemma {:induction false} UntilDot(l: Bytes, rest: Bytes)
    requires DOT !in l && (rest == [] || rest[0] == DOT)
    ensures Until(l + rest) == l
  {
    if l == [] {
      assert l + rest == rest;
    } else {
      assert (l + rest)[1..] == l[1..] + rest;
      UntilDot(l[1..], rest);
    }
  }

  /** On dotted labels the writer writes just those. */
  lemma {:induction false} WritesLabels(labels: seq<Bytes>)
    requires GoodLabels(labels) && forall l :: l in labels ==> DOT !in l
    ensures Written(Join(labels)) == Encoded(labels)
  {
    if labels != [] {
      var l, rest := labels[0], labels[1..];
      assert l in labels;
      WritesLabels(rest);
      if rest == [] {
        assert l + [] == l;
        UntilDot(l, []);
      } else {
        var tail := [DOT] + Join(rest);
        assert Join(labels) == l + tail;
        UntilDot(l, tail);
        assert (l + tail)[|l| + 1..] == Join(rest);
      }
    }
  }

  // ---------------------------------------------------------------- what stands at a position

  datatype Token = Root | Label(text: Bytes) | Pointer(target: nat) | Bad

  function At(buf: Bytes, pos: nat): Token {
    if pos >= |buf| then Bad
    else
      var length := buf[pos] as int;
      if length == 0 then Root
      else if length >= 192 then
        if pos + 1 >= |buf| then Bad else Pointer((length - 192) * 256 + buf[pos + 1] as int)
      else if length > 63 || pos + 1 + length > |buf| then Bad
      else Label(buf[pos + 1..pos + 1 + length])
  }

  /** The name at `pos` is this list of labels, found by visiting `visits` positions. */
  ghost predicate Expands(buf: Bytes, pos: nat, visits: nat, labels: seq<Bytes>)
    decreases visits
  {
    && visits > 0
    && match At(buf, pos)
       case Bad => false
       case Root => visits == 1 && labels == []
       case Label(text) => labels != [] && labels[0] == text && Expands(buf, pos + 1 + |text|, visits - 1, labels[1..])
       case Pointer(target) => Expands(buf, target, visits - 1, labels)
  }

  /** Where the reader stands afterwards: behind the name's own bytes, not behind what they point to. */
  function End(buf: Bytes, pos: nat): (r: nat)
    ensures At(buf, pos) != Bad ==> r > pos
    ensures pos <= |buf| ==> pos <= r <= |buf|
    decreases |buf| - pos
  {
    match At(buf, pos)
    case Bad => pos
    case Root => pos + 1
    case Pointer(_) => pos + 2
    case Label(text) => End(buf, pos + 1 + |text|)
  }

  // ---------------------------------------------------------------- the reader

  /** The loop of readDnsName with `budget` turns left. */
  function Expansion(buf: Bytes, pos: nat, budget: nat): Option<seq<Bytes>>
    decreases budget
  {
    if budget == 0 then None
    else match At(buf, pos)
         case Bad => None
         case Root => Some([])
         case Pointer(target) => Expansion(buf, target, budget - 1)
         case Label(text) =>
           match Expansion(buf, pos + 1 + |text|, budget - 1)
           case None => None
           case Some(rest) => Some([text] + rest)
  }

  datatype Read = Read(name: Bytes, position: nat)

  /** readDnsName, for any number of turns. */
  function ReadWithin(buf: Bytes, pos: nat, budget: nat): Option<Read> {
    match Expansion(buf, pos, budget)
    case None => None
    case Some(labels) => Some(Read(Lower(Join(labels)), End(buf, pos)))
  }

  function ReadName(buf: Bytes, pos: nat): Option<Read> { ReadWithin(buf, pos, MAX_VISITS) }

  function Prepend(before: seq<Bytes>, rest: Option<seq<Bytes>>): Option<seq<Bytes>> {
    match rest
    case None => None
    case Some(labels) => Some(before + labels)
  }

  method ReadDnsName(buf: Bytes, position: nat) returns (ok: bool, name: Bytes, newPosition: nat)
    ensures ok <==> ReadName(buf, position).Some?
    ensures ok ==> ReadName(buf, position) == Some(Read(name, newPosition)) && position < newPosition <= |buf|
  {
    hide Expansion, Join, Lower, End;
    var pos: nat, jumps: nat, jumped, value := position, 0, false, [];
    ghost var labels: seq<Bytes> := [];
    newPosition := position;
    NoLabels(Expansion(buf, pos, MAX_VISITS));
    while pos < |buf| && jumps < MAX_VISITS
      invariant jumps <= MAX_VISITS && value == Join(labels) && GoodLabels(labels)
      invariant Expansion(buf, position, MAX_VISITS) == Prepend(labels, Expansion(buf, pos, MAX_VISITS - jumps))
      invariant End(buf, position) == if jumped then newPosition else End(buf, pos)
      decreases MAX_VISITS - jumps
    {
      ExpansionStep(buf, pos, MAX_VISITS - jumps);
      EndStep(buf, pos);
      EndStep(buf, position);
      jumps := jumps + 1;
      var length := buf[pos] as int;
      if length == 0 {
        pos := pos + 1;
        if !jumped {
          newPosition := pos;
        }
        assert labels + [] == labels;
        ReadAdvances(buf, position, MAX_VISITS);
        return true, Lower(value), newPosition;
      }
      if length >= 192 {
        if pos + 1 >= |buf| {
          return false, [], newPosition;
        }
        if !jumped {
          newPosition := pos + 2;
        }
        pos := (length - 192) * 256 + buf[pos + 1] as int;
        jumped := true;
      } else {
        if length > 63 || pos + 1 + length > |buf| {
          return false, [], newPosition;
        }
        var text := buf[pos + 1..pos + 1 + length];
        JoinEmpty(labels);
        JoinSnoc(labels, text);
        PrependMore(labels, text, Expansion(buf, pos + 1 + length, MAX_VISITS - jumps));
        if value != [] {
          value := value + [DOT];
        }
        value := value + text;
        labels := labels + [text];
        pos := pos + length + 1;
      }
    }
    ExpansionStops(buf, pos, MAX_VISITS - jumps);
    return false, [], newPosition;
  }

  lemma NoLabels(e: Option<seq<Bytes>>)
    ensures Prepend([], e) == e && Join([]) == []
  {
    if e.Some? {
      assert [] + e.value == e.value;
    }
  }

  lemma ExpansionStep(buf: Bytes, pos: nat, budget: nat)
    requires budget > 0
    ensures Expansion(buf, pos, budget) ==
      match At(buf, pos)
      case Bad => None
      case Root => Some([])
      case Pointer(target) => Expansion(buf, target, budget - 1)
      case Label(text) => Prepend([text], Expansion(buf, pos + 1 + |text|, budget - 1))
  {
  }

  lemma ExpansionStops(buf: Bytes, pos: nat, budget: nat)
    requires budget == 0 || pos >= |buf|
    ensures Expansion(buf, pos, budget) == None
  {
  }

  lemma EndStep(buf: Bytes, pos: nat)
    ensures End(buf, pos) ==
      match At(buf, pos)
      case Bad => pos
      case Root => pos + 1
      case Pointer(_) => pos + 2
      case Label(text) => End(buf, pos + 1 + |text|)
  {
  }

  lemma ReadAdvances(buf: Bytes, pos: nat, budget: nat)
    requires Expansion(buf, pos, budget).Some?
    ensures pos < End(buf, pos) <= |buf|
  {
  }

  lemma PrependMore(before: seq<Bytes>, text: Bytes, rest: Option<seq<Bytes>>)
    ensures Prepend(before + [text], rest) == Prepend(before, Prepend([text], rest))
  {
    if rest.Some? {
      assert before + [text] + rest.value == before + ([text] + rest.value);
    }
  }

  // ---------------------------------------------------------------- the reader follows the declaration

  lemma {:induction false} ExpansionIs(buf: Bytes, pos: nat, budget: nat, visits: nat, labels: seq<Bytes>)
    requires Expands(buf, pos, visits, labels)
    ensures Expansion(buf, pos, budget) == if visits <= budget then Some(labels) else None
    decreases visits
  {
    if budget > 0 {
      match At(buf, pos)
      case Bad =>
      case Root =>
      case Pointer(target) => ExpansionIs(buf, target, budget - 1, visits - 1, labels);
      case Label(text) =>
        ExpansionIs(buf, pos + 1 + |text|, budget - 1, visits - 1, labels[1..]);
        assert [text] + labels[1..] == labels;
    }
  }

  lemma {:induction false} ExpansionFound(buf: Bytes, pos: nat, budget: nat) returns (visits: nat)
    requires Expansion(buf, pos, budget).Some?
    ensures visits <= budget && Expands(buf, pos, visits, Expansion(buf, pos, budget).value)
    decreases budget
  {
    match At(buf, pos)
    case Root => visits := 1;
    case Pointer(target) =>
      visits := ExpansionFound(buf, target, budget - 1);
      visits := visits + 1;
    case Label(text) =>
      visits := ExpansionFound(buf, pos + 1 + |text|, budget - 1);
      var rest := Expansion(buf, pos + 1 + |text|, budget - 1).value;
      assert ([text] + rest)[1..] == rest;
      visits := visits + 1;
  }

  ghost predicate ExpandsWithin(buf: Bytes, pos: nat, budget: nat, labels: seq<Bytes>) {
    exists visits: nat :: visits <= budget && Expands(buf, pos, visits, labels)
  }

  lemma ReaderFollows(buf: Bytes, pos: nat, budget: nat, labels: seq<Bytes>)
    ensures Expansion(buf, pos, budget) == Some(labels) <==> ExpandsWithin(buf, pos, budget, labels)
  {
    hide Expansion;
    if Expansion(buf, pos, budget) == Some(labels) {
      var found := ExpansionFound(buf, pos, budget);
      assert Expands(buf, pos, found, labels);
    }
    if ExpandsWithin(buf, pos, budget, labels) {
      var visits: nat :| visits <= budget && Expands(buf, pos, visits, labels);
      ExpansionIs(buf, pos, budget, visits, labels);
    }
  }

  /** On arbitrary bytes the reader succeeds exactly on the names that expand within its thirty-two turns,
      and returns that expansion; it always moves forward and never out of the packet. */
  lemma ReaderFollowsPointers(buf: Bytes, pos: nat)
    ensures ReadName(buf, pos).Some? <==> exists labels :: ExpandsWithin(buf, pos, MAX_VISITS, labels)
    ensures forall labels :: ExpandsWithin(buf, pos, MAX_VISITS, labels) ==>
              ReadName(buf, pos) == Some(Read(Lower(Join(labels)), End(buf, pos)))
    ensures ReadName(buf, pos).Some? ==> pos < ReadName(buf, pos).value.position <= |buf|
  {
    hide Expansion, ExpandsWithin, End, Join, Lower;
    var e := Expansion(buf, pos, MAX_VISITS);
    if e.Some? {
      ReadAdvances(buf, pos, MAX_VISITS);
      ReaderFollows(buf, pos, MAX_VISITS, e.value);
    }
    forall labels | ExpandsWithin(buf, pos, MAX_VISITS, labels)
      ensures e == Some(labels)
    {
      ReaderFollows(buf, pos, MAX_VISITS, labels);
    }
  }

  // ---------------------------------------------------------------- cycles

  /** Where the reader is after so many turns, if it has neither stopped nor failed. */
  function After(buf: Bytes, pos: nat, turns: nat): Option<nat>
    decreases turns
  {
    if turns == 0 then Some(pos)
    else match At(buf, pos)
         case Label(text) => After(buf, pos + 1 + |text|, turns - 1)
         case Pointer(target) => After(buf, target, turns - 1)
         case _ => None
  }

  lemma {:induction false} ExpandsLater(buf: Bytes, pos: nat, turns: nat, visits: nat,
                                        labels: seq<Bytes>) returns (rest: seq<Bytes>)
    requires Expands(buf, pos, visits, labels) && After(buf, pos, turns).Some?
    ensures turns < visits && Expands(buf, After(buf, pos, turns).value, visits - turns, rest)
    decreases turns
  {
    rest := labels;
    if turns > 0 {
      match At(buf, pos)
      case Label(text) => rest := ExpandsLater(buf, pos + 1 + |text|, turns - 1, visits - 1, labels[1..]);
      case Pointer(target) => rest := ExpandsLater(buf, target, turns - 1, visits - 1, labels);
      case _ =>
    }
  }

  /** A name has one expansion at most. */
  lemma {:induction false} OneExpansion(buf: Bytes, pos: nat, m: nat, a: seq<Bytes>, n: nat, b: seq<Bytes>)
    requires Expands(buf, pos, m, a) && Expands(buf, pos, n, b)
    ensures m == n && a == b
    decreases m
  {
    match At(buf, pos)
    case Label(text) =>
      OneExpansion(buf, pos + 1 + |text|, m - 1, a[1..], n - 1, b[1..]);
      assert a == [a[0]] + a[1..] && b == [b[0]] + b[1..];
    case Pointer(target) => OneExpansion(buf, target, m - 1, a, n - 1, b);
    case _ =>
  }

  /** A name that leads into a cycle, of whatever pointers and labels, has no expansion and is refused. */
  lemma CyclesFail(buf: Bytes, pos: nat, lead: nat, around: nat)
    requires After(buf, pos, lead).Some? && around > 0
    requires After(buf, After(buf, pos, lead).value, around) == After(buf, pos, lead)
    ensures forall visits: nat, labels :: !Expands(buf, pos, visits, labels)
    ensures ReadName(buf, pos) == None
  {
    hide Expansion, Expands, After;
    var q := After(buf, pos, lead).value;
    forall visits: nat, labels
      ensures !Expands(buf, pos, visits, labels)
    {
      if Expands(buf, pos, visits, labels) {
        var first := ExpandsLater(buf, pos, lead, visits, labels);
        var second := ExpandsLater(buf, q, around, visits - lead, first);
        OneExpansion(buf, q, visits - lead, first, visits - lead - around, second);
      }
    }
    if Expansion(buf, pos, MAX_VISITS).Some? {
      var visits := ExpansionFound(buf, pos, MAX_VISITS);
    }
  }

  // ---------------------------------------------------------------- the reader inverts the writer

  lemma {:induction false} EncodedExpands(buf: Bytes, pos: nat, labels: seq<Bytes>)
    requires GoodLabels(labels) && pos + |Encoded(labels)| <= |buf|
    requires buf[pos..pos + |Encoded(labels)|] == Encoded(labels)
    ensures Expands(buf, pos, |labels| + 1, labels) && End(buf, pos) == pos + |Encoded(labels)|
    decreases |labels|
  {
    hide GoodLabels, At;
    if labels == [] {
      EncodedRoot(buf, pos);
    } else {
      var l, rest := labels[0], labels[1..];
      TailGood(labels);
      EncodedParts(buf, pos, labels);
      EncodedExpands(buf, pos + 1 + |l|, rest);
    }
  }

  lemma EncodedRoot(buf: Bytes, pos: nat)
    requires pos + 1 <= |buf| && buf[pos..pos + 1] == [0]
    ensures At(buf, pos) == Root
  {
    assert buf[pos] == buf[pos..pos + 1][0];
  }

  lemma TailGood(labels: seq<Bytes>)
    requires GoodLabels(labels) && labels != []
    ensures GoodLabel(labels[0]) && GoodLabels(labels[1..])
  {
    assert labels[0] in labels;
  }

  lemma EncodedParts(buf: Bytes, pos: nat, labels: seq<Bytes>)
    requires labels != [] && GoodLabel(labels[0])
    requires pos + |Encoded(labels)| <= |buf| && buf[pos..pos + |Encoded(labels)|] == Encoded(labels)
    ensures var l, rest := labels[0], labels[1..];
      && At(buf, pos) == Label(l) && |Encoded(labels)| == 1 + |l| + |Encoded(rest)|
      && buf[pos + 1 + |l|..pos + |Encoded(labels)|] == Encoded(rest)
  {
    var l, rest, n := labels[0], labels[1..], |Encoded(labels)|;
    hide GoodLabel, LowerByte;
    assert Encoded(labels) == [|l|] + l + Encoded(rest);
    assert buf[pos] == buf[pos..pos + n][0];
    assert Encoded(labels)[1..1 + |l|] == l && Encoded(labels)[1 + |l|..n] == Encoded(rest);
    SliceOfSlice(buf, pos, pos + n, 1, 1 + |l|);
    SliceOfSlice(buf, pos, pos + n, 1 + |l|, n);
  }

  /** An encoded name is read from wherever it stands; its labels may even contain dots. */
  lemma EncodedRead(buf: Bytes, pos: nat, labels: seq<Bytes>)
    requires GoodLabels(labels) && pos + |Encoded(labels)| <= |buf|
    requires buf[pos..pos + |Encoded(labels)|] == Encoded(labels)
    ensures ReadName(buf, pos) ==
      if |labels| <= 31 then Some(Read(Lower(Join(labels)), pos + |Encoded(labels)|)) else None
  {
    hide Expansion, Expands, Encoded, End;
    EncodedExpands(buf, pos, labels);
    ExpansionIs(buf, pos, MAX_VISITS, |labels| + 1, labels);
  }

  /** Anywhere in a packet, names of at most thirty-one labels of 1 to 63 bytes come back in lower case,
      and longer ones do not come back. */
  lemma NameRoundTrip(before: Bytes, labels: seq<Bytes>, after: Bytes)
    requires GoodLabels(labels) && forall l :: l in labels ==> DOT !in l
    ensures var name := Written(Join(labels));
      ReadName(before + name + after, |before|) ==
        if |labels| <= 31 then Some(Read(Lower(Join(labels)), |before| + |name|)) else None
  {
    hide Written, Encoded, ReadName;
    WritesLabels(labels);
    var name := Encoded(labels);
    assert (before + name + after)[|before|..|before| + |name|] == name;
    EncodedRead(before + name + after, |before|, labels);
  }
}
