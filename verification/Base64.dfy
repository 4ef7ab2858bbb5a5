/** The URL-safe base64 of the advertised endpoint information (section 5 of RFC 4648) and its decoding. */
module Base64 {
  import opened ByteStrings

  /** The symbol of a six-bit group in the URL-safe alphabet. */
  function Symbol(v: nat): byte
    requires v < 64
  {
    if v < 26 then 65 + v else if v < 52 then 97 + (v - 26)
    else if v < 62 then 48 + (v - 52) else if v == 62 then 45 else 95
  }

  predicate UrlSafe(b: byte) { 65 <= b <= 90 || 97 <= b <= 122 || 48 <= b <= 57 || b == 45 || b == 95 }

  /** The symbols of a group of three bytes. */
  function Symbol1(b0: byte): byte { Symbol(b0 / 4) }
  function Symbol2(b0: byte, b1: byte): byte { Symbol(b0 % 4 * 16 + b1 / 16) }
  function Symbol3(b1: byte, b2: byte): byte { Symbol(b1 % 16 * 4 + b2 / 64) }
  function Symbol4(b2: byte): byte { Symbol(b2 % 64) }

  /** The groups of three bytes; a short last group has one symbol more than bytes. */
  function Encoded(data: Bytes): Bytes
    decreases |data|
  {
    if data == [] then []
    else if |data| == 1 then [Symbol1(data[0]), Symbol2(data[0], 0)]
    else if |data| == 2 then [Symbol1(data[0]), Symbol2(data[0], data[1]), Symbol3(data[1], 0)]
    else Group(data[0], data[1], data[2]) + Encoded(data[3..])
  }

  function Group(b0: byte, b1: byte, b2: byte): Bytes {
    [Symbol1(b0), Symbol2(b0, b1), Symbol3(b1, b2), Symbol4(b2)]
  }

  method UrlSafeB64(data: Bytes) returns (out: Bytes)
    ensures out == Encoded(data)
  {
    hide Encoded, Written;
    out := [];
    var i: nat := 0;
    assert data[0..] == data;
    while i < |data|
      invariant out + Encoded(From(data, i)) == Encoded(data)
      decreases |data| - i
    {
      var b0 := data[i] as int;
      var b1 := if i + 1 < |data| then data[i + 1] as int else 0;
      var b2 := if i + 2 < |data| then data[i + 2] as int else 0;
      EncodedStep(data, i, b0, b1, b2);
      ghost var before := out;
      out := AppendGroup(out, b0, b1, b2, |data| - i);
      assert before + (Written(b0, b1, b2, |data| - i) + Encoded(From(data, i + 3)))
          == out + Encoded(From(data, i + 3));
      i := i + 3;
    }
    NoMore(data, i);
    assert out + [] == out;
  }

  /** The symbols of a group of which only `left` bytes are there. */
  method AppendGroup(out: Bytes, b0: byte, b1: byte, b2: byte, left: nat) returns (r: Bytes)
    ensures r == out + Written(b0, b1, b2, left)
  {
    hide Symbol;
    r := out + [Symbol(b0 / 4)];
    r := r + [Symbol(b0 % 4 * 16 + b1 / 16)];
    if left > 1 {
      r := r + [Symbol(b1 % 16 * 4 + b2 / 64)];
    }
    if left > 2 {
      r := r + [Symbol(b2 % 64)];
    }
  }

  function From(data: Bytes, i: nat): Bytes { if i < |data| then data[i..] else [] }

  /** What one turn appends when so many bytes are left. */
  function Written(b0: byte, b1: byte, b2: byte, left: nat): Bytes {
    [Symbol1(b0), Symbol2(b0, b1)] + (if left > 1 then [Symbol3(b1, b2)] else [])
    + (if left > 2 then [Symbol4(b2)] else [])
  }

  lemma EncodedStep(data: Bytes, i: nat, b0: byte, b1: byte, b2: byte)
    requires i < |data| && b0 == data[i]
    requires b1 == (if i + 1 < |data| then data[i + 1] else 0) && b2 == (if i + 2 < |data| then data[i + 2] else 0)
    ensures Encoded(From(data, i)) == Written(b0, b1, b2, |data| - i) + Encoded(From(data, i + 3))
  {
    hide Symbol1, Symbol2, Symbol3, Symbol4;
    var rest := data[i..];
    if |rest| >= 3 {
      assert rest[3..] == From(data, i + 3);
    }
  }

  lemma NoMore(data: Bytes, i: nat)
    requires i >= |data|
    ensures Encoded(From(data, i)) == []
  {
  }

  // ---------------------------------------------------------------- as numbers

  /** Capitals, small letters, decimal digits, and the two symbols safe in URLs. */
  lemma AlphabetMeaning(v: nat)
    requires v < 64
    ensures v < 26 ==> Symbol(v) == 'A' as int + v
    ensures 26 <= v < 52 ==> Symbol(v) == 'a' as int + (v - 26)
    ensures 52 <= v < 62 ==> Symbol(v) == '0' as int + (v - 52)
    ensures v >= 62 ==> Symbol(v) == if v == 62 then '-' as int else '_' as int
  {
  }

  /** A number in so many digits of base 64, the high one first. */
  function Digits(n: nat, count: nat): Bytes {
    if count == 0 then [] else Digits(n / 64, count - 1) + [Symbol(n % 64)]
  }

  lemma DigitsOf(n: nat, rest: nat, low: nat, count: nat)
    requires n == 64 * rest + low && low < 64 && count > 0
    ensures Digits(n, count) == Digits(rest, count - 1) + [Symbol(low)]
  {
    assert n / 64 == rest && n % 64 == low;
  }

  lemma TwoDigits(a: nat, b: nat)
    requires a < 64 && b < 64
    ensures Digits(64 * a + b, 2) == [Symbol(a), Symbol(b)]
  {
    hide Symbol, Digits;
    DigitsOf(64 * a + b, a, b, 2);
    DigitsOf(a, 0, a, 1);
    NoDigits(0);
  }

  lemma NoDigits(n: nat)
    ensures Digits(n, 0) == []
  {
  }

  lemma GroupDigits(b0: byte, b1: byte, b2: byte)
    ensures Group(b0, b1, b2) == Digits(b0 as int * 65536 + b1 as int * 256 + b2, 4)
    ensures [Symbol1(b0), Symbol2(b0, b1), Symbol3(b1, 0)] == Digits((b0 as int * 256 + b1) * 4, 3)
    ensures [Symbol1(b0), Symbol2(b0, 0)] == Digits(b0 as int * 16, 2)
  {
    hide Symbol, Digits;
    var s0, s1, s2, s3 := b0 / 4, b0 % 4 * 16 + b1 / 16, b1 % 16 * 4 + b2 / 64, b2 % 64;
    var upper := 64 * s0 + s1;
    assert b0 as int * 65536 + b1 as int * 256 + b2 == 64 * (64 * upper + s2) + s3;
    assert (b0 as int * 256 + b1) * 4 == 64 * upper + b1 % 16 * 4;
    assert b0 as int * 16 == 64 * s0 + b0 % 4 * 16;
    TwoDigits(s0, s1);
    TwoDigits(s0, b0 % 4 * 16);
    DigitsOf(64 * upper + s2, upper, s2, 3);
    DigitsOf(64 * (64 * upper + s2) + s3, 64 * upper + s2, s3, 4);
    DigitsOf((b0 as int * 256 + b1) * 4, upper, b1 % 16 * 4, 3);
  }

  /** Three bytes are written as the four digits of their number; two or one are filled up with zero bits to
      the next digit. */
  lemma EncodedDigits(b0: byte, b1: byte, b2: byte)
    ensures Encoded([b0, b1, b2]) == Digits(b0 as int * 65536 + b1 as int * 256 + b2, 4)
    ensures Encoded([b0, b1]) == Digits((b0 as int * 256 + b1) * 4, 3)
    ensures Encoded([b0]) == Digits(b0 as int * 16, 2)
  {
    hide Symbol1, Symbol2, Symbol3, Symbol4, Digits, Group;
    GroupDigits(b0, b1, b2);
    assert |[b0, b1, b2][3..]| == 0;
  }

  /** And longer data three by three, independently. */
  lemma {:induction false} EncodedAppend(data: Bytes, more: Bytes)
    requires |data| % 3 == 0
    ensures Encoded(data + more) == Encoded(data) + Encoded(more)
    decreases |data|
  {
    hide Group;
    if data == [] {
      assert data + more == more;
    } else {
      assert (data + more)[3..] == data[3..] + more;
      EncodedAppend(data[3..], more);
    }
  }

  // ---------------------------------------------------------------- decoding

  /** The value of a symbol in the standard alphabet. */
  function Value(b: byte): Option<nat> {
    if 65 <= b <= 90 then Some(b - 65)
    else if 97 <= b <= 122 then Some(b - 97 + 26)
    else if 48 <= b <= 57 then Some(b - 48 + 52)
    else if b == 43 then Some(62)
    else if b == 47 then Some(63)
    else None
  }

  function Pow2(n: nat): nat
    ensures Pow2(n) > 0
  {
    if n == 0 then 1 else 2 * Pow2(n - 1)
  }

  /** fromBase64: bits are gathered six at a time and given out eight at a time; other bytes are skipped. */
  function Gather(s: Bytes, pending: nat, bits: nat): Bytes
    requires bits < 8 && pending < Pow2(bits)
    decreases |s|
  {
    if s == [] then []
    else match Value(s[0])
         case None => Gather(s[1..], pending, bits)
         case Some(v) =>
           var all, n := pending * 64 + v, bits + 6;
           if n < 8 then Room(pending, bits, v); Gather(s[1..], all, n)
           else [all / Pow2(n - 8) % 256] + Gather(s[1..], all % Pow2(n - 8), n - 8)
  }

  lemma Room(pending: nat, bits: nat, v: nat)
    requires bits < 2 && pending < Pow2(bits) && v < 64
    ensures pending * 64 + v < Pow2(bits + 6)
  {
    assert Pow2(6) == 64 && Pow2(7) == 128;
  }

  /** The two symbols that differ, back to the standard alphabet. */
  function Swap(b: byte): byte { if b == 45 then 43 else if b == 95 then 47 else b }

  function Replaced(s: Bytes): (r: Bytes)
    ensures |r| == |s|
  {
    seq(|s|, i requires 0 <= i < |s| => Swap(s[i]))
  }

  function Padding(n: nat): Bytes { seq((4 - n % 4) % 4, i => 61) }

  /** decodeEndpointInfo. */
  function DecodeEndpointInfo(txt: Bytes): Bytes { Gather(Replaced(txt) + Padding(|txt|), 0, 0) }

  method FromBase64(value: Bytes) returns (r: Bytes)
    ensures r == Gather(value, 0, 0)
  {
    hide Gather, Value;
    r := [];
    var pending: nat, bits: nat := 0, 0;
    var i := 0;
    assert value[0..] == value;
    while i < |value|
      invariant i <= |value| && bits < 8 && pending < Pow2(bits)
      invariant r + Gather(value[i..], pending, bits) == Gather(value, 0, 0)
    {
      GatherStep(value, i, pending, bits);
      var v := Value(value[i]);
      if v.Some? {
        pending := pending * 64 + v.value;
        bits := bits + 6;
        if bits >= 8 {
          bits := bits - 8;
          r := r + [pending / Pow2(bits) % 256];
          pending := pending % Pow2(bits);
        }
      }
      i := i + 1;
    }
    NothingGathered(value, pending, bits);
    assert r + [] == r;
  }

  lemma GatherStep(s: Bytes, i: nat, pending: nat, bits: nat)
    requires i < |s| && bits < 8 && pending < Pow2(bits)
    ensures match Value(s[i])
      case None => Gather(s[i..], pending, bits) == Gather(s[i + 1..], pending, bits)
      case Some(v) =>
        var all, n := pending * 64 + v, bits + 6;
        if n < 8 then all < Pow2(n) && Gather(s[i..], pending, bits) == Gather(s[i + 1..], all, n)
        else Gather(s[i..], pending, bits) == [all / Pow2(n - 8) % 256] + Gather(s[i + 1..], all % Pow2(n - 8), n - 8)
  {
    assert s[i..][1..] == s[i + 1..];
    if Value(s[i]).Some? && bits + 6 < 8 {
      ValueSmall(s[i]);
      Room(pending, bits, Value(s[i]).value);
    }
  }

  lemma ValueSmall(b: byte)
    ensures Value(b).Some? ==> Value(b).value < 64
  {
  }

  lemma NothingGathered(s: Bytes, pending: nat, bits: nat)
    requires bits < 8 && pending < Pow2(bits)
    ensures Gather(s[|s|..], pending, bits) == []
  {
  }

  method DecodeEndpoint(txt: Bytes) returns (r: Bytes)
    ensures r == DecodeEndpointInfo(txt)
  {
    hide Gather;
    var value := Replaced(txt);
    ghost var added := 0;
    while |value| % 4 != 0
      invariant value == Replaced(txt) + seq(added, i => 61) && 0 <= added <= (4 - |txt| % 4) % 4
      decreases (4 - |txt| % 4) % 4 - added
    {
      value := value + [61];
      added := added + 1;
    }
    r := FromBase64(value);
  }

  // ---------------------------------------------------------------- decoding undoes encoding

  lemma ReplacedAppend(a: Bytes, b: Bytes)
    ensures Replaced(a + b) == Replaced(a) + Replaced(b)
  {
  }

  function Standard(v: nat): byte
    requires v < 64
  {
    if v < 26 then 65 + v else if v < 52 then 97 + (v - 26)
    else if v < 62 then 48 + (v - 52) else if v == 62 then 43 else 47
  }

  lemma GatherOne(v: nat, rest: Bytes, pending: nat, bits: nat)
    requires v < 64 && bits < 8 && pending < Pow2(bits)
    ensures bits < 2 ==> pending * 64 + v < Pow2(bits + 6)
    ensures Gather([Standard(v)] + rest, pending, bits) ==
      if bits < 2 then Gather(rest, pending * 64 + v, bits + 6)
      else [(pending * 64 + v) / Pow2(bits - 2) % 256] + Gather(rest, (pending * 64 + v) % Pow2(bits - 2), bits - 2)
  {
    assert ([Standard(v)] + rest)[1..] == rest;
    if bits < 2 {
      Room(pending, bits, v);
    }
  }

  lemma Powers()
    ensures Pow2(0) == 1 && Pow2(2) == 4 && Pow2(4) == 16 && Pow2(6) == 64
  {
  }

  /** The bytes of a group, put together again. */
  lemma GroupArithmetic(b0: byte, b1: byte, b2: byte)
    ensures var x := b0 / 4 * 64 + (b0 % 4 * 16 + b1 / 16);
      x / 16 % 256 == b0 && x % 16 == b1 / 16
    ensures var y := b1 / 16 * 64 + (b1 % 16 * 4 + b2 / 64);
      y / 4 % 256 == b1 && y % 4 == b2 / 64
    ensures b2 / 64 * 64 + b2 % 64 == b2
  {
  }

  lemma GatherTwo(b0: byte, b1: byte, rest: Bytes)
    ensures b1 / 16 < Pow2(4)
    ensures Gather([First(b0)] + ([Second(b0, b1)] + rest), 0, 0) == [b0] + Gather(rest, b1 / 16, 4)
  {
    hide Gather, Standard;
    Powers();
    GroupArithmetic(b0, b1, 0);
    GatherOne(b0 / 4, [Standard(b0 % 4 * 16 + b1 / 16)] + rest, 0, 0);
    GatherOne(b0 % 4 * 16 + b1 / 16, rest, b0 / 4, 6);
  }

  lemma GatherThird(b1: byte, b2: byte, rest: Bytes)
    ensures b1 / 16 < Pow2(4) && b2 / 64 < Pow2(2)
    ensures Gather([Third(b1, b2)] + rest, b1 / 16, 4) == [b1] + Gather(rest, b2 / 64, 2)
  {
    hide Gather, Standard;
    Powers();
    GroupArithmetic(0, b1, b2);
    GatherOne(b1 % 16 * 4 + b2 / 64, rest, b1 / 16, 4);
  }

  lemma GatherFourth(b2: byte, rest: Bytes)
    ensures b2 / 64 < Pow2(2)
    ensures Gather([Fourth(b2)] + rest, b2 / 64, 2) == [b2] + Gather(rest, 0, 0)
  {
    hide Gather, Standard;
    Powers();
    GatherOne(b2 % 64, rest, b2 / 64, 2);
  }

  lemma {:induction false} OnlyPadding(s: Bytes, pending: nat, bits: nat)
    requires bits < 8 && pending < Pow2(bits) && forall i :: 0 <= i < |s| ==> s[i] == 61
    ensures Gather(s, pending, bits) == []
    decreases |s|
  {
    if s != [] {
      OnlyPadding(s[1..], pending, bits);
    }
  }

  /** The four symbols of a group, in the standard alphabet. */
  function First(b0: byte): byte { Standard(b0 / 4) }
  function Second(b0: byte, b1: byte): byte { Standard(b0 % 4 * 16 + b1 / 16) }
  function Third(b1: byte, b2: byte): byte { Standard(b1 % 16 * 4 + b2 / 64) }
  function Fourth(b2: byte): byte { Standard(b2 % 64) }

  /** What the replacement turns an encoding into. */
  function StandardForm(data: Bytes): Bytes
    decreases |data|
  {
    if data == [] then []
    else if |data| == 1 then [First(data[0]), Second(data[0], 0)]
    else if |data| == 2 then [First(data[0]), Second(data[0], data[1]), Third(data[1], 0)]
    else [First(data[0]), Second(data[0], data[1]), Third(data[1], data[2]), Fourth(data[2])] + StandardForm(data[3..])
  }

  lemma SymbolRead(v: nat)
    requires v < 64
    ensures UrlSafe(Symbol(v)) && Swap(Symbol(v)) == Standard(v)
  {
  }

  lemma GroupForm(b0: byte, b1: byte, b2: byte)
    ensures Swap(Symbol1(b0)) == First(b0) && Swap(Symbol2(b0, b1)) == Second(b0, b1)
    ensures Swap(Symbol3(b1, b2)) == Third(b1, b2) && Swap(Symbol4(b2)) == Fourth(b2)
    ensures UrlSafe(Symbol1(b0)) && UrlSafe(Symbol2(b0, b1)) && UrlSafe(Symbol3(b1, b2)) && UrlSafe(Symbol4(b2))
  {
    hide Symbol, Swap, UrlSafe, Standard;
    SymbolRead(b0 / 4);
    SymbolRead(b0 % 4 * 16 + b1 / 16);
    SymbolRead(b1 % 16 * 4 + b2 / 64);
    SymbolRead(b2 % 64);
  }

  lemma {:induction false} EncodingForm(data: Bytes)
    ensures Replaced(Encoded(data)) == StandardForm(data)
    ensures forall b :: b in Encoded(data) ==> UrlSafe(b)
    ensures |Encoded(data)| == (4 * |data| + 2) / 3
    decreases |data|
  {
    hide Symbol1, Symbol2, Symbol3, Symbol4, Swap, UrlSafe, First, Second, Third, Fourth;
    if |data| == 1 {
      GroupForm(data[0], 0, 0);
    } else if |data| == 2 {
      GroupForm(data[0], data[1], 0);
    } else if |data| >= 3 {
      GroupForm(data[0], data[1], data[2]);
      EncodingForm(data[3..]);
      ReplacedAppend(Group(data[0], data[1], data[2]), Encoded(data[3..]));
    }
  }

  lemma {:induction false} Gathers(data: Bytes, padding: Bytes)
    requires forall i :: 0 <= i < |padding| ==> padding[i] == 61
    ensures Gather(StandardForm(data) + padding, 0, 0) == data
    decreases |data|
  {
    hide Gather, First, Second, Third, Fourth;
    if data == [] {
      assert StandardForm(data) + padding == padding;
      OnlyPadding(padding, 0, 0);
    } else if |data| == 1 {
      assert StandardForm(data) + padding == [First(data[0])] + ([Second(data[0], 0)] + padding);
      GatherTwo(data[0], 0, padding);
      OnlyPadding(padding, 0, 4);
    } else if |data| == 2 {
      var third := [Third(data[1], 0)] + padding;
      assert StandardForm(data) + padding == [First(data[0])] + ([Second(data[0], data[1])] + third);
      GatherTwo(data[0], data[1], third);
      GatherThird(data[1], 0, padding);
      OnlyPadding(padding, 0, 2);
    } else {
      GathersGroup(data[0], data[1], data[2], StandardForm(data[3..]) + padding);
      Gathers(data[3..], padding);
      assert StandardForm(data) + padding
          == [First(data[0]), Second(data[0], data[1]), Third(data[1], data[2]), Fourth(data[2])]
             + (StandardForm(data[3..]) + padding);
      assert data == [data[0], data[1], data[2]] + data[3..];
    }
  }

  lemma GathersGroup(b0: byte, b1: byte, b2: byte, rest: Bytes)
    ensures Gather([First(b0), Second(b0, b1), Third(b1, b2), Fourth(b2)] + rest, 0, 0)
         == [b0, b1, b2] + Gather(rest, 0, 0)
  {
    hide Gather, First, Second, Third, Fourth;
    var fourth := [Fourth(b2)] + rest;
    var third := [Third(b1, b2)] + fourth;
    assert [First(b0), Second(b0, b1), Third(b1, b2), Fourth(b2)] + rest == [First(b0)] + ([Second(b0, b1)] + third);
    GatherTwo(b0, b1, third);
    GatherThird(b1, b2, fourth);
    GatherFourth(b2, rest);
    assert [b0, b1, b2] + Gather(rest, 0, 0) == [b0] + ([b1] + ([b2] + Gather(rest, 0, 0)));
  }

  /** Every byte string comes back; its encoding has four symbols for three bytes, rounded up, all of them
      from the URL-safe alphabet. */
  lemma EndpointRoundTrip(data: Bytes)
    ensures DecodeEndpointInfo(Encoded(data)) == data
    ensures |Encoded(data)| == (4 * |data| + 2) / 3 && forall b :: b in Encoded(data) ==> UrlSafe(b)
  {
    hide Encoded, StandardForm, Gather, UrlSafe;
    EncodingForm(data);
    Gathers(data, Padding(|Encoded(data)|));
  }
}
