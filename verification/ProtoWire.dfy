/** The protobuf wire codec of src/ProtoWire.cpp: a declarative reading of the format, the
    reader and the writers that work on it step by step, and the round trip between them. */
module ProtoWire {
  import opened ByteStrings

  /** What Reader::next leaves in its Field: `value` is used by wire type 0, `bytes` by wire type 2. */
  datatype Field = Field(number: int, wireType: int, value: u64, bytes: Bytes)

  function V(number: int, value: u64): Field { Field(number, 0, value, []) }
  function B(number: int, bytes: Bytes): Field { Field(number, 2, 0, bytes) }

  // ---------------------------------------------------------------- the format

  /** Base-128 groups, low group first, every group but the last marked with 0x80. */
  function Groups(value: nat): (r: Bytes)
    ensures |r| > 0
  {
    if value < 128 then [value] else [value % 128 + 128] + Groups(value / 128)
  }

  datatype Number = Number(value: nat, size: nat)

  /** The number whose groups head `data`, at most `limit` of them, before any cut to 64 bits. */
  function Ungroup(data: Bytes, limit: nat): (r: Option<Number>)
    ensures r.Some? ==> 0 < r.value.size <= |data| && r.value.size <= limit
  {
    if limit == 0 || data == [] then None
    else if data[0] < 128 then Some(Number(data[0], 1))
    else match Ungroup(data[1..], limit - 1)
         case None => None
         case Some(n) => Some(Number(data[0] - 128 + 128 * n.value, n.size + 1))
  }

  /** A varint has at most ten groups; bits past the 64th are lost. */
  function Varint(data: Bytes): (r: Option<Number>)
    ensures r.Some? ==> 0 < r.value.size <= |data| && r.value.value < TWO64
  {
    match Ungroup(data, 10)
    case None => None
    case Some(n) => Some(Number(n.value % TWO64, n.size))
  }

  datatype Item = Item(field: Field, size: nat)

  /** The field at the head of `data`, or None where the reader turns invalid. */
  function Head(data: Bytes): (r: Option<Item>)
    ensures r.Some? ==> 0 < r.value.size <= |data|
  {
    match Varint(data)
    case None => None
    case Some(key) =>
      if key.value == 0 then None
      else match Content(ToInt32(key.value / 8), key.value % 8, data[key.size..])
           case None => None
           case Some(item) => Some(Item(item.field, key.size + item.size))
  }

  /** The part of a field after its key. */
  function Content(number: int, wireType: int, rest: Bytes): (r: Option<Item>)
    ensures r.Some? ==> r.value.size <= |rest|
  {
    if wireType == 0 then
      match Varint(rest)
      case None => None
      case Some(v) => Some(Item(Field(number, 0, v.value, []), v.size))
    else if wireType == 1 then
      if |rest| < 8 then None else Some(Item(Field(number, 1, 0, []), 8))
    else if wireType == 2 then
      match Varint(rest)
      case None => None
      case Some(n) =>
        if n.value > |rest| - n.size then None
        else Some(Item(Field(number, 2, 0, rest[n.size..n.size + n.value]), n.size + n.value))
    else if wireType == 5 then
      if |rest| < 4 then None else Some(Item(Field(number, 5, 0, []), 4))
    else None
  }

  /** Every field a reader of `data` delivers, and whether it is still valid at the end. */
  datatype Parsed = Parsed(fields: seq<Field>, valid: bool)

  function Parse(data: Bytes): Parsed
    decreases |data|
  {
    if data == [] then Parsed([], true)
    else match Head(data)
         case None => Parsed([], false)
         case Some(item) =>
           var rest := Parse(data[item.size..]);
           Parsed([item.field] + rest.fields, rest.valid)
  }

  // ---------------------------------------------------------------- lookups

  function FirstVarint(fields: seq<Field>, number: int): Option<u64> {
    if fields == [] then None
    else if fields[0].number == number && fields[0].wireType == 0 then Some(fields[0].value)
    else FirstVarint(fields[1..], number)
  }

  function FirstBytes(fields: seq<Field>, number: int): Option<Bytes> {
    if fields == [] then None
    else if fields[0].number == number && fields[0].wireType == 2 then Some(fields[0].bytes)
    else FirstBytes(fields[1..], number)
  }

  function AllBytes(fields: seq<Field>, number: int): seq<Bytes> {
    if fields == [] then []
    else (if fields[0].number == number && fields[0].wireType == 2 then [fields[0].bytes] else [])
         + AllBytes(fields[1..], number)
  }

  /** What the lookups answer on raw data. */
  function GetVarint(data: Bytes, number: int): Option<u64> { FirstVarint(Parse(data).fields, number) }
  function GetBytes(data: Bytes, number: int): Option<Bytes> { FirstBytes(Parse(data).fields, number) }
  function GetAll(data: Bytes, number: int): seq<Bytes> { AllBytes(Parse(data).fields, number) }

  // ---------------------------------------------------------------- the encoding

  /** A field an append function writes: number from 1 to the largest int. */
  ghost predicate Writable(f: Field) {
    && 1 <= f.number < TWO31
    && (f.wireType == 0 || f.wireType == 2)
    && (f.wireType == 0 ==> f.bytes == [])
    && (f.wireType == 2 ==> f.value == 0 && |f.bytes| < TWO64)
  }

  ghost predicate AllWritable(fields: seq<Field>) { forall f :: f in fields ==> Writable(f) }

  /** What appendVarint and appendBytes write; the key is computed in 64 bits. */
  function EncodeField(f: Field): (r: Bytes)
    ensures |r| > 0
  {
    if f.wireType == 0 then Groups(f.number * 8 % TWO64) + Groups(f.value)
    else Groups(f.number * 8 % TWO64 + 2) + Groups(|f.bytes|) + f.bytes
  }

  function Encode(fields: seq<Field>): Bytes {
    if fields == [] then [] else EncodeField(fields[0]) + Encode(fields[1..])
  }

  lemma {:induction false} EncodeSnoc(fields: seq<Field>, f: Field)
    ensures Encode(fields + [f]) == Encode(fields) + EncodeField(f)
  {
    hide EncodeField;
    if fields == [] {
      assert [f] == [] + [f];
      assert Encode([f]) == EncodeField(f) + Encode([]);
    } else {
      EncodeSnoc(fields[1..], f);
      assert (fields + [f])[1..] == fields[1..] + [f];
    }
  }

  // ---------------------------------------------------------------- round trip

  function Pow128(n: nat): (r: nat)
    ensures r > 0
  {
    if n == 0 then 1 else 128 * Pow128(n - 1)
  }

  lemma {:induction false} UngroupGroups(value: nat, limit: nat, rest: Bytes)
    requires 0 < limit && value < Pow128(limit)
    ensures Ungroup(Groups(value) + rest, limit) == Some(Number(value, |Groups(value)|))
  {
    if value >= 128 {
      var data := Groups(value) + rest;
      assert data[1..] == Groups(value / 128) + rest;
      UngroupGroups(value / 128, limit - 1, rest);
    }
  }

  lemma Pow128Ten()
    ensures Pow128(10) >= TWO64
    ensures Pow128(9) == TWO63
  {
    assert Pow128(3) == 0x20_0000;
    assert Pow128(6) == 0x400_0000_0000;
    assert Pow128(9) == TWO63;
  }

  lemma VarintGroups(value: u64, rest: Bytes)
    ensures Varint(Groups(value) + rest) == Some(Number(value, |Groups(value)|))
  {
    Pow128Ten();
    UngroupGroups(value, 10, rest);
  }

  lemma ContentEncode(f: Field, rest: Bytes)
    requires Writable(f)
    ensures f.wireType == 0 ==>
      Content(f.number, 0, Groups(f.value) + rest) == Some(Item(f, |Groups(f.value)|))
    ensures f.wireType == 2 ==>
      Content(f.number, 2, Groups(|f.bytes|) + (f.bytes + rest)) == Some(Item(f, |Groups(|f.bytes|)| + |f.bytes|))
  {
    if f.wireType == 0 {
      VarintGroups(f.value, rest);
    } else {
      var size := Groups(|f.bytes|);
      VarintGroups(|f.bytes|, f.bytes + rest);
      assert (size + (f.bytes + rest))[|size|..|size| + |f.bytes|] == f.bytes;
    }
  }

  lemma KeyBytes(f: Field)
    requires Writable(f)
    ensures f.number * 8 % TWO64 == f.number * 8
    ensures var key := f.number * 8 + f.wireType;
      key < TWO64 && key / 8 == f.number && key % 8 == f.wireType && ToInt32(key / 8) == f.number
  {
  }

  lemma HeadEncode(f: Field, rest: Bytes)
    requires Writable(f)
    ensures Head(EncodeField(f) + rest) == Some(Item(f, |EncodeField(f)|))
  {
    hide Groups, Varint, Content;
    KeyBytes(f);
    var key: u64 := f.number * 8 + f.wireType;
    var tail := if f.wireType == 0 then Groups(f.value) + rest else Groups(|f.bytes|) + (f.bytes + rest);
    assert EncodeField(f) + rest == Groups(key) + tail;
    VarintGroups(key, tail);
    assert (Groups(key) + tail)[|Groups(key)|..] == tail;
    ContentEncode(f, rest);
  }

  // ---------------------------------------------------------------- arbitrary bytes

  /** The number that groups of seven bits denote, the low group first. */
  function LowFirst(groups: Bytes): nat {
    if groups == [] then 0 else groups[0] % 128 + 128 * LowFirst(groups[1..])
  }

  /** The first n bytes are marked as going on, except the last of them. */
  ghost predicate EndsAfter(data: Bytes, n: nat) {
    0 < n <= |data| && data[n - 1] < 128 && forall i :: 0 <= i < n - 1 ==> data[i] >= 128
  }

  lemma {:induction false} UngroupMeaning(data: Bytes, limit: nat, n: nat)
    ensures var r := Ungroup(data, limit);
      r.Some? ==> EndsAfter(data, r.value.size) && r.value.value == LowFirst(data[..r.value.size])
    ensures n <= limit && EndsAfter(data, n) ==> Ungroup(data, limit) == Some(Number(LowFirst(data[..n]), n))
    decreases |data|
  {
    if limit > 0 && data != [] {
      var rest := data[1..];
      assert data[..1][1..] == [];
      if data[0] >= 128 {
        UngroupMeaning(rest, limit - 1, if n > 0 then n - 1 else 0);
        if n > 0 {
          Later(data, n);
        }
        var r := Ungroup(rest, limit - 1);
        if r.Some? {
          Later(data, r.value.size + 1);
        }
      }
    }
  }

  lemma Later(data: Bytes, n: nat)
    requires data != [] && data[0] >= 128 && n > 0
    ensures EndsAfter(data, n) <==> EndsAfter(data[1..], n - 1)
    ensures n <= |data| ==> LowFirst(data[..n]) == data[0] - 128 + 128 * LowFirst(data[1..][..n - 1])
  {
    hide LowFirst;
    EndsLater(data, n);
    if n <= |data| {
      LowFirstStep(data, n);
    }
  }

  lemma LowFirstStep(data: Bytes, n: nat)
    requires 0 < n <= |data|
    ensures LowFirst(data[..n]) == data[0] % 128 + 128 * LowFirst(data[1..][..n - 1])
  {
    assert data[..n][1..] == data[1..][..n - 1];
  }

  lemma EndsLater(data: Bytes, n: nat)
    requires data != [] && data[0] >= 128 && n > 0
    ensures EndsAfter(data, n) <==> EndsAfter(data[1..], n - 1)
  {
    var rest := data[1..];
    if EndsAfter(rest, n - 1) {
      assert forall i :: 0 < i < n - 1 ==> data[i] == rest[i - 1];
    }
    if EndsAfter(data, n) {
      assert n > 1;
      assert forall i :: 0 <= i < n - 2 ==> rest[i] == data[i + 1];
    }
  }

  /** A varint is read exactly where at most ten groups end, and then as their number cut to 64 bits. */
  lemma VarintMeaning(data: Bytes, v: nat, n: nat)
    ensures Varint(data) == Some(Number(v, n)) <==>
      n <= 10 && EndsAfter(data, n) && v == LowFirst(data[..n]) % TWO64
  {
    hide Ungroup, EndsAfter, LowFirst;
    UngroupMeaning(data, 10, n);
  }

  /** What is written for a number are its groups, with none to spare. */
  lemma {:induction false} GroupsMeaning(value: nat)
    ensures EndsAfter(Groups(value), |Groups(value)|) && LowFirst(Groups(value)) == value
    ensures |Groups(value)| > 1 ==> Groups(value)[|Groups(value)| - 1] != 0
  {
    var g := Groups(value);
    if value < 128 {
      assert g[1..] == [];
    } else {
      GroupsMeaning(value / 128);
      assert g[1..] == Groups(value / 128);
      EndsLater(g, |g|);
    }
  }

  /** A field of eight or of four bytes, which nobody asks for, makes no difference to what follows. */
  lemma FixedSkipped(number: nat, wide: bool, raw: Bytes, rest: Bytes)
    requires 1 <= number < TWO31 && |raw| == if wide then 8 else 4
    ensures var data := Groups(number * 8 + if wide then 1 else 5) + (raw + rest);
      && Parse(data).valid == Parse(rest).valid
      && forall n :: GetVarint(data, n) == GetVarint(rest, n) && GetBytes(data, n) == GetBytes(rest, n)
                     && GetAll(data, n) == GetAll(rest, n)
  {
    hide Groups, Content, Head, FirstVarint, FirstBytes, AllBytes;
    var wireType := if wide then 1 else 5;
    var data := Groups(number * 8 + wireType) + (raw + rest);
    var field := Field(number, wireType, 0, []);
    FixedContent(number, wide, raw, rest);
    KeyOf(number, wireType, raw + rest);
    assert data[|Groups(number * 8 + wireType)| + |raw|..] == rest;
    Passed(field, Parse(rest).fields);
  }

  lemma FixedContent(number: int, wide: bool, raw: Bytes, rest: Bytes)
    requires |raw| == if wide then 8 else 4
    ensures var wireType := if wide then 1 else 5;
      Content(number, wireType, raw + rest) == Some(Item(Field(number, wireType, 0, []), |raw|))
  {
    hide Varint;
  }

  lemma Passed(field: Field, fields: seq<Field>)
    requires field.wireType == 1 || field.wireType == 5
    ensures forall n :: FirstVarint([field] + fields, n) == FirstVarint(fields, n)
    ensures forall n :: FirstBytes([field] + fields, n) == FirstBytes(fields, n)
    ensures forall n :: AllBytes([field] + fields, n) == AllBytes(fields, n)
  {
    assert ([field] + fields)[1..] == fields;
  }

  lemma KeyOf(number: nat, wireType: nat, tail: Bytes)
    requires 1 <= number < TWO31 && wireType < 8
    ensures var data := Groups(number * 8 + wireType) + tail;
      && data != []
      && Head(data) == match Content(number, wireType, tail)
                       case None => None
                       case Some(item) => Some(Item(item.field, |Groups(number * 8 + wireType)| + item.size))
  {
    hide Groups, Varint, Content;
    var key := number * 8 + wireType;
    VarintGroups(key, tail);
    assert (Groups(key) + tail)[|Groups(key)|..] == tail;
  }

  lemma NoContent(number: int, wireType: nat, length: u64, rest: Bytes)
    ensures wireType in {3, 4, 6, 7} ==> Content(number, wireType, rest) == None
    ensures length > |rest| ==> Content(number, 2, Groups(length) + rest) == None
  {
    hide Groups, Varint;
    VarintGroups(length, rest);
  }

  /** Any other wire type, and a length beyond the data, ends the reading at once. */
  lemma Unreadable(number: nat, wireType: nat, length: u64, rest: Bytes)
    requires 1 <= number < TWO31
    ensures wireType in {3, 4, 6, 7} ==> Parse(Groups(number * 8 + wireType) + rest) == Parsed([], false)
    ensures length > |rest| ==> Parse(Groups(number * 8 + 2) + (Groups(length) + rest)) == Parsed([], false)
  {
    hide Groups, Varint, Content, Head;
    if wireType in {3, 4, 6, 7} {
      KeyOf(number, wireType, rest);
      NoContent(number, wireType, 0, rest);
    }
    KeyOf(number, 2, Groups(length) + rest);
    NoContent(number, 2, length, rest);
  }

  // ---------------------------------------------------------------- written messages

  /** Reading back what the append functions wrote gives exactly the fields written, in order. */
  lemma {:induction false} ParseEncode(fields: seq<Field>)
    requires AllWritable(fields)
    ensures Parse(Encode(fields)) == Parsed(fields, true)
  {
    hide Head, EncodeField, Writable;
    if fields != [] {
      var f, rest := fields[0], Encode(fields[1..]);
      HeadEncode(f, rest);
      assert Encode(fields)[|EncodeField(f)|..] == rest;
      ParseEncode(fields[1..]);
      assert [f] + fields[1..] == fields;
    }
  }

  /** Scalar lookup on written data takes the first field of that number and kind. */
  lemma {:induction false} FirstBytesAt(fields: seq<Field>, number: int, k: nat)
    requires k < |fields| && fields[k].number == number && fields[k].wireType == 2
    requires forall j :: 0 <= j < k ==> fields[j].number != number || fields[j].wireType != 2
    ensures FirstBytes(fields, number) == Some(fields[k].bytes)
  {
    if k > 0 {
      FirstBytesAt(fields[1..], number, k - 1);
    }
  }

  lemma {:induction false} FirstVarintAt(fields: seq<Field>, number: int, k: nat)
    requires k < |fields| && fields[k].number == number && fields[k].wireType == 0
    requires forall j :: 0 <= j < k ==> fields[j].number != number || fields[j].wireType != 0
    ensures FirstVarint(fields, number) == Some(fields[k].value)
  {
    if k > 0 {
      FirstVarintAt(fields[1..], number, k - 1);
    }
  }

  lemma {:induction false} FirstBytesAbsent(fields: seq<Field>, number: int)
    requires forall j :: 0 <= j < |fields| ==> fields[j].number != number || fields[j].wireType != 2
    ensures FirstBytes(fields, number) == None
  {
    if fields != [] {
      FirstBytesAbsent(fields[1..], number);
    }
  }

  lemma BytesAt(fields: seq<Field>, number: int, k: nat)
    requires AllWritable(fields)
    requires k < |fields| && fields[k].number == number && fields[k].wireType == 2
    requires forall j :: 0 <= j < k ==> fields[j].number != number || fields[j].wireType != 2
    ensures GetBytes(Encode(fields), number) == Some(fields[k].bytes)
  {
    ParseEncode(fields);
    FirstBytesAt(fields, number, k);
  }

  lemma VarintAt(fields: seq<Field>, number: int, k: nat)
    requires AllWritable(fields)
    requires k < |fields| && fields[k].number == number && fields[k].wireType == 0
    requires forall j :: 0 <= j < k ==> fields[j].number != number || fields[j].wireType != 0
    ensures GetVarint(Encode(fields), number) == Some(fields[k].value)
  {
    ParseEncode(fields);
    FirstVarintAt(fields, number, k);
  }

  lemma BytesAbsent(fields: seq<Field>, number: int)
    requires AllWritable(fields)
    requires forall j :: 0 <= j < |fields| ==> fields[j].number != number || fields[j].wireType != 2
    ensures GetBytes(Encode(fields), number) == None
  {
    ParseEncode(fields);
    FirstBytesAbsent(fields, number);
  }

  // ---------------------------------------------------------------- sizes

  lemma {:induction false} GroupsSize(value: nat, limit: nat)
    requires 0 < limit && value < Pow128(limit)
    ensures |Groups(value)| <= limit
  {
    if value >= 128 {
      GroupsSize(value / 128, limit - 1);
    }
  }

  function Payload(fields: seq<Field>): nat {
    if fields == [] then 0 else |fields[0].bytes| + Payload(fields[1..])
  }

  /** A field costs at most twenty bytes beyond its contents. */
  lemma {:induction false} EncodeSize(fields: seq<Field>)
    requires AllWritable(fields)
    ensures |Encode(fields)| <= 20 * |fields| + Payload(fields)
    ensures Payload(fields) <= |Encode(fields)|
    ensures fields != [] ==> 0 < |Encode(fields)|
  {
    if fields != [] {
      var f := fields[0];
      assert f in fields;
      Pow128Ten();
      KeyBytes(f);
      GroupsSize(f.number * 8 + 2, 10);
      GroupsSize(f.number * 8, 10);
      GroupsSize(f.value, 10);
      GroupsSize(|f.bytes|, 10);
      EncodeSize(fields[1..]);
    }
  }

  function SizeAt(fields: seq<Field>, i: nat): nat { if i < |fields| then |fields[i].bytes| else 0 }

  lemma PayloadFrom(fields: seq<Field>, i: nat)
    requires i <= |fields|
    ensures Payload(fields[i..]) == SizeAt(fields, i) + if i < |fields| then Payload(fields[i + 1..]) else 0
  {
    if i < |fields| {
      assert fields[i..][1..] == fields[i + 1..];
    }
  }

  /** The size bound for the short messages of the protocol. */
  lemma SmallSize(fields: seq<Field>)
    requires AllWritable(fields) && 0 < |fields| <= 6
    ensures 0 < |Encode(fields)| <= 20 * |fields| + SizeAt(fields, 0) + SizeAt(fields, 1) + SizeAt(fields, 2)
                                    + SizeAt(fields, 3) + SizeAt(fields, 4) + SizeAt(fields, 5)
  {
    EncodeSize(fields);
    assert fields[0..] == fields;
    var i := 0;
    while i < |fields|
      invariant 0 <= i <= |fields|
      invariant Payload(fields) == (if i > 0 then SizeAt(fields, 0) else 0) + (if i > 1 then SizeAt(fields, 1) else 0)
        + (if i > 2 then SizeAt(fields, 2) else 0) + (if i > 3 then SizeAt(fields, 3) else 0)
        + (if i > 4 then SizeAt(fields, 4) else 0) + (if i > 5 then SizeAt(fields, 5) else 0) + Payload(fields[i..])
    {
      PayloadFrom(fields, i);
      i := i + 1;
    }
  }

  // ---------------------------------------------------------------- the reader

  class Reader {
    const data: Bytes
    var pos: nat
    var valid: bool

    ghost predicate Valid()
      reads this
    {
      pos <= |data|
    }

    ghost function Remaining(): Bytes
      requires Valid()
      reads this
    {
      data[pos..]
    }

    constructor (data: Bytes)
      ensures Valid() && this.data == data && pos == 0 && valid
    {
      this.data := data;
      pos := 0;
      valid := true;
    }

    /** On failure the position is wherever the last byte was read; nobody looks at it again. */
    method ReadVarint() returns (ok: bool, value: u64)
      requires Valid()
      modifies this
      ensures Valid() && old(pos) <= pos
      ensures match Varint(old(Remaining()))
              case None => !ok && !valid
              case Some(n) => ok && value == n.value && pos == old(pos) + n.size && valid == old(valid)
    {
      var shift, weight := 0, 1;
      ghost var all, groups := data[pos..], 0;
      value := 0;
      while shift < 64 && pos < |data|
        invariant shift == 7 * groups && groups <= 10 && weight == Pow128(groups)
        invariant pos == old(pos) + groups <= |data| && valid == old(valid)
        invariant groups < 10 ==> value < weight
        invariant groups < 10 ==> Ungroup(all, 10) == Resume(value, weight, groups, data[pos..])
        invariant groups == 10 ==> Ungroup(all, 10) == None
        decreases 10 - groups
      {
        var b := data[pos];
        GroupRead(all, value, weight, groups, data[pos..]);
        assert data[pos..][1..] == data[pos + 1..];
        value := OrGroup(value, weight, b % 128);
        pos := pos + 1;
        if b < 128 {
          return true, value;
        }
        shift, weight, groups := shift + 7, 128 * weight, groups + 1;
      }
      valid := false;
      return false, 0;
    }

    /** The reader stops for good at the first malformed field. */
    method Next() returns (ok: bool, field: Field)
      requires Valid()
      modifies this
      ensures Valid() && old(pos) <= pos
      ensures !old(valid) ==> !ok && !valid && pos == old(pos)
      ensures old(valid) && old(Remaining()) == [] ==> !ok && valid && pos == old(pos)
      ensures old(valid) && old(Remaining()) != [] ==>
        match Head(old(Remaining()))
        case None => !ok && !valid
        case Some(item) => ok && valid && field == item.field && pos == old(pos) + item.size
    {
      field := V(0, 0);
      if !valid || pos >= |data| {
        return false, field;
      }
      ghost var start := pos;
      var okKey, key := ReadVarint();
      if !okKey || key == 0 {
        valid := false;
        return false, field;
      }
      assert data[start..][pos - start..] == data[pos..];
      ok, field := ReadContent(ToInt32(key / 8), key % 8);
    }

    method ReadContent(number: int, wireType: int) returns (ok: bool, field: Field)
      requires Valid()
      modifies this
      ensures Valid() && old(pos) <= pos
      ensures match Content(number, wireType, old(Remaining()))
              case None => !ok && !valid
              case Some(item) => ok && valid == old(valid) && field == item.field && pos == old(pos) + item.size
    {
      field := V(0, 0);
      if wireType == 0 {
        var okValue, value := ReadVarint();
        return okValue, Field(number, 0, value, []);
      }
      if wireType == 1 {
        if pos + 8 > |data| {
          valid := false;
          return false, field;
        }
        pos := pos + 8;
        return true, Field(number, 1, 0, []);
      }
      if wireType == 2 {
        var okSize, size := ReadVarint();
        if !okSize || size > |data| - pos {
          valid := false;
          return false, field;
        }
        field := Field(number, 2, 0, data[pos..pos + size]);
        assert field.bytes == data[old(pos)..][pos - old(pos)..pos + size - old(pos)];
        pos := pos + size;
        return true, field;
      }
      if wireType == 5 {
        if pos + 4 > |data| {
          valid := false;
          return false, field;
        }
        pos := pos + 4;
        return true, Field(number, 5, 0, []);
      }
      valid := false;
      return false, field;
    }
  }

  /** `value` holds the groups read so far, `weight` is the weight of the next one. */
  ghost function Resume(value: nat, weight: nat, groups: nat, rest: Bytes): Option<Number>
    requires groups <= 10
  {
    match Ungroup(rest, 10 - groups)
    case None => None
    case Some(n) => Some(Number(value + weight * n.value, n.size + groups))
  }

  /** The groups do not overlap, so or-ing one in is adding it; the shift drops bits past the 64th. */
  function OrGroup(value: u64, weight: nat, group: nat): u64
    requires group < 128
  {
    (value + weight * group) % TWO64
  }

  lemma Distribute(weight: nat, group: nat, higher: nat)
    ensures weight * (group + 128 * higher) == weight * group + (128 * weight) * higher
  {
  }

  lemma ResumeStep(value: nat, weight: nat, groups: nat, rest: Bytes)
    requires rest != [] && groups <= 9
    ensures rest[0] < 128 ==>
      Resume(value, weight, groups, rest) == Some(Number(value + weight * (rest[0] % 128), groups + 1))
    ensures rest[0] >= 128 && groups < 9 ==>
      Resume(value, weight, groups, rest)
        == Resume(value + weight * (rest[0] % 128), 128 * weight, groups + 1, rest[1..])
    ensures rest[0] >= 128 && groups == 9 ==> Resume(value, weight, groups, rest) == None
  {
    var tail := Ungroup(rest[1..], 9 - groups);
    if rest[0] >= 128 && tail.Some? {
      Distribute(weight, rest[0] - 128, tail.value.value);
    }
  }

  lemma {:induction false} PowBelow(groups: nat)
    requires groups <= 9
    ensures Pow128(groups) <= TWO63
  {
    assert Pow128(2) == 0x4000 && Pow128(3) == 0x20_0000 && Pow128(4) == 0x1000_0000;
    assert Pow128(5) == 0x8_0000_0000 && Pow128(6) == 0x400_0000_0000 && Pow128(7) == 0x2_0000_0000_0000;
    assert Pow128(8) == 0x100_0000_0000_0000;
    Pow128Ten();
  }

  lemma Product(weight: nat, group: nat)
    requires group <= 127
    ensures 0 <= weight * group <= weight * 127
  {
  }

  lemma NoCut(groups: nat, weight: nat, value: u64, group: nat)
    requires groups < 9 && weight == Pow128(groups) && value < weight && group < 128
    ensures OrGroup(value, weight, group) == value + weight * group < 128 * weight == Pow128(groups + 1)
  {
    PowBelow(groups + 1);
    Product(weight, group);
    ghost var sum := value + weight * group;
    assert sum % TWO64 == sum;
  }

  /** One turn of the reading loop. */
  lemma GroupRead(all: Bytes, value: u64, weight: nat, groups: nat, rest: Bytes)
    requires rest != [] && groups <= 9 && weight == Pow128(groups) && value < weight
    requires Ungroup(all, 10) == Resume(value, weight, groups, rest)
    ensures var next := OrGroup(value, weight, rest[0] % 128);
      && (rest[0] < 128 ==> Varint(all) == Some(Number(next, groups + 1)))
      && (rest[0] >= 128 && groups < 9 ==>
            && next < 128 * weight == Pow128(groups + 1)
            && Ungroup(all, 10) == Resume(next, 128 * weight, groups + 1, rest[1..]))
      && (rest[0] >= 128 && groups == 9 ==> Ungroup(all, 10) == None)
  {
    ResumeStep(value, weight, groups, rest);
    if groups < 9 {
      NoCut(groups, weight, value, rest[0] % 128);
    }
  }

  // ---------------------------------------------------------------- lookups, as loops over a reader

  /** The first varint field of that number before the end or the first malformed field. */
  method FindVarint(data: Bytes, number: int) returns (r: Option<u64>)
    ensures r == GetVarint(data, number)
  {
    var reader := new Reader(data);
    assert data[0..] == data;
    while true
      invariant reader.Valid() && reader.data == data && reader.valid
      invariant GetVarint(data, number) == GetVarint(reader.Remaining(), number)
      decreases |data| - reader.pos
    {
      ghost var before := reader.Remaining();
      var ok, field := reader.Next();
      if !ok {
        return None;
      }
      StepOver(before, number);
      assert before[Head(before).value.size..] == reader.Remaining();
      if field.number == number && field.wireType == 0 {
        return Some(field.value);
      }
    }
  }

  method FindBytes(data: Bytes, number: int) returns (r: Option<Bytes>)
    ensures r == GetBytes(data, number)
  {
    var reader := new Reader(data);
    assert data[0..] == data;
    while true
      invariant reader.Valid() && reader.data == data && reader.valid
      invariant GetBytes(data, number) == GetBytes(reader.Remaining(), number)
      decreases |data| - reader.pos
    {
      ghost var before := reader.Remaining();
      var ok, field := reader.Next();
      if !ok {
        return None;
      }
      StepOver(before, number);
      assert before[Head(before).value.size..] == reader.Remaining();
      if field.number == number && field.wireType == 2 {
        return Some(field.bytes);
      }
    }
  }

  method FindAll(data: Bytes, number: int) returns (values: seq<Bytes>)
    ensures values == GetAll(data, number)
  {
    values := [];
    var reader := new Reader(data);
    assert data[0..] == data;
    while true
      invariant reader.Valid() && reader.data == data && reader.valid
      invariant GetAll(data, number) == values + GetAll(reader.Remaining(), number)
      decreases |data| - reader.pos
    {
      ghost var before := reader.Remaining();
      var ok, field := reader.Next();
      if !ok {
        return values;
      }
      GatherStep(values, before, number);
      assert before[Head(before).value.size..] == reader.Remaining();
      if field.number == number && field.wireType == 2 {
        values := values + [field.bytes];
      }
    }
  }

  lemma GatherStep(values: seq<Bytes>, data: Bytes, number: int)
    requires data != [] && Head(data).Some?
    ensures var item, rest := Head(data).value, GetAll(data[Head(data).value.size..], number);
      values + GetAll(data, number) ==
        if item.field.number == number && item.field.wireType == 2
        then (values + [item.field.bytes]) + rest else values + rest
  {
    var item := Head(data).value;
    var fields := Parse(data[item.size..]).fields;
    assert ([item.field] + fields)[1..] == fields;
    var rest := AllBytes(fields, number);
    assert values + ([item.field.bytes] + rest) == (values + [item.field.bytes]) + rest;
    assert [] + rest == rest;
  }

  lemma StepOver(data: Bytes, number: int)
    requires data != [] && Head(data).Some?
    ensures var item, rest := Head(data).value, data[Head(data).value.size..];
      && GetVarint(data, number) ==
           (if item.field.number == number && item.field.wireType == 0 then Some(item.field.value)
            else GetVarint(rest, number))
      && GetBytes(data, number) ==
           (if item.field.number == number && item.field.wireType == 2 then Some(item.field.bytes)
            else GetBytes(rest, number))
  {
    var item := Head(data).value;
    var rest := Parse(data[item.size..]).fields;
    assert Parse(data).fields == [item.field] + rest;
    assert ([item.field] + rest)[1..] == rest;
  }

  // ---------------------------------------------------------------- the writers

  /** A QByteArray under construction, together with the list of fields it encodes. */
  class Message {
    var bytes: Bytes
    ghost var fields: seq<Field>

    ghost predicate Valid()
      reads this
    {
      bytes == Encode(fields)
    }

    constructor ()
      ensures Valid() && fields == []
    {
      bytes, fields := [], [];
    }
  }

  method RawVarint(out: Message, value: u64)
    modifies out`bytes
    ensures out.bytes == old(out.bytes) + Groups(value)
  {
    var v: nat := value;
    while true
      invariant out.bytes + Groups(v) == old(out.bytes) + Groups(value)
      decreases v
    {
      var b := v % 128;
      v := v / 128;
      if v != 0 {
        b := b + 128;
      }
      out.bytes := out.bytes + [b];
      if v == 0 {
        break;
      }
    }
  }

  method AppendVarint(out: Message, number: int, value: u64)
    requires out.Valid() && 0 <= number < TWO31
    modifies out
    ensures out.Valid() && out.fields == old(out.fields) + [V(number, value)]
  {
    hide Encode, Groups;
    EncodeSnoc(out.fields, V(number, value));
    ghost var before, key := out.bytes, Groups(number * 8 % TWO64);
    RawVarint(out, number * 8 % TWO64);
    RawVarint(out, value);
    assert out.bytes == before + (key + Groups(value));
    out.fields := out.fields + [V(number, value)];
  }

  lemma Regroup(a: Bytes, b: Bytes, c: Bytes, d: Bytes)
    ensures a + b + c + d == a + (b + c + d)
  {
  }

  method AppendBytes(out: Message, number: int, value: Bytes)
    requires out.Valid() && 0 <= number < TWO31 && |value| < TWO31
    modifies out
    ensures out.Valid() && out.fields == old(out.fields) + [B(number, value)]
  {
    hide Encode, Groups;
    EncodeSnoc(out.fields, B(number, value));
    ghost var before, key, size := out.bytes, Groups(number * 8 % TWO64 + 2), Groups(|value|);
    RawVarint(out, number * 8 % TWO64 + 2);
    RawVarint(out, |value|);
    Regroup(before, key, size, value);
    out.bytes := out.bytes + value;
    out.fields := out.fields + [B(number, value)];
  }
}
