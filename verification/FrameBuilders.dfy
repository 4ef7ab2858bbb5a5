/** The appends that build the frames of the protocol, shared by both ends. */
module FrameBuilders {
  import opened ByteStrings
  import opened ProtoWire
  import opened Crypto
  import opened KeyAgreement
  import opened Frames
  import Keys

  /** makeOfflineFrame, and the wrapping of a sharing frame. */
  method MakeVersioned(kind: u64, number: nat, payload: Bytes) returns (r: Bytes)
    requires number < TWO31 && |payload| < TWO31 - 100
    ensures r == Versioned(kind, number, payload) && |r| <= |payload| + 80
  {
    hide Encode;
    var v1 := new Message();
    AppendVarint(v1, 1, kind);
    if number > 0 {
      AppendBytes(v1, number, payload);
    }
    assert v1.fields == if number > 0 then [V(1, kind), B(number, payload)] else [V(1, kind)];
    SmallSize(v1.fields);
    var offline := new Message();
    AppendVarint(offline, 1, 1);
    AppendBytes(offline, 2, v1.bytes);
    assert offline.fields == [V(1, 1), B(2, v1.bytes)];
    SmallSize(offline.fields);
    return offline.bytes;
  }

  method MakePayloadHeader(id: u64, kind: u64, total: u64, name: Option<Bytes>) returns (r: Bytes)
    requires name.Some? ==> |name.value| < TWO31 - 1000
    ensures r == PayloadHeader(id, kind, total, name)
    ensures |r| <= 100 + if name.Some? then |name.value| else 0
  {
    hide Encode;
    HeaderParts(id, kind, total, name);
    var header := new Message();
    AppendVarint(header, 1, id);
    AppendVarint(header, 2, kind);
    AppendVarint(header, 3, total);
    AppendVarint(header, 4, 0);
    assert header.fields == [V(1, id), V(2, kind), V(3, total), V(4, 0)];
    if name.Some? {
      AppendBytes(header, 5, name.value);
      assert header.fields == [V(1, id), V(2, kind), V(3, total), V(4, 0)] + [B(5, name.value)];
    } else {
      assert header.fields == [V(1, id), V(2, kind), V(3, total), V(4, 0)] + [];
    }
    return header.bytes;
  }

  method MakeDataChunk(offset: u64, body: Bytes) returns (r: Bytes)
    requires |body| < TWO31 - 1000
    ensures r == DataChunk(offset, body) && |r| <= |body| + 60
  {
    hide Encode;
    DataChunkParts(offset, body);
    var chunk := new Message();
    AppendVarint(chunk, 1, 0);
    AppendVarint(chunk, 2, offset);
    AppendBytes(chunk, 3, body);
    assert chunk.fields == [V(1, 0), V(2, offset), B(3, body)];
    return chunk.bytes;
  }

  method MakeLastChunk(offset: u64) returns (r: Bytes)
    ensures r == LastChunk(offset) && |r| <= 40
  {
    hide Encode;
    LastChunkParts(offset);
    var chunk := new Message();
    AppendVarint(chunk, 1, 1);
    AppendVarint(chunk, 2, offset);
    assert chunk.fields == [V(1, 1), V(2, offset)];
    return chunk.bytes;
  }

  /** The two offline frames of a byte payload. */
  method MakeSharingFrames(id: u64, sharing: Bytes) returns (first: Bytes, last: Bytes)
    requires |sharing| < TWO31 - 1000
    ensures first == DataFrame(id, BYTES_PAYLOAD, |sharing|, None, 0, sharing) && |first| <= |sharing| + 300
    ensures last == LastFrame(id, BYTES_PAYLOAD, |sharing|, None, |sharing|) && |last| <= 300
  {
    hide PayloadHeader, DataChunk, LastChunk, Versioned, Transfer;
    var header := MakePayloadHeader(id, BYTES_PAYLOAD, |sharing|, None);
    var chunk := MakeDataChunk(0, sharing);
    first := MakeTransfer(header, chunk);
    chunk := MakeLastChunk(|sharing|);
    last := MakeTransfer(header, chunk);
  }

  method MakeTransfer(header: Bytes, chunk: Bytes) returns (r: Bytes)
    requires |header| + |chunk| < TWO31 - 300
    ensures r == Versioned(3, 4, Transfer(header, chunk)) && |r| <= |header| + |chunk| + 140
  {
    hide Encode, Versioned;
    var transfer := new Message();
    AppendVarint(transfer, 1, 1);
    AppendBytes(transfer, 2, header);
    AppendBytes(transfer, 3, chunk);
    assert transfer.fields == [V(1, 1), B(2, header), B(3, chunk)];
    SmallSize(transfer.fields);
    r := MakeVersioned(3, 4, transfer.bytes);
  }

  /** The GenericPublicKey of a P-256 point. */
  method MakeGenericPublic(q: Point) returns (r: Bytes)
    requires OnGrid(q)
    ensures r == GenericPublic(q) && |r| <= 146
  {
    hide Encode, Keys.SignedCoordinate;
    Keys.CoordinateSize(q.x);
    Keys.CoordinateSize(q.y);
    EcRoundTrip(q);
    PublicRoundTrip(q);
    var ecPublic := new Message();
    AppendBytes(ecPublic, 1, Keys.SignedCoordinate(q.x));
    AppendBytes(ecPublic, 2, Keys.SignedCoordinate(q.y));
    assert ecPublic.fields == [B(1, Keys.SignedCoordinate(q.x)), B(2, Keys.SignedCoordinate(q.y))];
    var genericPublic := new Message();
    AppendVarint(genericPublic, 1, 1);
    AppendBytes(genericPublic, 2, ecPublic.bytes);
    assert genericPublic.fields == [V(1, 1), B(2, ecPublic.bytes)];
    return genericPublic.bytes;
  }

  method ReadPublic(generic: Bytes) returns (r: Option<Point>)
    ensures r == ParsePublic(generic)
  {
    hide GetVarint, GetBytes, Keys.Normalize, Keys.FromBigEndian;
    var keyType := FindVarint(generic, 1);
    var ecPublic := FindBytes(generic, 2);
    if keyType != Some(1) || ecPublic == None {
      return None;
    }
    var xBytes := FindBytes(ecPublic.value, 1);
    var yBytes := FindBytes(ecPublic.value, 2);
    if xBytes == None || yBytes == None {
      return None;
    }
    var x := Keys.NormalizeCoordinate(xBytes.value);
    var y := Keys.NormalizeCoordinate(yBytes.value);
    if x == None || y == None {
      return None;
    }
    return Some(Point(Keys.FromBigEndian(x.value), Keys.FromBigEndian(y.value)));
  }
}
