/** The plaintext frames both ends exchange: offline frames, payload transfers and sharing frames. */
module Frames {
  import opened ByteStrings
  import opened ProtoWire
  import opened Crypto
  import opened Framing
  import opened SecureChannel

  // ---------------------------------------------------------------- a version, a kind and one field

  /** makeOfflineFrame; sharing frames have the same layout. */
  function V1(kind: u64, number: nat, payload: Bytes): Bytes {
    Encode(if number > 0 then [V(1, kind), B(number, payload)] else [V(1, kind)])
  }

  function Versioned(kind: u64, number: nat, payload: Bytes): Bytes {
    Encode([V(1, 1), B(2, V1(kind, number, payload))])
  }

  lemma V1Parts(kind: u64, number: nat, payload: Bytes)
    requires 0 < number < TWO31 && |payload| < TWO63
    ensures GetVarint(V1(kind, number, payload), 1) == Some(kind)
    ensures GetBytes(V1(kind, number, payload), number) == Some(payload)
    ensures 0 < |V1(kind, number, payload)| <= |payload| + 40
  {
    hide Encode, GetBytes, GetVarint;
    var fields := [V(1, kind), B(number, payload)];
    VarintAt(fields, 1, 0);
    BytesAt(fields, number, 1);
    SmallSize(fields);
  }

  lemma VersionedParts(kind: u64, number: nat, payload: Bytes)
    requires 0 < number < TWO31 && |payload| < TWO32
    ensures GetVarint(Versioned(kind, number, payload), 1) == Some(1)
    ensures GetBytes(Versioned(kind, number, payload), 2) == Some(V1(kind, number, payload))
    ensures |Versioned(kind, number, payload)| <= |payload| + 80
  {
    hide Encode, GetBytes, GetVarint, V1;
    V1Parts(kind, number, payload);
    var fields := [V(1, 1), B(2, V1(kind, number, payload))];
    VarintAt(fields, 1, 0);
    BytesAt(fields, 2, 1);
    SmallSize(fields);
  }

  // ---------------------------------------------------------------- payload transfers

  const BYTES_PAYLOAD: u64 := 1
  const FILE_PAYLOAD: u64 := 2

  function PayloadHeader(id: u64, kind: u64, total: u64, name: Option<Bytes>): Bytes {
    Encode([V(1, id), V(2, kind), V(3, total), V(4, 0)] + if name.Some? then [B(5, name.value)] else [])
  }

  function DataChunk(offset: u64, body: Bytes): Bytes { Encode([V(1, 0), V(2, offset), B(3, body)]) }

  function LastChunk(offset: u64): Bytes { Encode([V(1, 1), V(2, offset)]) }

  function Transfer(header: Bytes, chunk: Bytes): Bytes { Encode([V(1, 1), B(2, header), B(3, chunk)]) }

  /** What a receiver reads from a payload transfer; an absent body counts as empty. */
  datatype Packet = Packet(id: u64, kind: u64, total: u64, flags: u64, offset: u64, body: Bytes)

  function ParsePacket(transfer: Bytes): Option<Packet> {
    match (GetVarint(transfer, 1), GetBytes(transfer, 2), GetBytes(transfer, 3))
    case (Some(packetType), Some(header), Some(chunk)) =>
      if packetType != 1 then None else ParseParts(header, chunk)
    case _ => None
  }

  function ParseParts(header: Bytes, chunk: Bytes): Option<Packet> {
    match (GetVarint(header, 1), GetVarint(header, 2), GetVarint(header, 3), GetVarint(chunk, 1), GetVarint(chunk, 2))
    case (Some(id), Some(kind), Some(total), Some(flags), Some(offset)) =>
      var body := GetBytes(chunk, 3);
      Some(Packet(id, kind, total, flags, offset, if body.Some? then body.value else []))
    case _ => None
  }

  lemma HeaderParts(id: u64, kind: u64, total: u64, name: Option<Bytes>)
    requires name.Some? ==> |name.value| < TWO31
    ensures var header := PayloadHeader(id, kind, total, name);
      && GetVarint(header, 1) == Some(id) && GetVarint(header, 2) == Some(kind) && GetVarint(header, 3) == Some(total)
      && |header| <= 100 + if name.Some? then |name.value| else 0
  {
    hide Encode, GetVarint;
    var fields := [V(1, id), V(2, kind), V(3, total), V(4, 0)] + if name.Some? then [B(5, name.value)] else [];
    VarintAt(fields, 1, 0);
    VarintAt(fields, 2, 1);
    VarintAt(fields, 3, 2);
    SmallSize(fields);
  }

  lemma DataChunkParts(offset: u64, body: Bytes)
    requires |body| < TWO31
    ensures var chunk := DataChunk(offset, body);
      && GetVarint(chunk, 1) == Some(0) && GetVarint(chunk, 2) == Some(offset) && GetBytes(chunk, 3) == Some(body)
      && |chunk| <= |body| + 60
  {
    hide Encode, GetVarint, GetBytes;
    var fields := [V(1, 0), V(2, offset), B(3, body)];
    VarintAt(fields, 1, 0);
    VarintAt(fields, 2, 1);
    BytesAt(fields, 3, 2);
    SmallSize(fields);
  }

  lemma LastChunkParts(offset: u64)
    ensures var chunk := LastChunk(offset);
      && GetVarint(chunk, 1) == Some(1) && GetVarint(chunk, 2) == Some(offset) && GetBytes(chunk, 3) == None
      && |chunk| <= 40
  {
    hide Encode, GetVarint, GetBytes;
    var fields := [V(1, 1), V(2, offset)];
    VarintAt(fields, 1, 0);
    VarintAt(fields, 2, 1);
    BytesAbsent(fields, 3);
    SmallSize(fields);
  }

  lemma TransferParts(header: Bytes, chunk: Bytes)
    requires |header| < TWO32 && |chunk| < TWO32
    ensures var transfer := Transfer(header, chunk);
      && GetVarint(transfer, 1) == Some(1) && GetBytes(transfer, 2) == Some(header)
      && GetBytes(transfer, 3) == Some(chunk)
      && |transfer| <= |header| + |chunk| + 60
  {
    hide Encode, GetVarint, GetBytes;
    var fields := [V(1, 1), B(2, header), B(3, chunk)];
    VarintAt(fields, 1, 0);
    BytesAt(fields, 2, 1);
    BytesAt(fields, 3, 2);
    SmallSize(fields);
  }

  /** The offline frames of one payload. */
  function DataFrame(id: u64, kind: u64, total: u64, name: Option<Bytes>, offset: u64, body: Bytes): Bytes {
    Versioned(3, 4, Transfer(PayloadHeader(id, kind, total, name), DataChunk(offset, body)))
  }

  function LastFrame(id: u64, kind: u64, total: u64, name: Option<Bytes>, offset: u64): Bytes {
    Versioned(3, 4, Transfer(PayloadHeader(id, kind, total, name), LastChunk(offset)))
  }

  /** How the receiver takes an offline frame apart. */
  datatype Offline = Malformed | TransferOf(transfer: Option<Bytes>) | KeepAlive | Disconnection | Other

  function ParseOffline(offline: Bytes): Offline {
    match GetBytes(offline, 2)
    case None => Malformed
    case Some(v1) =>
      match GetVarint(v1, 1)
      case None => Malformed
      case Some(kind) =>
        if kind == 3 then TransferOf(GetBytes(v1, 4))
        else if kind == 5 then KeepAlive
        else if kind == 6 then Disconnection
        else Other
  }

  ghost predicate CarriesPacket(offline: Bytes, packet: Packet) {
    match ParseOffline(offline)
    case TransferOf(Some(transfer)) => ParsePacket(transfer) == Some(packet)
    case _ => false
  }

  lemma TransferCarries(header: Bytes, chunk: Bytes, packet: Packet)
    requires |header| < TWO31 - 100 && |chunk| < TWO31 - 100 && ParseParts(header, chunk) == Some(packet)
    ensures CarriesPacket(Versioned(3, 4, Transfer(header, chunk)), packet)
    ensures |Versioned(3, 4, Transfer(header, chunk))| <= |header| + |chunk| + 140
  {
    hide GetVarint, GetBytes, ParseParts, Versioned, V1, Transfer;
    TransferParts(header, chunk);
    VersionedParts(3, 4, Transfer(header, chunk));
    V1Parts(3, 4, Transfer(header, chunk));
  }

  lemma DataFrameCarries(id: u64, kind: u64, total: u64, name: Option<Bytes>, offset: u64, body: Bytes)
    requires |body| < TWO31 - 200 && (name.Some? ==> |name.value| < TWO31 - 200)
    ensures CarriesPacket(DataFrame(id, kind, total, name, offset, body), Packet(id, kind, total, 0, offset, body))
    ensures |DataFrame(id, kind, total, name, offset, body)| <= |body| + 300 + if name.Some? then |name.value| else 0
  {
    hide GetVarint, GetBytes, PayloadHeader, DataChunk, CarriesPacket, Versioned, Transfer;
    HeaderParts(id, kind, total, name);
    DataChunkParts(offset, body);
    TransferCarries(PayloadHeader(id, kind, total, name), DataChunk(offset, body), Packet(id, kind, total, 0, offset,
                    body));
  }

  lemma LastFrameCarries(id: u64, kind: u64, total: u64, name: Option<Bytes>, offset: u64)
    requires name.Some? ==> |name.value| < TWO31 - 200
    ensures CarriesPacket(LastFrame(id, kind, total, name, offset), Packet(id, kind, total, 1, offset, []))
    ensures |LastFrame(id, kind, total, name, offset)| <= 300 + if name.Some? then |name.value| else 0
  {
    hide GetVarint, GetBytes, PayloadHeader, LastChunk, CarriesPacket, Versioned, Transfer;
    HeaderParts(id, kind, total, name);
    LastChunkParts(offset);
    TransferCarries(PayloadHeader(id, kind, total, name), LastChunk(offset), Packet(id, kind, total, 1, offset, []));
  }

  /** After every layer of wrapping a file-data frame is still one the peer's reader takes. */
  lemma DataFrameFits(p: Primitives, d: Direction, iv: Bytes, sequence: nat,
                      id: u64, total: u64, name: Bytes, offset: u64, body: Bytes)
    requires CipherLaws(p) && HashLaws(p) && |iv| == 16
    requires |body| <= 64 * 1024 && |name| <= 5 * 1024 * 1024 - 64 * 1024 - 1024
    ensures Acceptable(Seal(p, d, iv, sequence, DataFrame(id, FILE_PAYLOAD, total, Some(name), offset, body)))
    ensures Acceptable(Seal(p, d, iv, sequence, LastFrame(id, FILE_PAYLOAD, total, Some(name), offset)))
  {
    hide Seal, DataFrame, LastFrame, CipherLaws, HashLaws;
    DataFrameCarries(id, FILE_PAYLOAD, total, Some(name), offset, body);
    LastFrameCarries(id, FILE_PAYLOAD, total, Some(name), offset);
    SealSizes(p, d, iv, sequence, DataFrame(id, FILE_PAYLOAD, total, Some(name), offset, body));
    SealSizes(p, d, iv, sequence, LastFrame(id, FILE_PAYLOAD, total, Some(name), offset));
  }
}
