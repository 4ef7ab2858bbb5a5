/** How each side takes what the other side sealed: one offline frame, and the two frames of a
    sharing frame. */
module Exchange {
  import opened ByteStrings
  import opened ProtoWire
  import opened Crypto
  import opened Framing
  import opened SecureChannel
  import opened Frames
  import R = Receiver
  import S = Sender

  const MAX_OFFLINE := 5 * 1024 * 1024 - 400

  ghost predicate ChannelLaws(p: Primitives) { CipherLaws(p) && HashLaws(p) }

  /** The offline frames of a sharing frame. */
  function Pair(id: u64, sharing: Bytes): seq<Bytes>
    requires |sharing| < TWO64
  {
    [DataFrame(id, BYTES_PAYLOAD, |sharing|, None, 0, sharing),
     LastFrame(id, BYTES_PAYLOAD, |sharing|, None, |sharing|)]
  }

  lemma PairCarries(id: u64, sharing: Bytes)
    requires |sharing| <= 5 * 1024 * 1024 - 1000
    ensures var pair, n := Pair(id, sharing), |sharing|;
      && CarriesPacket(pair[0], Packet(id, BYTES_PAYLOAD, n, 0, 0, sharing)) && |pair[0]| <= MAX_OFFLINE
      && CarriesPacket(pair[1], Packet(id, BYTES_PAYLOAD, n, 1, n, [])) && |pair[1]| <= MAX_OFFLINE
  {
    hide CarriesPacket, DataFrame, LastFrame;
    DataFrameCarries(id, BYTES_PAYLOAD, |sharing|, None, 0, sharing);
    LastFrameCarries(id, BYTES_PAYLOAD, |sharing|, None, |sharing|);
  }

  // ---------------------------------------------------------------- the receiver

  /** A session whose loop is running and which no consent event is about to change. */
  ghost predicate Listening(e: R.Env, r: R.Session) {
    && ChannelLaws(e.p) && GoodKeys(r.receiveKeys) && r.clientSequence < TWO31
    && r.state != R.PlainHandshake && (r.state == R.AwaitConsent ==> r.consent == 0)
  }

  /** How a turn ends after a frame. */
  function Ended(r: R.Result): R.Turned {
    R.Turned(r.session, if !r.ok then R.Returned(false) else if R.Done(r.session) then R.Returned(true) else R.Running)
  }

  function Arrives(frame: Bytes): R.Event { R.Turn(false, R.Arrived(frame)) }

  lemma ReceiverTakes(e: R.Env, r: R.Session, iv: Bytes, offline: Bytes, packet: Packet)
    requires Listening(e, r) && |iv| == 16 && |offline| <= MAX_OFFLINE && CarriesPacket(offline, packet)
    ensures var frame := Seal(e.p, r.receiveKeys, iv, r.clientSequence + 1, offline);
      R.Step(e, r, Arrives(frame)) == Ended(R.TakePacket(e, r.(clientSequence := r.clientSequence + 1), packet))
  {
    hide Seal, Verified, Decrypted, HeaderAndBody, GoodKeys, CipherLaws, HashLaws, R.TakePacket, GetBytes, GetVarint;
    var n := r.clientSequence + 1;
    var frame := Seal(e.p, r.receiveKeys, iv, n, offline);
    SealSizes(e.p, r.receiveKeys, iv, n, offline);
    SealedContents(e.p, r.receiveKeys, iv, n, offline);
    SealOpen(e.p, r.receiveKeys, iv, n, offline, r.clientSequence);
    assert R.Counted(e, r, frame) == r.(clientSequence := n);
  }

  /** The receiver collects the first frame of a sharing frame and acts on the second. */
  lemma ReceiverTakesPair(e: R.Env, r: R.Session, iv1: Bytes, iv2: Bytes, id: u64, sharing: Bytes)
    requires Listening(e, r) && r.clientSequence + 1 < TWO31 && |iv1| == 16 && |iv2| == 16
    requires |sharing| <= 5 * 1024 * 1024 - 1000 && r.buffered + |sharing| <= R.MAX_BUFFERED_BYTES
    requires ToInt64(id) !in r.buffers && r.state != R.Receiving
    ensures var n, pair := r.clientSequence, Pair(id, sharing);
      var middle := r.(clientSequence := n + 1, buffers := r.buffers[ToInt64(id) := sharing],
                      buffered := r.buffered + |sharing|);
      && R.Step(e, r, Arrives(Seal(e.p, r.receiveKeys, iv1, n + 1, pair[0]))) == R.Turned(middle, R.Running)
      && R.Step(e, middle, Arrives(Seal(e.p, r.receiveKeys, iv2, n + 2, pair[1])))
           == Ended(R.SharingFrame(e, r.(clientSequence := n + 2), sharing))
  {
    hide Seal, CarriesPacket, DataFrame, LastFrame, R.Step, R.SharingFrame, GoodKeys, ChannelLaws;
    var n, pair := r.clientSequence, Pair(id, sharing);
    var key := ToInt64(id);
    PairCarries(id, sharing);
    var first := Packet(id, BYTES_PAYLOAD, |sharing|, 0, 0, sharing);
    ReceiverTakes(e, r, iv1, pair[0], first);
    var s1 := r.(clientSequence := n + 1);
    assert [] + sharing == sharing;
    var middle := s1.(buffers := r.buffers[key := sharing], buffered := r.buffered + |sharing|);
    assert R.TakePacket(e, s1, first) == R.Result(middle, true);
    var last := Packet(id, BYTES_PAYLOAD, |sharing|, 1, |sharing|, []);
    ReceiverTakes(e, middle, iv2, pair[1], last);
    assert sharing + [] == sharing;
    assert r.buffers[key := sharing][key := sharing] - {key} == r.buffers;
    assert R.Reassemble(middle.(clientSequence := n + 2), last)
        == R.Complete(r.(clientSequence := n + 2), sharing);
  }

  // ---------------------------------------------------------------- the sender

  lemma ControlCarries(header: Bytes, chunk: Bytes, flags: u64, offset: u64, body: Bytes, id: u64, total: u64)
    requires |header| < TWO31 - 100 && |chunk| < TWO31 - 100
    requires ParseParts(header, chunk) == Some(Packet(id, BYTES_PAYLOAD, total, flags, offset, body))
    ensures ParseOffline(Versioned(3, 4, Transfer(header, chunk))) == TransferOf(Some(Transfer(header, chunk)))
    ensures S.ParseControl(Transfer(header, chunk)) == Some(S.ControlPacket(id, total, flags, offset, body))
  {
    hide GetVarint, GetBytes, Versioned, V1, Transfer;
    TransferParts(header, chunk);
    VersionedParts(3, 4, Transfer(header, chunk));
    V1Parts(3, 4, Transfer(header, chunk));
  }

  ghost predicate CarriesControl(offline: Bytes, c: S.ControlPacket) {
    match ParseOffline(offline)
    case TransferOf(Some(transfer)) => S.ParseControl(transfer) == Some(c)
    case _ => false
  }

  lemma PairControls(id: u64, sharing: Bytes)
    requires |sharing| <= 5 * 1024 * 1024 - 1000
    ensures var pair, n := Pair(id, sharing), |sharing|;
      && CarriesControl(pair[0], S.ControlPacket(id, n, 0, 0, sharing)) && |pair[0]| <= MAX_OFFLINE
      && CarriesControl(pair[1], S.ControlPacket(id, n, 1, n, [])) && |pair[1]| <= MAX_OFFLINE
  {
    hide GetVarint, GetBytes, PayloadHeader, DataChunk, LastChunk, Versioned, Transfer, ParseOffline, S.ParseControl;
    var n := |sharing|;
    PairCarries(id, sharing);
    HeaderParts(id, BYTES_PAYLOAD, n, None);
    DataChunkParts(0, sharing);
    LastChunkParts(n);
    ControlCarries(PayloadHeader(id, BYTES_PAYLOAD, n, None), DataChunk(0, sharing), 0, 0, sharing, id, n);
    ControlCarries(PayloadHeader(id, BYTES_PAYLOAD, n, None), LastChunk(n), 1, n, [], id, n);
  }

  ghost predicate Waiting(e: S.SenderEnv, s: S.Sender) {
    ChannelLaws(e.p) && GoodKeys(s.receiveKeys) && s.receiveSequence < TWO31
  }

  lemma SenderTakes(e: S.SenderEnv, s: S.Sender, iv: Bytes, offline: Bytes, c: S.ControlPacket)
    requires Waiting(e, s) && |iv| == 16 && |offline| <= MAX_OFFLINE && CarriesControl(offline, c)
    ensures var frame := Seal(e.p, s.receiveKeys, iv, s.receiveSequence + 1, offline);
      S.TakeSecure(e, s, frame) == S.TakeControl(s.(receiveSequence := s.receiveSequence + 1), c) && Acceptable(frame)
  {
    hide Seal, Verified, Decrypted, HeaderAndBody, GoodKeys, CipherLaws, HashLaws, S.TakeControl, GetBytes, GetVarint;
    var n := s.receiveSequence + 1;
    var frame := Seal(e.p, s.receiveKeys, iv, n, offline);
    SealSizes(e.p, s.receiveKeys, iv, n, offline);
    SealedContents(e.p, s.receiveKeys, iv, n, offline);
    SealOpen(e.p, s.receiveKeys, iv, n, offline, s.receiveSequence);
    assert S.Counted(e, s, frame) == s.(receiveSequence := n);
  }

  lemma SenderTakesPair(e: S.SenderEnv, s: S.Sender, iv1: Bytes, iv2: Bytes, id: u64, sharing: Bytes)
    requires Waiting(e, s) && s.receiveSequence + 1 < TWO31 && |iv1| == 16 && |iv2| == 16
    requires |sharing| <= 5 * 1024 * 1024 - 1000 && id !in s.controls
    ensures var n, pair := s.receiveSequence, Pair(id, sharing);
      var middle := s.(receiveSequence := n + 1, controls := s.controls[id := sharing]);
      && S.TakeSecure(e, s, Seal(e.p, s.receiveKeys, iv1, n + 1, pair[0])) == S.Nothing(middle)
      && S.TakeSecure(e, middle, Seal(e.p, s.receiveKeys, iv2, n + 2, pair[1]))
           == S.Got(s.(receiveSequence := n + 2), sharing)
      && Acceptable(Seal(e.p, s.receiveKeys, iv1, n + 1, pair[0]))
      && Acceptable(Seal(e.p, s.receiveKeys, iv2, n + 2, pair[1]))
  {
    hide Seal, CarriesControl, DataFrame, LastFrame, S.TakeSecure, GoodKeys, ChannelLaws;
    var n, pair := s.receiveSequence, Pair(id, sharing);
    PairControls(id, sharing);
    var first := S.ControlPacket(id, |sharing|, 0, 0, sharing);
    SenderTakes(e, s, iv1, pair[0], first);
    var s1 := s.(receiveSequence := n + 1);
    assert [] + sharing == sharing;
    var middle := s1.(controls := s.controls[id := sharing]);
    assert S.TakeControl(s1, first) == S.Nothing(middle);
    var last := S.ControlPacket(id, |sharing|, 1, |sharing|, []);
    SenderTakes(e, middle, iv2, pair[1], last);
    assert sharing + [] == sharing;
    assert s.controls[id := sharing][id := sharing] - {id} == s.controls;
  }
}
