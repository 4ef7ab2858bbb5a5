/** What the parsers of both ends accept, on arbitrary bytes: each field is named by its path through the
    nested messages. */
module FrameReading {
  import opened ByteStrings
  import opened ProtoWire
  import opened Crypto
  import opened Keys
  import opened KeyAgreement
  import opened Frames
  import R = Receiver
  import S = Sender

  // ---------------------------------------------------------------- paths

  /** The message found by entering these fields one after the other. */
  function Inner(frame: Bytes, path: seq<int>): Option<Bytes>
    decreases |path|
  {
    if path == [] then Some(frame)
    else match GetBytes(frame, path[0])
         case None => None
         case Some(message) => Inner(message, path[1..])
  }

  function VarintIn(frame: Bytes, path: seq<int>, number: int): Option<u64> {
    match Inner(frame, path)
    case None => None
    case Some(message) => GetVarint(message, number)
  }

  lemma InnerStep(frame: Bytes, a: int, path: seq<int>)
    ensures Inner(frame, []) == Some(frame)
    ensures Inner(frame, [a] + path) == match GetBytes(frame, a) case None => None case Some(m) => Inner(m, path)
  {
    hide GetBytes;
    assert ([a] + path)[1..] == path;
  }

  /** Paths of up to three fields. */
  lemma FieldPaths(frame: Bytes, a: int, b: int, c: int)
    ensures Inner(frame, []) == Some(frame) && Inner(frame, [a]) == GetBytes(frame, a)
    ensures Inner(frame, [a, b]) ==
      match GetBytes(frame, a) case None => None case Some(m) => GetBytes(m, b)
    ensures Inner(frame, [a, b, c]) ==
      match GetBytes(frame, a)
      case None => None
      case Some(m) => match GetBytes(m, b) case None => None case Some(n) => GetBytes(n, c)
  {
    hide GetBytes, Inner;
    InnerStep(frame, a, []);
    InnerStep(frame, a, [b]);
    InnerStep(frame, a, [b, c]);
    assert [a] + [] == [a] && [a] + [b] == [a, b] && [a] + [b, c] == [a, b, c];
    if GetBytes(frame, a).Some? {
      var m := GetBytes(frame, a).value;
      InnerStep(m, b, []);
      InnerStep(m, b, [c]);
      assert [b] + [] == [b] && [b] + [c] == [b, c];
      if GetBytes(m, b).Some? {
        InnerStep(GetBytes(m, b).value, c, []);
        assert [c] + [] == [c];
        if GetBytes(GetBytes(m, b).value, c).Some? {
          InnerStep(GetBytes(GetBytes(m, b).value, c).value, 0, []);
        }
      }
    }
  }

  // ---------------------------------------------------------------- what the receiver reads

  /** A connection request: version 1, kind 1, and endpoint information as long as it says. */
  ghost predicate Requests(frame: Bytes) {
    var info := Inner(frame, [2, 2, 6]);
    && VarintIn(frame, [], 1) == Some(1) && VarintIn(frame, [2], 1) == Some(1)
    && info.Some? && |info.value| >= 18 && |info.value| - 18 >= info.value[17] as int
  }

  lemma RequestMeaning(frame: Bytes)
    ensures R.ConnectionRequestValid(frame) <==> Requests(frame)
  {
    hide GetBytes, GetVarint, Inner;
    FieldPaths(frame, 2, 2, 6);
  }

  /** A commitment for cipher 100. */
  ghost predicate ForCipher(commitment: Bytes) {
    GetVarint(commitment, 1) == Some(100) && GetBytes(commitment, 2).Some?
  }

  /** The first of them in the list is to this hash. */
  ghost predicate CommitsTo(list: seq<Bytes>, hash: Bytes) {
    exists k :: 0 <= k < |list| && FirstFor(list, k) && GetBytes(list[k], 2) == Some(hash)
  }

  ghost predicate FirstFor(list: seq<Bytes>, k: nat)
    requires k < |list|
  {
    ForCipher(list[k]) && forall j :: 0 <= j < k ==> !ForCipher(list[j])
  }

  /** A UKEY2 ClientInit: kind 2, version 1, a 32-byte nonce, the one protocol, and a commitment to this hash. */
  ghost predicate Initiates(frame: Bytes, hash: Bytes) {
    var data, nonce := Inner(frame, [2]), Inner(frame, [2, 2]);
    && VarintIn(frame, [], 1) == Some(2) && VarintIn(frame, [2], 1) == Some(1)
    && nonce.Some? && |nonce.value| == 32
    && Inner(frame, [2, 4]) == Some(Ascii("AES_256_CBC-HMAC_SHA256"))
    && data.Some? && CommitsTo(GetAll(data.value, 3), hash) && |hash| == 64
  }

  lemma {:induction false} CommitmentMeaning(list: seq<Bytes>, hash: Bytes)
    ensures R.FindCommitment(list) == Some(hash) <==> CommitsTo(list, hash)
    ensures R.FindCommitment(list) == None <==> forall k :: 0 <= k < |list| ==> !ForCipher(list[k])
    decreases |list|
  {
    hide GetBytes, GetVarint;
    if list != [] {
      var rest := list[1..];
      CommitmentMeaning(rest, hash);
      assert forall k :: 0 <= k < |rest| ==> rest[k] == list[k + 1];
      if ForCipher(list[0]) {
        if CommitsTo(list, hash) {
          var k :| 0 <= k < |list| && FirstFor(list, k) && GetBytes(list[k], 2) == Some(hash);
          assert k == 0;
        }
        assert FirstFor(list, 0);
      } else {
        if CommitsTo(list, hash) {
          var k :| 0 <= k < |list| && FirstFor(list, k) && GetBytes(list[k], 2) == Some(hash);
          assert FirstFor(rest, k - 1);
        }
        if CommitsTo(rest, hash) {
          var k :| 0 <= k < |rest| && FirstFor(rest, k) && GetBytes(rest[k], 2) == Some(hash);
          assert FirstFor(list, k + 1);
        }
      }
    }
  }

  lemma InitMeaning(frame: Bytes, hash: Bytes)
    ensures R.ParseClientInit(frame) == Some(hash) <==> Initiates(frame, hash)
  {
    hide GetBytes, GetVarint, GetAll, Inner, R.FindCommitment, CommitsTo, Ascii;
    FieldPaths(frame, 2, 2, 0);
    FieldPaths(frame, 2, 4, 0);
    if Inner(frame, [2]).Some? {
      var list := GetAll(Inner(frame, [2]).value, 3);
      CommitmentMeaning(list, hash);
    }
  }

  /** A ClientFinish with this generic public key. */
  ghost predicate Finishes(frame: Bytes, generic: Bytes) {
    VarintIn(frame, [], 1) == Some(4) && Inner(frame, [2, 1]) == Some(generic)
  }

  lemma FinishMeaning(frame: Bytes, generic: Bytes)
    ensures R.ParseClientFinish(frame) == Some(generic) <==> Finishes(frame, generic)
  {
    hide GetBytes, GetVarint, Inner;
    FieldPaths(frame, 2, 1, 0);
  }

  /** An EC key: kind 1, and both coordinates of at most 32 bytes when leading zeros are dropped. */
  ghost predicate Presents(generic: Bytes, q: Point) {
    var x, y := Inner(generic, [2, 1]), Inner(generic, [2, 2]);
    && VarintIn(generic, [], 1) == Some(1) && x.Some? && y.Some?
    && FromBigEndian(x.value) == q.x < COORDINATE_LIMIT && FromBigEndian(y.value) == q.y < COORDINATE_LIMIT
  }

  lemma PublicMeaning(generic: Bytes, q: Point)
    ensures ParsePublic(generic) == Some(q) <==> Presents(generic, q)
  {
    hide GetBytes, GetVarint, Inner, Normalize, FromBigEndian;
    FieldPaths(generic, 2, 1, 0);
    FieldPaths(generic, 2, 2, 0);
    var x, y := Inner(generic, [2, 1]), Inner(generic, [2, 2]);
    if x.Some? && y.Some? {
      NormalizeMeaning(x.value);
      NormalizeMeaning(y.value);
    }
  }

  lemma ResponseMeaning(frame: Bytes)
    ensures R.ClientResponseValid(frame) <==> VarintIn(frame, [2], 1) == Some(2)
  {
    hide GetBytes, GetVarint, Inner;
    FieldPaths(frame, 2, 0, 0);
  }

  /** A sharing frame of this kind, and its body. */
  lemma SharingMeaning(frame: Bytes, kind: u64, v1: Bytes)
    ensures R.ParseSharing(frame) == Some(R.Sharing(kind, v1)) <==>
      Inner(frame, [2]) == Some(v1) && VarintIn(frame, [2], 1) == Some(kind)
  {
    hide GetBytes, GetVarint, Inner;
    FieldPaths(frame, 2, 0, 0);
  }

  // ---------------------------------------------------------------- what the sender reads

  /** A UKEY2 ServerInit: kind 3, version 1, cipher 100 and this generic public key. */
  ghost predicate Offers(frame: Bytes, generic: Bytes) {
    && VarintIn(frame, [], 1) == Some(3) && VarintIn(frame, [2], 1) == Some(1) && VarintIn(frame, [2], 3) == Some(100)
    && Inner(frame, [2, 4]) == Some(generic)
  }

  lemma OfferMeaning(frame: Bytes, q: Point)
    ensures S.ParseServerInit(frame) == Some(q) <==>
      exists generic: Bytes :: Offers(frame, generic) && Presents(generic, q)
  {
    hide GetBytes, GetVarint, Inner, ParsePublic, Presents;
    FieldPaths(frame, 2, 4, 0);
    if Inner(frame, [2, 4]).Some? {
      var generic := Inner(frame, [2, 4]).value;
      PublicMeaning(generic, q);
      assert VarintIn(frame, [2], 1) == GetVarint(GetBytes(frame, 2).value, 1);
      if S.ParseServerInit(frame) == Some(q) {
        assert Offers(frame, generic) && Presents(generic, q);
      }
    }
  }

  /** The receiver agrees: by its decision, or, if it made none, by a legacy status of zero. */
  ghost predicate Agrees(frame: Bytes) {
    var decision, status := VarintIn(frame, [2, 3], 3), VarintIn(frame, [2, 3], 1);
    decision == Some(1) || (decision == None && status == Some(0))
  }

  lemma VerdictMeaning(frame: Bytes)
    ensures var verdict := S.ParseConnectionResponse(frame);
      && (verdict.Some? <==>
            VarintIn(frame, [], 1) == Some(1) && VarintIn(frame, [2], 1) == Some(2) && Inner(frame, [2, 3]).Some?)
      && (verdict.Some? ==>
            && (verdict.value.accepted <==> Agrees(frame))
            && (verdict.value.safeDisconnect <==>
                  VarintIn(frame, [2, 3], 7).Some? && VarintIn(frame, [2, 3], 7).value > 0))
  {
    hide GetBytes, GetVarint, Inner;
    FieldPaths(frame, 2, 3, 0);
  }

  /** The user's answer: kind 2, and status 1 for a yes. */
  lemma DecisionMeaning(frame: Bytes)
    ensures S.DecisionAccepted(frame) <==> VarintIn(frame, [2], 1) == Some(2) && VarintIn(frame, [2, 3], 1) == Some(1)
  {
    hide GetBytes, GetVarint, Inner;
    FieldPaths(frame, 2, 3, 0);
  }

  /** A frame found between two chunks stops the sender if it is a cancellation, kind 6, or cannot be read. */
  lemma CancelMeaning(frame: Bytes)
    ensures S.Cancels(frame) <==> VarintIn(frame, [2], 1) in {None, Some(6)}
  {
    hide GetBytes, GetVarint, Inner;
    FieldPaths(frame, 2, 0, 0);
  }

  // ---------------------------------------------------------------- what both read inside the channel

  /** An offline frame with a payload transfer: kind 3, the transfer in field 4. */
  lemma OfflineMeaning(offline: Bytes)
    ensures var kind, parsed := VarintIn(offline, [2], 1), ParseOffline(offline);
      && (parsed.Malformed? <==> kind == None) && (parsed.KeepAlive? <==> kind == Some(5))
      && (parsed.Disconnection? <==> kind == Some(6))
      && (parsed.TransferOf? <==> kind == Some(3))
      && (parsed.TransferOf? ==> parsed.transfer == Inner(offline, [2, 4]))
  {
    hide GetBytes, GetVarint, Inner;
    FieldPaths(offline, 2, 4, 0);
  }

  /** A packet of type 1, its header in field 2 and its chunk in field 3. */
  ghost predicate Carries(transfer: Bytes, p: Packet) {
    var body := Inner(transfer, [3, 3]);
    && VarintIn(transfer, [], 1) == Some(1)
    && VarintIn(transfer, [2], 1) == Some(p.id) && VarintIn(transfer, [2], 2) == Some(p.kind)
    && VarintIn(transfer, [2], 3) == Some(p.total)
    && VarintIn(transfer, [3], 1) == Some(p.flags) && VarintIn(transfer, [3], 2) == Some(p.offset)
    && p.body == if body.Some? then body.value else []
  }

  lemma PacketMeaning(transfer: Bytes, p: Packet)
    ensures ParsePacket(transfer) == Some(p) <==> Carries(transfer, p)
  {
    hide GetBytes, GetVarint, Inner;
    FieldPaths(transfer, 2, 0, 0);
    FieldPaths(transfer, 3, 3, 0);
  }

  /** The sender does not look at the payload kind. */
  lemma ControlMeaning(transfer: Bytes, c: S.ControlPacket)
    ensures S.ParseControl(transfer) == Some(c) <==>
      var body := Inner(transfer, [3, 3]);
      && VarintIn(transfer, [], 1) == Some(1)
      && VarintIn(transfer, [2], 1) == Some(c.id) && VarintIn(transfer, [2], 3) == Some(c.total)
      && VarintIn(transfer, [3], 1) == Some(c.flags) && VarintIn(transfer, [3], 2) == Some(c.offset)
      && c.body == if body.Some? then body.value else []
  {
    hide GetBytes, GetVarint, Inner;
    FieldPaths(transfer, 2, 0, 0);
    FieldPaths(transfer, 3, 3, 0);
  }
}
