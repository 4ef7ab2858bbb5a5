/** What each end of the handshake makes of the frames the other end builds. */
module HandshakeFrames {
  import opened ByteStrings
  import opened ProtoWire
  import opened Crypto
  import opened Framing
  import opened SecureChannel
  import opened KeyAgreement
  import opened Frames
  import R = Receiver
  import S = Sender

  // ---------------------------------------------------------------- what the receiver reads

  lemma NameFits(e: S.SenderEnv)
    requires |e.endpointRandom| == 16
    ensures var info := S.EndpointInfo(e);
      18 <= |info| <= 63 && info[17] as int == |info| - 18
  {
    hide Ascii;
  }

  lemma ConnectionRequestRead(e: S.SenderEnv)
    requires S.GoodSenderEnv(e)
    ensures R.ConnectionRequestValid(S.ConnectionRequest(e)) && Acceptable(S.ConnectionRequest(e))
  {
    hide Encode, GetBytes, GetVarint, V1, Versioned, S.EndpointInfo, S.ShortName;
    NameFits(e);
    var fields := [B(1, e.endpointId), B(2, S.ShortName(e)), B(6, S.EndpointInfo(e)), V(5, 5)];
    BytesAt(fields, 6, 2);
    SmallSize(fields);
    VersionedFrame(1, 2, Encode(fields));
  }

  lemma VersionedFrame(kind: u64, number: nat, payload: Bytes)
    requires 0 < number < TWO31 && |payload| < TWO32
    ensures var frame := Versioned(kind, number, payload);
      && GetVarint(frame, 1) == Some(1) && GetBytes(frame, 2) == Some(V1(kind, number, payload))
      && GetVarint(V1(kind, number, payload), 1) == Some(kind)
      && GetBytes(V1(kind, number, payload), number) == Some(payload)
      && 0 < |frame| <= |payload| + 80
  {
    hide Encode, GetBytes, GetVarint, V1;
    V1Parts(kind, number, payload);
    VersionedParts(kind, number, payload);
    SmallSize([V(1, 1), B(2, V1(kind, number, payload))]);
  }

  lemma FinishRead(e: S.SenderEnv)
    requires CurveLaws(e.p)
    ensures R.ParseClientFinish(S.ClientFinish(e)) == Some(GenericPublic(e.p.publicPoint(e.secret)))
    ensures Acceptable(S.ClientFinish(e))
  {
    hide Encode, GetBytes, GetVarint, V1, GenericPublic;
    var generic := GenericPublic(e.p.publicPoint(e.secret));
    PublicRoundTrip(e.p.publicPoint(e.secret));
    BytesAt([B(1, generic)], 1, 0);
    SmallSize([B(1, generic)]);
    V1Parts(4, 2, Encode([B(1, generic)]));
  }

  lemma CommitmentFound(e: S.SenderEnv)
    requires HashLaws(e.p)
    ensures |S.Commitment(e)| <= 200
    ensures R.FindCommitment([S.Commitment(e)]) == Some(e.p.sha512(S.ClientFinish(e)))
  {
    hide Encode, GetBytes, GetVarint, S.ClientFinish;
    var commitment := e.p.sha512(S.ClientFinish(e));
    VarintAt([V(1, 100), B(2, commitment)], 1, 0);
    BytesAt([V(1, 100), B(2, commitment)], 2, 1);
    SmallSize([V(1, 100), B(2, commitment)]);
  }

  /** Only one commitment is offered. */
  lemma OneCommitment(version: u64, nonce: Bytes, commitment: Bytes, protocol: Bytes)
    requires |nonce| < TWO31 && |commitment| < TWO31 && |protocol| < TWO31
    ensures GetAll(Encode([V(1, version), B(2, nonce), B(3, commitment), B(4, protocol)]), 3) == [commitment]
  {
    hide Encode, AllBytes;
    var fields := [V(1, version), B(2, nonce), B(3, commitment), B(4, protocol)];
    ParseEncode(fields);
    SkipOther([], B(4, protocol), 3);
    SkipOther([B(4, protocol)], B(3, commitment), 3);
    SkipOther([B(3, commitment), B(4, protocol)], B(2, nonce), 3);
    SkipOther([B(2, nonce), B(3, commitment), B(4, protocol)], V(1, version), 3);
    assert fields == [V(1, version)] + [B(2, nonce), B(3, commitment), B(4, protocol)];
    assert [B(2, nonce), B(3, commitment), B(4, protocol)] == [B(2, nonce)] + [B(3, commitment), B(4, protocol)];
    assert [B(3, commitment), B(4, protocol)] == [B(3, commitment)] + [B(4, protocol)];
    assert [B(4, protocol)] == [B(4, protocol)] + [];
    assert AllBytes([], 3) == [] by { NoBytes(3); }
  }

  lemma NoBytes(number: int)
    ensures AllBytes([], number) == []
  {
  }

  lemma SkipOther(fields: seq<Field>, f: Field, number: int)
    ensures AllBytes([f] + fields, number)
         == (if f.number == number && f.wireType == 2 then [f.bytes] else []) + AllBytes(fields, number)
  {
    assert ([f] + fields)[1..] == fields;
  }

  lemma InitRead(e: S.SenderEnv)
    requires HashLaws(e.p) && S.GoodSenderEnv(e)
    ensures R.ParseClientInit(S.ClientInit(e)) == Some(e.p.sha512(S.ClientFinish(e)))
    ensures Acceptable(S.ClientInit(e))
  {
    hide Encode, GetBytes, GetVarint, GetAll, V1, R.FindCommitment, S.ClientFinish, S.Commitment, Ascii;
    CommitmentFound(e);
    var protocol := Ascii("AES_256_CBC-HMAC_SHA256");
    var fields := [V(1, 1), B(2, e.nonce), B(3, S.Commitment(e)), B(4, protocol)];
    VarintAt(fields, 1, 0);
    BytesAt(fields, 2, 1);
    BytesAt(fields, 4, 3);
    OneCommitment(1, e.nonce, S.Commitment(e), protocol);
    SmallSize(fields);
    V1Parts(2, 2, Encode(fields));
  }

  lemma ResponseRead()
    ensures R.ClientResponseValid(S.ConnectionResponse()) && Acceptable(S.ConnectionResponse())
  {
    hide Encode, GetBytes, GetVarint, V1, Versioned;
    SmallSize([V(1, 100)]);
    var fields := [V(3, 1), V(7, 1), B(4, Encode([V(1, 100)]))];
    SmallSize(fields);
    VersionedFrame(2, 3, Encode(fields));
  }

  // ---------------------------------------------------------------- what the sender reads

  lemma ServerInitRead(g: R.Env)
    requires CurveLaws(g.p) && R.GoodEnv(g)
    ensures S.ParseServerInit(R.ServerInit(g)) == Some(g.p.publicPoint(g.secret)) && Acceptable(R.ServerInit(g))
  {
    hide Encode, GetBytes, GetVarint, V1, GenericPublic, ParsePublic;
    var generic := GenericPublic(g.p.publicPoint(g.secret));
    PublicRoundTrip(g.p.publicPoint(g.secret));
    var fields := [V(1, 1), B(2, g.nonce), V(3, 100), B(4, generic)];
    VarintAt(fields, 1, 0);
    VarintAt(fields, 3, 2);
    BytesAt(fields, 4, 3);
    SmallSize(fields);
    V1Parts(3, 2, Encode(fields));
  }

  lemma ConnectionResponseRead()
    ensures S.ParseConnectionResponse(R.ConnectionResponse()) == Some(S.Verdict(true, false))
    ensures Acceptable(R.ConnectionResponse())
  {
    hide Encode, GetBytes, GetVarint, V1, Versioned;
    SmallSize([V(1, 100)]);
    var fields := [V(1, 0), V(3, 1), B(4, Encode([V(1, 100)]))];
    VarintAt(fields, 3, 1);
    VarintAbsent(fields, 7);
    SmallSize(fields);
    VersionedFrame(2, 3, Encode(fields));
  }

  lemma VarintAbsent(fields: seq<Field>, number: int)
    requires AllWritable(fields) && |fields| <= 3 && forall f :: f in fields ==> f.number != number
    ensures GetVarint(Encode(fields), number) == None
  {
    hide Encode;
    ParseEncode(fields);
    var rest := fields;
    while rest != []
      invariant |rest| <= 3 && forall f :: f in rest ==> f.number != number
      invariant FirstVarint(fields, number) == FirstVarint(rest, number)
      decreases |rest|
    {
      rest := rest[1..];
    }
  }

  /** The sender goes on exactly when the receiver's user accepted. */
  lemma DecisionRead(accepted: bool)
    ensures S.DecisionAccepted(R.IntroductionResponse(accepted)) == accepted
    ensures |R.IntroductionResponse(accepted)| <= 200
  {
    hide Encode, GetBytes, GetVarint, V1, Versioned;
    var fields := [V(1, if accepted then 1 else 2)];
    VarintAt(fields, 1, 0);
    SmallSize(fields);
    VersionedFrame(2, 3, Encode(fields));
  }

  // ---------------------------------------------------------------- sharing frames

  lemma SharingRead(kind: u64, number: nat, payload: Bytes)
    requires 0 < number < TWO31 && |payload| < TWO32
    ensures var v1 := V1(kind, number, payload);
      && R.ParseSharing(Versioned(kind, number, payload)) == Some(R.Sharing(kind, v1))
      && GetBytes(v1, number) == Some(payload)
      && |Versioned(kind, number, payload)| <= |payload| + 80
  {
    hide Encode, GetBytes, GetVarint, V1, Versioned;
    VersionedFrame(kind, number, payload);
  }

  lemma PairedSizes(data: Bytes, hash: Bytes)
    requires |data| == 72 && |hash| == 6
    ensures |Encode([B(1, data), B(2, hash)])| <= 200 && |Encode([V(1, 3)])| <= 40
  {
    hide Encode;
    SmallSize([B(1, data), B(2, hash)]);
    SmallSize([V(1, 3)]);
  }
}
