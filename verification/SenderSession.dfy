/** QuickShareSender, with its fields updated in place; every method takes exactly the step that the
    functions of Sender.dfy describe. */
module SenderSession {
  import opened ByteStrings
  import opened ProtoWire
  import opened Crypto
  import opened Framing
  import opened SecureChannel
  import opened KeyAgreement
  import opened Frames
  import opened FrameBuilders
  import opened S = Sender

  // ---------------------------------------------------------------- the frames of the handshake

  method MakeConnectionRequest(e: SenderEnv) returns (r: Bytes)
    requires GoodSenderEnv(e)
    ensures r == ConnectionRequest(e)
  {
    hide Encode, Versioned, ShortName, Ascii;
    var name := ShortName(e);
    var info := [2] + e.endpointRandom + [|name|] + name;
    var request := new Message();
    AppendBytes(request, 1, e.endpointId);
    AppendBytes(request, 2, name);
    AppendBytes(request, 6, info);
    AppendVarint(request, 5, 5);
    assert request.fields == [B(1, e.endpointId), B(2, name), B(6, info), V(5, 5)];
    SmallSize(request.fields);
    r := MakeVersioned(1, 2, request.bytes);
  }

  method MakeClientFinish(e: SenderEnv) returns (r: Bytes)
    requires CurveLaws(e.p)
    ensures r == ClientFinish(e)
  {
    hide Encode, GenericPublic;
    var q := e.p.publicPoint(e.secret);
    assert OnGrid(q);
    var genericPublic := MakeGenericPublic(q);
    var finish := new Message();
    AppendBytes(finish, 1, genericPublic);
    assert finish.fields == [B(1, genericPublic)];
    SmallSize(finish.fields);
    var message := new Message();
    AppendVarint(message, 1, 4);
    AppendBytes(message, 2, finish.bytes);
    assert message.fields == [V(1, 4), B(2, finish.bytes)];
    return message.bytes;
  }

  /** The commitment to `finish` comes first. */
  method MakeClientInit(e: SenderEnv, finish: Bytes) returns (r: Bytes)
    requires HashLaws(e.p) && |e.nonce| == 32 && finish == ClientFinish(e)
    ensures r == ClientInit(e)
  {
    hide Encode, ClientFinish, Ascii;
    var commitment := e.p.sha512(finish);
    var cipher := new Message();
    AppendVarint(cipher, 1, 100);
    AppendBytes(cipher, 2, commitment);
    assert cipher.fields == [V(1, 100), B(2, commitment)];
    SmallSize(cipher.fields);
    var protocol := Ascii("AES_256_CBC-HMAC_SHA256");
    var init := new Message();
    AppendVarint(init, 1, 1);
    AppendBytes(init, 2, e.nonce);
    AppendBytes(init, 3, cipher.bytes);
    AppendBytes(init, 4, protocol);
    assert init.fields == [V(1, 1), B(2, e.nonce), B(3, Commitment(e)), B(4, protocol)];
    SmallSize(init.fields);
    var message := new Message();
    AppendVarint(message, 1, 2);
    AppendBytes(message, 2, init.bytes);
    assert message.fields == [V(1, 2), B(2, init.bytes)];
    return message.bytes;
  }

  method MakeConnectionResponse() returns (r: Bytes)
    ensures r == ConnectionResponse()
  {
    hide Encode, Versioned;
    var response := new Message();
    AppendVarint(response, 3, 1);
    AppendVarint(response, 7, 1);
    var osInfo := new Message();
    AppendVarint(osInfo, 1, 100);
    assert osInfo.fields == [V(1, 100)];
    SmallSize(osInfo.fields);
    AppendBytes(response, 4, osInfo.bytes);
    assert response.fields == [V(3, 1), V(7, 1), B(4, osInfo.bytes)];
    SmallSize(response.fields);
    r := MakeVersioned(2, 3, response.bytes);
  }

  // ---------------------------------------------------------------- the introduction

  predicate NameFits(f: OutgoingFile) { |f.name| + |f.mime| < TWO31 - 100000 && |f.content| < TWO63 }

  method MakeMetadata(f: OutgoingFile) returns (r: Bytes)
    requires NameFits(f)
    ensures r == Metadata(f) && |r| <= |f.name| + |f.mime| + 120
  {
    hide Encode, MetadataType;
    var metadata := new Message();
    AppendBytes(metadata, 1, f.name);
    var kind := MetadataType(f);
    if kind != 0 {
      AppendVarint(metadata, 2, kind);
    }
    ghost var start := [B(1, f.name)] + if kind != 0 then [V(2, kind)] else [];
    assert metadata.fields == start;
    AppendVarint(metadata, 3, f.id);
    AppendVarint(metadata, 4, |f.content|);
    AppendBytes(metadata, 5, f.mime);
    AppendVarint(metadata, 6, f.id);
    assert metadata.fields == start + [V(3, f.id), V(4, |f.content|), B(5, f.mime), V(6, f.id)];
    SmallSize(metadata.fields);
    return metadata.bytes;
  }

  /** A bound on the introduction that does not depend on the identifiers. */
  function ListSize(files: seq<OutgoingFile>): nat {
    if files == [] then 40 else |files[0].name| + |files[0].mime| + 140 + ListSize(files[1..])
  }

  lemma MetadataSize(f: OutgoingFile)
    requires NameFits(f)
    ensures |Metadata(f)| <= |f.name| + |f.mime| + 120
  {
    hide Encode, MetadataType;
    SmallSize([B(1, f.name)] + (if MetadataType(f) != 0 then [V(2, MetadataType(f))] else [])
              + [V(3, f.id), V(4, SizeOf(f.content)), B(5, f.mime), V(6, f.id)]);
  }

  lemma {:induction false} IntroductionSize(files: seq<OutgoingFile>)
    requires forall f :: f in files ==> NameFits(f)
    ensures |IntroductionBody(files)| <= ListSize(files)
    ensures AllWritable(MetadataFields(files) + [V(8, 1)])
  {
    hide Metadata, Encode, EncodeField, AllWritable;
    var fields := MetadataFields(files) + [V(8, 1)];
    if files == [] {
      assert fields == [V(8, 1)];
      LoneField(V(8, 1));
      SmallSize(fields);
    } else {
      assert files[0] in files;
      MetadataSize(files[0]);
      IntroductionSize(files[1..]);
      var rest := MetadataFields(files[1..]) + [V(8, 1)];
      assert fields == [B(1, Metadata(files[0]))] + rest;
      OneField(B(1, Metadata(files[0])));
      FieldMore(B(1, Metadata(files[0])), rest);
    }
  }

  lemma LoneField(f: Field)
    requires Writable(f)
    ensures AllWritable([f])
  {
  }

  lemma FieldMore(f: Field, rest: seq<Field>)
    ensures |Encode([f] + rest)| == |EncodeField(f)| + |Encode(rest)|
    ensures Writable(f) && AllWritable(rest) ==> AllWritable([f] + rest)
  {
    hide EncodeField, Writable;
    assert ([f] + rest)[1..] == rest;
  }

  lemma OneField(f: Field)
    requires Writable(f)
    ensures |EncodeField(f)| <= |f.bytes| + 20
  {
    hide EncodeField;
    SmallSize([f]);
    assert Encode([f]) == EncodeField(f) + Encode([]);
  }

  // ---------------------------------------------------------------- the chunks of a file

  /** One frame of a file: with a piece of it, or closing it. */
  function FileFrame(f: OutgoingFile, last: bool, offset: nat, body: Bytes): Bytes {
    if last then LastFrame(f.id, FILE_PAYLOAD, SizeOf(f.content), Some(f.name), offset % TWO64)
    else DataFrame(f.id, FILE_PAYLOAD, SizeOf(f.content), Some(f.name), offset % TWO64, body)
  }

  /** The chunk frames but for the last. */
  function DataFrames(f: OutgoingFile, offset: nat, chunks: seq<Bytes>): seq<Bytes>
    decreases |chunks|
  {
    if chunks == [] then []
    else [FileFrame(f, false, offset, chunks[0])] + DataFrames(f, offset + |chunks[0]|, chunks[1..])
  }

  lemma {:induction false} MoreFrames(f: OutgoingFile, offset: nat, chunks: seq<Bytes>, body: Bytes)
    ensures DataFrames(f, offset, chunks + [body])
         == DataFrames(f, offset, chunks) + [FileFrame(f, false, offset + |Concat(chunks)|, body)]
    decreases |chunks|
  {
    hide FileFrame;
    if chunks == [] {
      assert chunks + [body] == [body];
    } else {
      assert (chunks + [body])[1..] == chunks[1..] + [body];
      MoreFrames(f, offset + |chunks[0]|, chunks[1..], body);
      assert offset + |Concat(chunks)| == offset + |chunks[0]| + |Concat(chunks[1..])|;
    }
  }

  lemma {:induction false} LastOfFrames(f: OutgoingFile, offset: nat, chunks: seq<Bytes>)
    ensures ChunkFrames(f, offset, chunks)
         == DataFrames(f, offset, chunks) + [FileFrame(f, true, offset + |Concat(chunks)|, [])]
    decreases |chunks|
  {
    hide DataFrame, LastFrame;
    if chunks != [] {
      LastOfFrames(f, offset + |chunks[0]|, chunks[1..]);
      assert offset + |Concat(chunks)| == offset + |chunks[0]| + |Concat(chunks[1..])|;
    }
  }

  /** Reads that have returned the first `offset` bytes. */
  ghost predicate ReadSoFar(f: OutgoingFile, chunks: seq<Bytes>, offset: nat) {
    offset <= |f.content| && Concat(chunks) == f.content[..offset] && forall c :: c in chunks ==> |c| <= CHUNK_SIZE
  }

  lemma Grown(f: OutgoingFile, offset: nat, chunks: seq<Bytes>, body: Bytes)
    requires ReadSoFar(f, chunks, offset) && body <= f.content[offset..] && |body| <= CHUNK_SIZE
    ensures ReadSoFar(f, chunks + [body], offset + |body|) && offset == |Concat(chunks)|
  {
    ConcatAppend(chunks, [body]);
    assert Concat([body]) == body + Concat([]) == body;
    assert f.content[..offset + |body|] == f.content[..offset] + body;
  }

  lemma ReadToEnd(f: OutgoingFile, chunks: seq<Bytes>)
    requires ReadSoFar(f, chunks, |f.content|)
    ensures ReadsOf(f, chunks) && |Concat(chunks)| == |f.content|
  {
    assert f.content[..|f.content|] == f.content;
  }

  ghost predicate ReadFails(f: OutgoingFile, piece: nat -> nat) {
    exists offset: nat :: offset < |f.content| && piece(offset) == 0
  }

  ghost predicate AnyReadFails(files: seq<OutgoingFile>, pieces: nat -> nat -> nat) {
    exists k: nat :: k < |files| && ReadFails(files[k], pieces(k))
  }

  // ---------------------------------------------------------------- the sender

  class QuickShareSender {
    const env: SenderEnv
    const draws: (nat, nat) -> u64
    var files: seq<OutgoingFile>
    var incoming: seq<Bytes>
    var clientFinish: Bytes
    var stage: Stage
    var clientInit: Bytes
    var pin: string
    var sendKeys: Direction
    var receiveKeys: Direction
    var sendSequence: nat
    var receiveSequence: nat
    var drawn: nat
    var controls: map<u64, Bytes>
    var safeDisconnect: bool
    var link: nat
    var outbox: seq<Bytes>

    ghost function View(): Sender
      reads this
    {
      Sender(stage, clientInit, pin, sendKeys, receiveKeys, sendSequence, receiveSequence, drawn, controls,
             safeDisconnect, link, outbox)
    }

    /** The identifiers in `env.files` are the ones `draws` yields. */
    ghost predicate Valid() {
      && Lawful(env.p) && GoodSenderEnv(env)
      && env.files == WithIds(env.files, draws) && ListSize(env.files) < TWO31 - 4000
      && forall f :: f in env.files ==> NameFits(f)
    }

    constructor (env: SenderEnv, draws: (nat, nat) -> u64, incoming: seq<Bytes>, link: nat)
      ensures this.env == env && this.draws == draws && View() == FreshSender(link) && Unnumbered()
      ensures this.incoming == incoming
    {
      this.env, this.draws, this.incoming, clientFinish := env, draws, incoming, [];
      files := seq(|env.files|, i requires 0 <= i < |env.files| => env.files[i].(id := 0));
      stage, clientInit, pin, sendKeys, receiveKeys := Start, [], "", Direction([], []), Direction([], []);
      sendSequence, receiveSequence, drawn, controls, safeDisconnect, this.link, outbox :=
        0, 0, 0, map[], false, link, [];
    }

    /** The files are numbered from the introduction on, and ClientFinish is there as long as it is needed. */
    ghost predicate Underway()
      reads this
    {
      && stage != Start && (stage == AwaitServerInit ==> clientFinish == ClientFinish(env))
      && (if stage == AwaitDecision || stage == Sending then files == env.files && !AnyCollision(draws, |env.files|)
          else Unnumbered())
    }

    ghost predicate Unnumbered()
      reads this
    {
      |files| == |env.files| && forall i :: 0 <= i < |files| ==> files[i] == env.files[i].(id := 0)
    }

    // -------------------------------------------------------------- sending

    method SendFrame(frame: Bytes) returns (ok: bool)
      modifies this`link, this`outbox
      ensures Sent(View(), ok) == S.SendFrame(old(View()), frame)
    {
      if link == 0 {
        return false;
      }
      link := link - 1;
      outbox := outbox + [frame];
      return true;
    }

    method SendEncryptedOffline(offline: Bytes) returns (ok: bool)
      requires Valid() && |offline| < TWO31 - 1000
      modifies this`sendSequence, this`link, this`outbox
      ensures Sent(View(), ok) == SendOffline(env, old(View()), offline)
    {
      hide Seal, Plain, ListSize;
      sendSequence := sendSequence + 1;
      var iv := env.ivs(sendSequence);
      if AesEncrypt(env.p, Plain(offline, sendSequence), sendKeys.cipherKey, iv) == [] {
        return false;
      }
      var secure := SealOffline(env.p, sendKeys, iv, sendSequence, offline);
      ok := this.SendFrame(secure);
    }

    method SendSharingFrame(sharing: Bytes) returns (ok: bool)
      requires Valid() && |sharing| < TWO31 - 2000
      modifies this`sendSequence, this`drawn, this`link, this`outbox
      ensures Sent(View(), ok) == SendSharing(env, old(View()), sharing)
    {
      hide DataFrame, LastFrame, SendOffline, Lawful, GoodSenderEnv, ListSize;
      var id := Negative(env.ids(drawn));
      drawn := drawn + 1;
      var first, last := MakeSharingFrames(id, sharing);
      ok := SendEncryptedOffline(first);
      if ok {
        ok := SendEncryptedOffline(last);
      }
    }

    method SendPairedKeyEncryption() returns (ok: bool)
      requires Valid()
      modifies this`sendSequence, this`drawn, this`link, this`outbox
      ensures Sent(View(), ok) == SendSharing(env, old(View()), PairedKeyEncryption(env))
    {
      hide SendSharing, Encode, Versioned, Lawful, ListSize;
      var paired := new Message();
      AppendBytes(paired, 1, env.pairedData);
      AppendBytes(paired, 2, env.pairedHash);
      assert paired.fields == [B(1, env.pairedData), B(2, env.pairedHash)];
      SmallSize(paired.fields);
      var frame := MakeVersioned(3, 4, paired.bytes);
      ok := SendSharingFrame(frame);
    }

    method SendPairedKeyResult() returns (ok: bool)
      requires Valid()
      modifies this`sendSequence, this`drawn, this`link, this`outbox
      ensures Sent(View(), ok) == SendSharing(env, old(View()), PairedKeyResult())
    {
      hide SendSharing, Encode, Versioned, Lawful, ListSize;
      var result := new Message();
      AppendVarint(result, 1, 3);
      assert result.fields == [V(1, 3)];
      SmallSize(result.fields);
      var frame := MakeVersioned(4, 5, result.bytes);
      ok := SendSharingFrame(frame);
    }

    method SendKeepAliveAck() returns (ok: bool)
      requires Valid()
      modifies this`sendSequence, this`link, this`outbox
      ensures Sent(View(), ok) == SendOffline(env, old(View()), KeepAliveAck())
    {
      hide SendOffline, Encode, Versioned, Lawful, GoodSenderEnv, ListSize;
      var keepAlive := new Message();
      AppendVarint(keepAlive, 1, 1);
      assert keepAlive.fields == [V(1, 1)];
      SmallSize(keepAlive.fields);
      var frame := MakeVersioned(5, 6, keepAlive.bytes);
      ok := SendEncryptedOffline(frame);
    }

    method SendDisconnection() returns (ok: bool)
      requires Valid()
      modifies this`sendSequence, this`link, this`outbox
      ensures Sent(View(), ok) == SendOffline(env, old(View()), Goodbye(old(View())))
    {
      hide SendOffline, Encode, Versioned, Lawful, GoodSenderEnv, ListSize;
      var disconnection := new Message();
      if safeDisconnect {
        AppendVarint(disconnection, 1, 1);
      }
      ghost var fields := if safeDisconnect then [V(1, 1)] else [];
      assert disconnection.fields == fields;
      EncodeSize(fields);
      assert |disconnection.bytes| <= 20 + Payload(fields) <= 40;
      var frame := MakeVersioned(6, 7, disconnection.bytes);
      ok := SendEncryptedOffline(frame);
    }

    // -------------------------------------------------------------- the handshake

    method Open() returns (ok: bool)
      requires Valid()
      modifies this
      ensures Sent(View(), ok) == Begin(env, old(View())) && files == old(files) && incoming == old(incoming)
      ensures ok && old(Unnumbered()) ==> Underway()
    {
      hide ConnectionRequest, S.ClientInit, ClientFinish, CipherLaws, ListSize;
      var request := MakeConnectionRequest(env);
      ok := this.SendFrame(request);
      if !ok {
        return;
      }
      clientFinish := MakeClientFinish(env);
      clientInit := MakeClientInit(env, clientFinish);
      stage := AwaitServerInit;
      ok := this.SendFrame(clientInit);
    }

    static method ReadServerInit(frame: Bytes) returns (r: Option<Point>)
      ensures r == ParseServerInit(frame)
    {
      hide GetVarint, GetBytes, ParsePublic;
      var kind := FindVarint(frame, 1);
      var data := FindBytes(frame, 2);
      if kind != Some(3) || data == None {
        return None;
      }
      var version := FindVarint(data.value, 1);
      var cipher := FindVarint(data.value, 3);
      var genericPublic := FindBytes(data.value, 4);
      if version != Some(1) || cipher != Some(100) || genericPublic == None {
        return None;
      }
      r := ReadPublic(genericPublic.value);
    }

    method ProcessServerInit(frame: Bytes) returns (ok: bool)
      requires Valid() && clientFinish == ClientFinish(env)
      modifies this
      ensures Sent(View(), ok) == TakeServerInit(env, old(View()), frame)
      ensures stage == old(stage) || stage == AwaitConnectionResponse
      ensures files == old(files) && incoming == old(incoming) && clientFinish == old(clientFinish)
    {
      hide ParseServerInit, Derive, CipherLaws, CurveLaws, ListSize, S.ConnectionResponse, ClientFinish;
      var peer := ReadServerInit(frame);
      if peer == None || !env.p.onCurve(peer.value) {
        return false;
      }
      var shared := env.p.ecdh(env.secret, peer.value);
      if shared == [] {
        return false;
      }
      var derived := ComputeAgreement(env.p, shared, clientInit + frame);
      pin, sendKeys, receiveKeys, stage := derived.pin, derived.client, derived.server, AwaitConnectionResponse;
      ok := this.SendFrame(clientFinish);
      if ok {
        var response := MakeConnectionResponse();
        ok := this.SendFrame(response);
      }
    }

    static method ReadConnectionResponse(frame: Bytes) returns (r: Option<Verdict>)
      ensures r == ParseConnectionResponse(frame)
    {
      hide GetVarint, GetBytes;
      var version := FindVarint(frame, 1);
      var v1 := FindBytes(frame, 2);
      if version != Some(1) || v1 == None {
        return None;
      }
      var kind := FindVarint(v1.value, 1);
      var response := FindBytes(v1.value, 3);
      if kind != Some(2) || response == None {
        return None;
      }
      var decision := FindVarint(response.value, 3);
      var legacyStatus := FindVarint(response.value, 1);
      var safe := FindVarint(response.value, 7);
      var refused := (decision == None && legacyStatus == None)
                     || (if decision.Some? then decision.value != 1 else legacyStatus.value != 0);
      return Some(Verdict(!refused, safe.Some? && safe.value >= 1));
    }

    method ProcessConnectionResponse(frame: Bytes) returns (ok: bool)
      requires Valid()
      modifies this
      ensures Sent(View(), ok) == TakeConnectionResponse(env, old(View()), frame)
      ensures stage == old(stage) || stage == AwaitPairedKey
      ensures files == old(files) && incoming == old(incoming) && clientFinish == old(clientFinish)
    {
      hide ParseConnectionResponse, SendSharing, PairedKeyEncryption, Lawful, GoodSenderEnv, ListSize;
      var verdict := ReadConnectionResponse(frame);
      if verdict == None {
        return false;
      }
      safeDisconnect, stage := verdict.value.safeDisconnect, AwaitPairedKey;
      if !verdict.value.accepted {
        return false;
      }
      ok := SendPairedKeyEncryption();
    }

    // -------------------------------------------------------------- the introduction

    /** The redraw loop, cut off after `attempts` turns. The flag is never cleared, so that a first draw
        that collides keeps the loop going whatever is drawn next. */
    method PickPayloadId(k: nat, attempts: nat) returns (id: u64, found: bool)
      requires k < |files| && attempts > 0
      requires forall i: nat :: i < k ==> files[i].id == FirstDraw(draws, i)
      ensures found <==> !Collides(draws, k)
      ensures found ==> id == FirstDraw(draws, k)
    {
      var duplicate, tries := false, 0;
      while true
        invariant tries == 0 ==> !duplicate
        invariant tries > 0 ==> duplicate && Collides(draws, k) && tries < attempts
        decreases attempts - tries
      {
        id := if k == 0 then Negative(draws(k, tries)) else draws(k, tries);
        var i := 0;
        while i < k && !duplicate
          invariant i <= k && (duplicate <==> tries > 0 || exists j: nat :: j < i && files[j].id == id)
        {
          duplicate := files[i].id == id;
          i := i + 1;
        }
        tries := tries + 1;
        if !duplicate {
          return id, true;
        }
        if tries == attempts {
          return id, false;
        }
      }
    }

    method SendIntroduction(attempts: nat) returns (ok: bool, hung: bool)
      requires Valid() && Unnumbered() && attempts > 0
      modifies this`files, this`sendSequence, this`drawn, this`link, this`outbox
      ensures hung <==> AnyCollision(draws, |env.files|)
      ensures !hung ==> files == env.files && Sent(View(), ok) == SendSharing(env, old(View()), Introduction(env.files))
    {
      hide SendSharing, Encode, Versioned, Metadata, Lawful, GoodSenderEnv, ListSize, Collides, FirstDraw;
      var introduction := new Message();
      ghost var before := View();
      var n := |files|;
      for k := 0 to n
        invariant |files| == n && View() == before && introduction.Valid()
        invariant forall i :: 0 <= i < k ==> files[i] == env.files[i]
        invariant forall i :: k <= i < n ==> files[i] == env.files[i].(id := 0)
        invariant introduction.fields == MetadataFields(env.files[..k])
        invariant forall i: nat :: i < k ==> !Collides(draws, i)
        invariant fresh(introduction)
      {
        NumberAt(k);
        forall i: nat | i < k
          ensures files[i].id == FirstDraw(draws, i)
        {
          NumberAt(i);
        }
        var id, found := PickPayloadId(k, attempts);
        if !found {
          return false, true;
        }
        files := files[k := files[k].(id := id)];
        var metadata := MakeMetadata(files[k]);
        AppendBytes(introduction, 1, metadata);
        assert env.files[..k + 1] == env.files[..k] + [env.files[k]];
        assert MetadataFields(env.files[..k + 1]) == MetadataFields(env.files[..k]) + [B(1, metadata)];
      }
      assert files == env.files && env.files[..n] == env.files;
      IntroductionSize(env.files);
      AppendVarint(introduction, 8, 1);
      var frame := MakeVersioned(1, 2, introduction.bytes);
      ok := SendSharingFrame(frame);
      hung := false;
    }

    lemma NumberAt(k: nat)
      requires Valid() && k < |env.files|
      ensures env.files[k].id == FirstDraw(draws, k) && NameFits(env.files[k])
    {
      hide Lawful, GoodSenderEnv, ListSize;
      assert env.files[k] == WithIds(env.files, draws)[k];
      assert env.files[k] in env.files;
    }

    // -------------------------------------------------------------- receiving

    method DecryptFrame(secure: Bytes) returns (r: Option<Bytes>)
      modifies this`receiveSequence
      ensures r == SecureChannel.Open(env.p, old(receiveKeys), old(receiveSequence), secure)
      ensures View() == Counted(env, old(View()), secure)
    {
      hide GetVarint, GetBytes;
      r, receiveSequence := DecryptOffline(env.p, receiveKeys, receiveSequence, secure);
    }

    static method ReadControl(transfer: Bytes) returns (r: Option<ControlPacket>)
      ensures r == ParseControl(transfer)
    {
      hide GetVarint, GetBytes;
      var header := FindBytes(transfer, 2);
      var chunk := FindBytes(transfer, 3);
      var packetType := FindVarint(transfer, 1);
      if header == None || chunk == None || packetType != Some(1) {
        return None;
      }
      var id := FindVarint(header.value, 1);
      var size := FindVarint(header.value, 3);
      var flags := FindVarint(chunk.value, 1);
      var offset := FindVarint(chunk.value, 2);
      if id == None || size == None || flags == None || offset == None {
        return None;
      }
      var body := FindBytes(chunk.value, 3);
      return Some(ControlPacket(id.value, size.value, flags.value, offset.value,
                                if body.Some? then body.value else []));
    }

    /** The reassembly of control payloads: -1 for a fault, 0 for an unfinished one, 1 for a complete one. */
    method TakeControlChunk(c: ControlPacket) returns (result: int, sharing: Bytes)
      modifies this`controls
      ensures Answer(result, sharing) == TakeControl(old(View()), c)
    {
      if c.total > MAX_CONTROL_PAYLOAD_SIZE || c.offset > c.total {
        return -1, [];
      }
      var buffer := if c.id in controls then controls[c.id] else [];
      if |buffer| != c.offset || |c.body| > c.total - c.offset {
        controls := controls - {c.id};
        return -1, [];
      }
      buffer := buffer + c.body;
      controls := controls[c.id := buffer];
      if c.flags % 2 != 1 {
        return 0, [];
      }
      controls := controls - {c.id};
      if |buffer| != c.total {
        return -1, [];
      }
      return 1, buffer;
    }

    ghost function Answer(result: int, sharing: Bytes): Received
      reads this
    {
      if result < 0 then Failed(View()) else if result == 0 then Nothing(View()) else Got(View(), sharing)
    }

    method ProcessReceivedOffline(offline: Bytes) returns (result: int, sharing: Bytes)
      requires Valid()
      modifies this`controls, this`sendSequence, this`link, this`outbox
      ensures Answer(result, sharing) == TakeOffline(env, old(View()), offline)
    {
      hide GetVarint, GetBytes, SendOffline, KeepAliveAck, Lawful, GoodSenderEnv, ListSize, ParseControl, TakeControl;
      var v1 := FindBytes(offline, 2);
      if v1 == None {
        return -1, [];
      }
      var kind := FindVarint(v1.value, 1);
      if kind == None {
        return -1, [];
      }
      if kind.value == 5 {
        var ok := SendKeepAliveAck();
        return if ok then 0 else -1, [];
      }
      if kind.value != 3 {
        return -1, [];
      }
      var transfer := FindBytes(v1.value, 4);
      if transfer == None {
        return -1, [];
      }
      var control := ReadControl(transfer.value);
      if control == None {
        return -1, [];
      }
      result, sharing := TakeControlChunk(control.value);
    }

    method ReceiveSecure(secure: Bytes) returns (result: int, sharing: Bytes)
      requires Valid()
      modifies this`receiveSequence, this`controls, this`sendSequence, this`link, this`outbox
      ensures Answer(result, sharing) == TakeSecure(env, old(View()), secure)
    {
      hide SecureChannel.Open, Counted, S.TakeOffline, Lawful, GoodSenderEnv, ListSize;
      var offline := DecryptFrame(secure);
      if offline == None {
        return -1, [];
      }
      result, sharing := ProcessReceivedOffline(offline.value);
    }

    method ProcessIntroductionResponse(frame: Bytes) returns (ok: bool)
      ensures ok == DecisionAccepted(frame)
    {
      hide GetVarint, GetBytes;
      var v1 := FindBytes(frame, 2);
      if v1 == None {
        return false;
      }
      var kind := FindVarint(v1.value, 1);
      var response := FindBytes(v1.value, 3);
      if kind != Some(2) || response == None {
        return false;
      }
      var decision := FindVarint(response.value, 1);
      return decision == Some(1);
    }

    /** What run() does with the next frame. The files stay as they are until the introduction, which
        numbers them; it never comes back when the identifiers collide. */
    method React(frame: Bytes, attempts: nat) returns (ok: bool, hung: bool)
      requires Valid() && Underway() && attempts > 0
      modifies this
      ensures hung <==> Introduces(env, old(View()), frame) && AnyCollision(draws, |env.files|)
      ensures !hung ==> Sent(View(), ok) == TakeFrame(env, old(View()), frame) && Underway()
      ensures incoming == old(incoming)
      ensures !Introduces(env, old(View()), frame) ==> files == old(files)
    {
      hide TakeServerInit, TakeConnectionResponse, TakeSecure, TakeSharing, Lawful, GoodSenderEnv, ListSize,
           ClientFinish, AnyCollision;
      hung := false;
      if |frame| == 0 || |frame| > MAX_FRAME_SIZE {
        return false, false;
      }
      if stage == AwaitServerInit {
        ok := ProcessServerInit(frame);
        return;
      }
      if stage == AwaitConnectionResponse {
        ok := ProcessConnectionResponse(frame);
        return;
      }
      var result, sharing := ReceiveSecure(frame);
      if result <= 0 {
        return result == 0, false;
      }
      ok, hung := ReactToSharing(sharing, attempts);
    }

    method ReactToSharing(sharing: Bytes, attempts: nat) returns (ok: bool, hung: bool)
      requires Valid() && Underway() && attempts > 0 && stage != AwaitServerInit && stage != AwaitConnectionResponse
      modifies this`files, this`stage, this`sendSequence, this`drawn, this`link, this`outbox
      ensures hung <==> old(stage) == AwaitPairedResult && AnyCollision(draws, |env.files|)
      ensures !hung ==> Sent(View(), ok) == TakeSharing(env, old(View()), sharing) && Underway()
      ensures old(stage) != AwaitPairedResult ==> files == old(files)
    {
      hide SendSharing, DecisionAccepted, Introduction, PairedKeyResult, Lawful, GoodSenderEnv, ListSize, ClientFinish,
           AnyCollision;
      hung := false;
      if stage == AwaitPairedKey {
        stage := AwaitPairedResult;
        ok := SendPairedKeyResult();
      } else if stage == AwaitPairedResult {
        stage := AwaitDecision;
        ok, hung := SendIntroduction(attempts);
      } else {
        ok := ProcessIntroductionResponse(sharing);
        if ok {
          stage := Sending;
        }
      }
    }

    // -------------------------------------------------------------- the files

    /** Takes the frames that have arrived by now, however many of `incoming` those are. */
    method CheckPeerControl() returns (ok: bool, ghost taken: nat)
      requires Valid()
      modifies this`incoming, this`receiveSequence, this`controls, this`sendSequence, this`link, this`outbox
      ensures taken <= |old(incoming)| && incoming == old(incoming)[taken..]
      ensures Sent(View(), ok) == Poll(env, old(View()), old(incoming)[..taken])
    {
      hide TakeSecure, Lawful, GoodSenderEnv, ListSize, Cancels, Poll;
      taken := 0;
      ghost var before, all := View(), incoming;
      NoPoll(before);
      while true
        invariant taken <= |all| && incoming == all[taken..]
        invariant Poll(env, before, all[..taken]) == Sent(View(), true)
        decreases |incoming|
      {
        var ready :| ready ==> incoming != [];
        if !ready {
          return true, taken;
        }
        var secure := incoming[0];
        ghost var s := View();
        incoming := incoming[1..];
        assert all[..taken + 1] == all[..taken] + [secure];
        PollSnoc(before, all[..taken], secure);
        taken := taken + 1;
        OnePoll(s, secure);
        if |secure| == 0 || |secure| > MAX_FRAME_SIZE {
          return false, taken;
        }
        var result, sharing := ReceiveSecure(secure);
        if result < 0 {
          return false, taken;
        }
        if result > 0 {
          var cancelled := ReadsAsCancel(sharing);
          if cancelled {
            return false, taken;
          }
        }
      }
    }

    lemma NoPoll(s: Sender)
      ensures Poll(env, s, []) == Sent(s, true)
    {
    }

    lemma OnePoll(s: Sender, frame: Bytes)
      ensures Poll(env, s, [frame]) ==
        if !Acceptable(frame) then Sent(s, false)
        else match TakeSecure(env, s, frame)
             case Failed(s1) => Sent(s1, false)
             case Nothing(s1) => Sent(s1, true)
             case Got(s1, sharing) => Sent(s1, !Cancels(sharing))
    {
      hide TakeSecure, Cancels;
    }

    lemma {:induction false} PollSnoc(s: Sender, frames: seq<Bytes>, frame: Bytes)
      requires Poll(env, s, frames).ok
      ensures Poll(env, s, frames + [frame]) == Poll(env, Poll(env, s, frames).sender, [frame])
      decreases |frames|
    {
      hide TakeSecure, Cancels;
      if frames == [] {
        assert frames + [frame] == [frame];
      } else {
        assert (frames + [frame])[1..] == frames[1..] + [frame];
        match TakeSecure(env, s, frames[0])
        case Failed(s1) =>
        case Nothing(s1) => PollSnoc(s1, frames[1..], frame);
        case Got(s1, sharing) => PollSnoc(s1, frames[1..], frame);
      }
    }

    static method ReadsAsCancel(sharing: Bytes) returns (r: bool)
      ensures r == Cancels(sharing)
    {
      hide GetVarint, GetBytes;
      var v1 := FindBytes(sharing, 2);
      if v1 == None {
        return true;
      }
      var kind := FindVarint(v1.value, 1);
      return kind == None || kind == Some(6);
    }

    /** QFile::read at this offset: `piece` says how much it returns, up to what is left and what is asked for. */
    static method ReadFile(content: Bytes, offset: nat, piece: nat -> nat) returns (body: Bytes)
      requires offset < |content|
      ensures body <= content[offset..] && |body| <= CHUNK_SIZE && (body == [] <==> piece(offset) == 0)
    {
      var n := piece(offset);
      n := if n > CHUNK_SIZE then CHUNK_SIZE else n;
      n := if n > |content| - offset then |content| - offset else n;
      body := content[offset..offset + n];
    }

    method SendChunk(f: OutgoingFile, last: bool, offset: nat, body: Bytes) returns (ok: bool)
      requires Valid() && NameFits(f) && |body| <= CHUNK_SIZE && (last ==> body == [])
      modifies this`sendSequence, this`link, this`outbox
      ensures Sent(View(), ok) == SendOffline(env, old(View()), FileFrame(f, last, offset, body))
    {
      hide SendOffline, PayloadHeader, DataChunk, LastChunk, Versioned, Frames.Transfer, Lawful, GoodSenderEnv,
           ListSize;
      var header := MakePayloadHeader(f.id, FILE_PAYLOAD, |f.content|, Some(f.name));
      var chunk: Bytes;
      if last {
        chunk := MakeLastChunk(offset % TWO64);
      } else {
        chunk := MakeDataChunk(offset % TWO64, body);
      }
      var frame := MakeTransfer(header, chunk);
      ok := SendEncryptedOffline(frame);
    }

    /** What has been done since `before`, when `all` was still to be taken, and whether it worked. */
    ghost predicate Did(before: Sender, all: seq<Bytes>, actions: seq<Action>, ok: bool)
      reads this
    {
      Act(env, before, actions) == Sent(View(), ok) && all == Heard(actions) + incoming
    }

    method Hear(ghost before: Sender, ghost all: seq<Bytes>, ghost done: seq<Action>)
      returns (ok: bool, ghost actions: seq<Action>)
      requires Valid() && Did(before, all, done, true)
      modifies this`incoming, this`receiveSequence, this`controls, this`sendSequence, this`link, this`outbox
      ensures Did(before, all, actions, ok) && Said(actions) == Said(done)
    {
      hide Lawful, GoodSenderEnv, ListSize, Act, Said, Heard, Poll;
      ghost var s, waiting, taken := View(), incoming, 0;
      ok, taken := CheckPeerControl();
      ghost var heard := Hears(waiting[..taken]);
      actions := done + [heard];
      OneAction(s, heard);
      assert waiting == waiting[..taken] + incoming;
      GoesOn(before, s, View(), all, waiting, incoming, done, [heard]);
    }

    method Say(f: OutgoingFile, last: bool, offset: nat, body: Bytes,
               ghost before: Sender, ghost all: seq<Bytes>, ghost done: seq<Action>)
      returns (ok: bool, ghost actions: seq<Action>)
      requires Valid() && NameFits(f) && |body| <= CHUNK_SIZE && (last ==> body == [])
      requires Did(before, all, done, true)
      modifies this`sendSequence, this`link, this`outbox
      ensures Did(before, all, actions, ok) && Said(actions) == Said(done) + [FileFrame(f, last, offset, body)]
    {
      hide Lawful, GoodSenderEnv, ListSize, Act, Said, Heard, SendOffline, FileFrame;
      ghost var s := View();
      ok := SendChunk(f, last, offset, body);
      ghost var says := Says(FileFrame(f, last, offset, body));
      actions := done + [says];
      OneAction(s, says);
      GoesOn(before, s, View(), all, incoming, incoming, done, [says]);
    }

    lemma OneAction(s: Sender, action: Action)
      ensures Act(env, s, [action]) == ActOnce(env, s, action)
      ensures Said([action]) == if action.Says? then [action.message] else []
      ensures Heard([action]) == if action.Hears? then action.frames else []
    {
      hide ActOnce;
      assert [action][1..] == [];
      assert Said([]) == [] && Heard([]) == [];
    }

    /** Actions that went well, and more of them. */
    lemma GoesOn(before: Sender, middle: Sender, end: Sender, all: seq<Bytes>, waiting: seq<Bytes>, left: seq<Bytes>,
                 done: seq<Action>, more: seq<Action>)
      requires Act(env, before, done) == Sent(middle, true) && all == Heard(done) + waiting
      requires Act(env, middle, more).sender == end && waiting == Heard(more) + left
      ensures Act(env, before, done + more) == Act(env, middle, more)
      ensures all == Heard(done + more) + left && Said(done + more) == Said(done) + Said(more)
    {
      hide Act, Said, Heard;
      ActAppend(env, before, done, more);
    }

    /** Whatever the reads return and whatever arrives meanwhile, the frames sent are the chunk frames of
        reads that together are the file; and it fails only if one of its actions does or a read returns nothing. */
    method SendFilePayload(f: OutgoingFile, piece: nat -> nat)
      returns (ok: bool, ghost chunks: seq<Bytes>, ghost actions: seq<Action>)
      requires Valid() && NameFits(f)
      modifies this`incoming, this`receiveSequence, this`controls, this`sendSequence, this`link, this`outbox
      ensures Act(env, old(View()), actions).sender == View() && old(incoming) == Heard(actions) + incoming
      ensures ok ==> Act(env, old(View()), actions).ok
      ensures ok ==> ReadsOf(f, chunks) && Said(actions) == ChunkFrames(f, 0, chunks)
      ensures !ok ==> !Act(env, old(View()), actions).ok || ReadFails(f, piece)
    {
      hide SendOffline, FileFrame, Lawful, GoodSenderEnv, ListSize, Act, Said, Heard, DataFrames, ChunkFrames,
           ReadSoFar, ReadsOf, Concat;
      chunks, actions := [], [];
      var offset := 0;
      ghost var before, all := View(), incoming;
      NothingDone(before, f);
      while offset != |f.content|
        invariant offset <= |f.content| && ReadSoFar(f, chunks, offset)
        invariant Did(before, all, actions, true) && Said(actions) == DataFrames(f, 0, chunks)
        decreases |f.content| - offset
      {
        var body: Bytes;
        ok, body, actions := SendNextChunk(f, piece, offset, before, all, actions);
        if !ok {
          return;
        }
        MoreFrames(f, 0, chunks, body);
        Grown(f, offset, chunks, body);
        chunks := chunks + [body];
        offset := offset + |body|;
      }
      ReadToEnd(f, chunks);
      LastOfFrames(f, 0, chunks);
      ok, actions := SendLastChunk(f, before, all, actions);
    }

    method SendLastChunk(f: OutgoingFile, ghost before: Sender, ghost all: seq<Bytes>, ghost done: seq<Action>)
      returns (ok: bool, ghost actions: seq<Action>)
      requires Valid() && NameFits(f) && Did(before, all, done, true)
      modifies this`incoming, this`receiveSequence, this`controls, this`sendSequence, this`link, this`outbox
      ensures Did(before, all, actions, ok) && Said(actions) == Said(done) + [FileFrame(f, true, |f.content|, [])]
    {
      hide SendOffline, FileFrame, Lawful, GoodSenderEnv, ListSize, Act, Said, Heard;
      ok, actions := Say(f, true, |f.content|, [], before, all, done);
      if ok {
        ok, actions := Hear(before, all, actions);
      }
    }

    method SendNextChunk(f: OutgoingFile, piece: nat -> nat, offset: nat, ghost before: Sender, ghost all: seq<Bytes>,
                         ghost done: seq<Action>) returns (ok: bool, body: Bytes, ghost actions: seq<Action>)
      requires Valid() && NameFits(f) && offset < |f.content| && Did(before, all, done, true)
      modifies this`incoming, this`receiveSequence, this`controls, this`sendSequence, this`link, this`outbox
      ensures body <= f.content[offset..] && |body| <= CHUNK_SIZE
      ensures Act(env, before, actions).sender == View() && all == Heard(actions) + incoming
      ensures ok ==> body != [] && Did(before, all, actions, true)
      ensures ok ==> Said(actions) == Said(done) + [FileFrame(f, false, offset, body)]
      ensures !ok ==> !Act(env, before, actions).ok || piece(offset) == 0
    {
      hide SendOffline, FileFrame, Lawful, GoodSenderEnv, ListSize, Act, Said, Heard;
      body := [];
      ok, actions := Hear(before, all, done);
      if !ok {
        return;
      }
      body := ReadFile(f.content, offset, piece);
      if body == [] {
        return false, body, actions;
      }
      ok, actions := Say(f, false, offset, body, before, all, actions);
      if ok {
        ok, actions := Hear(before, all, actions);
      }
    }

    lemma NothingDone(s: Sender, f: OutgoingFile)
      ensures Act(env, s, []) == Sent(s, true) && Said([]) == [] && Heard([]) == [] && DataFrames(f, 0, []) == []
      ensures ReadSoFar(f, [], 0)
    {
    }

    /** Every file in turn, then the goodbye. */
    method SendFiles(pieces: nat -> nat -> nat)
      returns (ok: bool, ghost cuts: seq<seq<Bytes>>, ghost actions: seq<Action>)
      requires Valid() && files == env.files
      modifies this`incoming, this`receiveSequence, this`controls, this`sendSequence, this`link, this`outbox
      ensures Act(env, old(View()), actions).sender == View() && old(incoming) == Heard(actions) + incoming
      ensures ok ==> Act(env, old(View()), actions).ok && AllSaid(files, cuts, old(View()), actions)
      ensures !ok ==> !Act(env, old(View()), actions).ok || AnyReadFails(files, pieces)
    {
      hide SendOffline, ChunkFrames, AllFrames, Act, Said, Heard, Lawful, GoodSenderEnv, ListSize, ReadsOf, Goodbye,
           ReadFails;
      NoFiles(View());
      cuts, actions := [], [];
      ghost var before, all := View(), incoming;
      for k := 0 to |files|
        invariant |cuts| == k && Did(before, all, actions, true)
        invariant forall i :: 0 <= i < k ==> ReadsOf(files[i], cuts[i])
        invariant Said(actions) == AllFrames(files[..k], cuts)
      {
        assert files[k] in env.files;
        ghost var s, waiting := View(), incoming;
        ghost var chunks, more;
        ok, chunks, more := SendFilePayload(files[k], pieces(k));
        GoesOn(before, s, View(), all, waiting, incoming, actions, more);
        OneMoreFile(files[..k], cuts, files[k], chunks);
        assert files[..k + 1] == files[..k] + [files[k]];
        actions, cuts := actions + more, cuts + [chunks];
        if !ok {
          return;
        }
      }
      assert files[..|files|] == files;
      ok, actions := SayGoodbye(before, all, actions);
    }

    method SayGoodbye(ghost before: Sender, ghost all: seq<Bytes>, ghost done: seq<Action>)
      returns (ok: bool, ghost actions: seq<Action>)
      requires Valid() && Did(before, all, done, true)
      modifies this`sendSequence, this`link, this`outbox
      ensures Did(before, all, actions, ok) && Said(actions) == Said(done) + [Goodbye(before)]
    {
      hide SendOffline, Act, Said, Heard, Lawful, GoodSenderEnv, ListSize, Goodbye;
      ghost var s := View();
      ActKeepsSafe(before, done);
      SameGoodbye(s, before);
      ghost var goodbye := Says(Goodbye(s));
      OneAction(s, goodbye);
      ok := SendDisconnection();
      GoesOn(before, s, View(), all, incoming, incoming, done, [goodbye]);
      actions := done + [goodbye];
    }

    lemma NoFiles(s: Sender)
      ensures Act(env, s, []) == Sent(s, true) && Said([]) == [] && Heard([]) == [] && AllFrames([], []) == []
    {
    }

    lemma SameGoodbye(s: Sender, t: Sender)
      requires s.safeDisconnect == t.safeDisconnect
      ensures Goodbye(s) == Goodbye(t)
    {
    }

    lemma {:induction false} PollKeepsSafe(s: Sender, frames: seq<Bytes>)
      ensures Poll(env, s, frames).sender.safeDisconnect == s.safeDisconnect
      decreases |frames|
    {
      hide SecureChannel.Open, Verified, Decrypted, ParseOffline, ParseControl, Seal, AesEncrypt, Plain, Cancels,
           KeepAliveAck;
      if frames != [] {
        match TakeSecure(env, s, frames[0])
        case Failed(_) =>
        case Nothing(s1) => PollKeepsSafe(s1, frames[1..]);
        case Got(s1, _) => PollKeepsSafe(s1, frames[1..]);
      }
    }

    lemma {:induction false} ActKeepsSafe(s: Sender, actions: seq<Action>)
      ensures Act(env, s, actions).sender.safeDisconnect == s.safeDisconnect
      decreases |actions|
    {
      hide Seal, AesEncrypt, Plain, Poll;
      if actions != [] {
        if actions[0].Hears? {
          PollKeepsSafe(s, actions[0].frames);
        }
        ActKeepsSafe(ActOnce(env, s, actions[0]).sender, actions[1..]);
      }
    }

    static lemma {:induction false} OneMoreFile(done: seq<OutgoingFile>, cuts: seq<seq<Bytes>>, f: OutgoingFile,
                                                chunks: seq<Bytes>)
      requires |cuts| == |done|
      ensures AllFrames(done + [f], cuts + [chunks]) == AllFrames(done, cuts) + ChunkFrames(f, 0, chunks)
      decreases |done|
    {
      hide ChunkFrames;
      if done == [] {
        assert done + [f] == [f] && cuts + [chunks] == [chunks];
        assert AllFrames([], []) == [];
      } else {
        OneMoreFile(done[1..], cuts[1..], f, chunks);
        assert (done + [f])[1..] == done[1..] + [f];
        assert (cuts + [chunks])[1..] == cuts[1..] + [chunks];
      }
    }

    // -------------------------------------------------------------- the run

    /** run(): opens, takes one frame after the other until it may send, and sends the files. It comes to
        nothing exactly as `Begin`, `Talk` and `Act` say, or hangs at the introduction on a collision. */
    method Run(attempts: nat, pieces: nat -> nat -> nat)
      returns (ok: bool, hung: bool, ghost cuts: seq<seq<Bytes>>, ghost actions: seq<Action>)
      requires Valid() && stage == Start && Unnumbered() && attempts > 0
      modifies this
      ensures hung ==> AnyCollision(draws, |env.files|)
      ensures !hung ==>
        var begun := Begin(env, old(View()));
        if !begun.ok then !ok && View() == begun.sender
        else
          var talked := Talk(env, begun.sender, old(incoming));
          if !talked.ok then !ok && View() == talked.sender && incoming == old(incoming)[talked.taken..]
          else
            && files == env.files && !AnyCollision(draws, |env.files|)
            && Act(env, talked.sender, actions).sender == View()
            && old(incoming)[talked.taken..] == Heard(actions) + incoming
            && (ok ==> Act(env, talked.sender, actions).ok && AllSaid(env.files, cuts, talked.sender, actions))
            && (!ok ==> !Act(env, talked.sender, actions).ok || AnyReadFails(env.files, pieces))
    {
      hide Begin, TakeFrame, Act, Said, Heard, AllSaid, Lawful, GoodSenderEnv, ListSize, AnyCollision, Introduces,
           ClientFinish;
      cuts, actions, hung := [], [], false;
      ok := Open();
      if !ok {
        return;
      }
      ghost var start, all, taken := View(), incoming, 0;
      while stage != Sending
        invariant !hung && Valid() && Underway() && taken <= |all| && incoming == all[taken..]
        invariant Talk(env, start, all) ==
          var rest := Talk(env, View(), incoming); rest.(taken := rest.taken + taken)
        decreases |incoming|
      {
        if incoming == [] {
          return false, false, cuts, actions;
        }
        var frame := incoming[0];
        incoming := incoming[1..];
        taken := taken + 1;
        ok, hung := React(frame, attempts);
        if hung || !ok {
          return;
        }
      }
      ghost var s := View();
      assert Talk(env, start, all) == Talked(s, true, taken);
      ok, cuts, actions := SendFiles(pieces);
    }
  }

  /** Sealing one after the other is sealing the list: what SendFiles leaves in the outbox. */
  lemma {:induction false} ListSeals(e: SenderEnv, s: Sender, messages: seq<Bytes>)
    requires SendList(e, s, messages).ok
    ensures SendList(e, s, messages).sender == s.(
      sendSequence := s.sendSequence + |messages|, link := SendList(e, s, messages).sender.link,
      outbox := s.outbox + SealAll(e.p, s.sendKeys, e.ivs, s.sendSequence, messages))
    decreases |messages|
  {
    hide Seal, AesEncrypt, Plain;
    if messages == [] {
      assert s.outbox + [] == s.outbox;
    } else {
      var n := s.sendSequence + 1;
      var sealed := Seal(e.p, s.sendKeys, e.ivs(n), n, messages[0]);
      var next := SendOffline(e, s, messages[0]).sender;
      ListSeals(e, next, messages[1..]);
      var rest := SealAll(e.p, s.sendKeys, e.ivs, n, messages[1..]);
      assert s.outbox + [sealed] + rest == s.outbox + ([sealed] + rest);
    }
  }
}
