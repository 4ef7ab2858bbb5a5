/** QuickShareSession, with its fields updated in place; every method takes exactly the step that the
    functions of Receiver.dfy describe. */
module ReceiverSession {
  import opened ByteStrings
  import opened ProtoWire
  import opened Crypto
  import opened Framing
  import opened SecureChannel
  import opened KeyAgreement
  import opened Frames
  import opened FrameBuilders
  import opened Destination
  import opened Receiver
  import Keys

  /** UKEY2 ServerInit. */
  method MakeServerInit(e: Env) returns (r: Bytes)
    requires CurveLaws(e.p) && |e.nonce| == 32
    ensures r == ServerInit(e)
  {
    hide Encode, GenericPublic;
    var q := e.p.publicPoint(e.secret);
    assert OnGrid(q);
    var genericPublic := MakeGenericPublic(q);
    var serverInit := new Message();
    AppendVarint(serverInit, 1, 1);
    AppendBytes(serverInit, 2, e.nonce);
    AppendVarint(serverInit, 3, 100);
    AppendBytes(serverInit, 4, genericPublic);
    assert serverInit.fields == [V(1, 1), B(2, e.nonce), V(3, 100), B(4, genericPublic)];
    SmallSize(serverInit.fields);
    var message := new Message();
    AppendVarint(message, 1, 3);
    AppendBytes(message, 2, serverInit.bytes);
    assert message.fields == [V(1, 3), B(2, serverInit.bytes)];
    return message.bytes;
  }

  method MakeConnectionResponse() returns (r: Bytes)
    ensures r == ConnectionResponse()
  {
    hide Encode, Versioned;
    var osInfo := new Message();
    AppendVarint(osInfo, 1, 100);
    assert osInfo.fields == [V(1, 100)];
    SmallSize(osInfo.fields);
    var response := new Message();
    AppendVarint(response, 1, 0);
    AppendVarint(response, 3, 1);
    AppendBytes(response, 4, osInfo.bytes);
    assert response.fields == [V(1, 0), V(3, 1), B(4, osInfo.bytes)];
    SmallSize(response.fields);
    r := MakeVersioned(2, 3, response.bytes);
  }

  class QuickShareSession {
    const env: Env
    var state: State
    var stage: nat
    var clientInit: Bytes
    var serverInit: Bytes
    var commitment: Bytes
    var pin: string
    var receiveKeys: Direction
    var sendKeys: Direction
    var clientSequence: nat
    var serverSequence: nat
    var drawn: nat
    var files: map<int, IncomingFile>
    var buffers: map<int, Bytes>
    var buffered: int
    var total: nat
    var received: nat
    var reserved: set<Path>
    var disk: map<Path, Bytes>
    var space: nat
    var consent: int
    var link: nat
    var outbox: seq<Bytes>

    ghost function View(): Session
      reads this
    {
      Session(state, stage, clientInit, serverInit, commitment, pin, receiveKeys, sendKeys, clientSequence,
              serverSequence, drawn, files, buffers, buffered, total, received, reserved, disk, space, consent,
              link, outbox)
    }

    ghost predicate Valid() { Lawful(env.p) && GoodEnv(env) }

    constructor (env: Env, disk: map<Path, Bytes>, space: nat, link: nat, consent: int)
      ensures this.env == env && View() == Fresh(disk, space, link, consent)
    {
      this.env := env;
      state, stage, clientInit, serverInit, commitment, pin := PlainHandshake, 0, [], [], [], "";
      receiveKeys, sendKeys := Direction([], []), Direction([], []);
      clientSequence, serverSequence, drawn := 0, 0, 0;
      files, buffers, buffered, total, received, reserved := map[], map[], 0, 0, 0, {};
      this.disk, this.space, this.consent, this.link, outbox := disk, space, consent, link, [];
    }

    // -------------------------------------------------------------- sending

    method SendFrame(frame: Bytes) returns (ok: bool)
      modifies this
      ensures Result(View(), ok) == Receiver.SendFrame(old(View()), frame)
    {
      if link == 0 {
        return false;
      }
      link := link - 1;
      outbox := outbox + [frame];
      return true;
    }

    method SendEncryptedOffline(offline: Bytes) returns (ok: bool)
      requires Valid() && |offline| < TWO31 - 1000
      modifies this
      ensures Result(View(), ok) == SendOffline(env, old(View()), offline)
    {
      hide Seal, Plain;
      serverSequence := serverSequence + 1;
      var iv := env.ivs(serverSequence);
      if AesEncrypt(env.p, Plain(offline, serverSequence), sendKeys.cipherKey, iv) == [] {
        return false;
      }
      var secure := SealOffline(env.p, sendKeys, iv, serverSequence, offline);
      ok := this.SendFrame(secure);
    }

    method SendSharingFrame(sharing: Bytes) returns (ok: bool)
      requires Valid() && |sharing| < TWO31 - 2000
      modifies this
      ensures Result(View(), ok) == SendSharing(env, old(View()), sharing)
    {
      hide DataFrame, LastFrame, SendOffline, Lawful, GoodEnv;
      var id := env.ids(drawn);
      drawn := drawn + 1;
      var first, last := MakeSharingFrames(id, sharing);
      ok := SendEncryptedOffline(first);
      if ok {
        ok := SendEncryptedOffline(last);
      }
    }

    method SendPairedKeyEncryption() returns (ok: bool)
      requires Valid()
      modifies this
      ensures Result(View(), ok) ==
        SendSharing(env, old(View()), PairedKeyEncryption(env.pairedData, env.pairedHash))
    {
      hide SendSharing, Encode, Versioned, Lawful;
      var paired := new Message();
      AppendBytes(paired, 1, env.pairedData);
      AppendBytes(paired, 2, env.pairedHash);
      assert paired.fields == [B(1, env.pairedData), B(2, env.pairedHash)];
      SmallSize(paired.fields);
      var frame := MakeVersioned(3, 4, paired.bytes);
      ok := SendSharingFrame(frame);
    }

    method SendPairedKeyResult() returns (ok: bool)
      requires Valid()
      modifies this
      ensures Result(View(), ok) == SendSharing(env, old(View()), PairedKeyResult())
    {
      hide SendSharing, Encode, Versioned, Lawful, GoodEnv;
      var result := new Message();
      AppendVarint(result, 1, 3);
      assert result.fields == [V(1, 3)];
      SmallSize(result.fields);
      var frame := MakeVersioned(4, 5, result.bytes);
      ok := SendSharingFrame(frame);
    }

    method SendIntroductionResponse(accepted: bool) returns (ok: bool)
      requires Valid()
      modifies this
      ensures Result(View(), ok) == SendSharing(env, old(View()), IntroductionResponse(accepted))
    {
      hide SendSharing, Encode, Versioned, Lawful, GoodEnv;
      var response := new Message();
      AppendVarint(response, 1, if accepted then 1 else 2);
      assert response.fields == [V(1, if accepted then 1 else 2)];
      SmallSize(response.fields);
      var frame := MakeVersioned(2, 3, response.bytes);
      ok := SendSharingFrame(frame);
    }

    method SendKeepAliveAck() returns (ok: bool)
      requires Valid()
      modifies this
      ensures Result(View(), ok) == SendOffline(env, old(View()), KeepAliveAck())
    {
      hide SendOffline, Encode, Versioned, Lawful, GoodEnv;
      var keepAlive := new Message();
      AppendVarint(keepAlive, 1, 1);
      assert keepAlive.fields == [V(1, 1)];
      SmallSize(keepAlive.fields);
      var frame := MakeVersioned(5, 6, keepAlive.bytes);
      ok := SendEncryptedOffline(frame);
    }

    // -------------------------------------------------------------- the plain handshake

    method ProcessConnectionRequest(frame: Bytes) returns (ok: bool)
      ensures ok == ConnectionRequestValid(frame)
    {
      hide GetVarint, GetBytes;
      var version := FindVarint(frame, 1);
      var v1 := FindBytes(frame, 2);
      if version != Some(1) || v1 == None {
        return false;
      }
      var kind := FindVarint(v1.value, 1);
      var request := FindBytes(v1.value, 2);
      if kind != Some(1) || request == None {
        return false;
      }
      var endpoint := FindBytes(request.value, 6);
      if endpoint == None || |endpoint.value| < 18 {
        return false;
      }
      return |endpoint.value| >= 18 + endpoint.value[17] as int;
    }

    method ProcessClientInit(frame: Bytes) returns (ok: bool)
      requires Valid()
      modifies this
      ensures Result(View(), ok) == Receiver.ClientInit(env, old(View()), frame)
    {
      hide ParseClientInit, ServerInit, Lawful, GoodEnv, CurveLaws;
      ReadyForServerInit();
      var found := ReadClientInit(frame);
      if found == None {
        return false;
      }
      commitment := found.value;
      var message := MakeServerInit(env);
      clientInit := frame;
      serverInit := message;
      ok := this.SendFrame(message);
    }

    lemma ReadyForServerInit()
      requires Valid()
      ensures CurveLaws(env.p) && |env.nonce| == 32
    {
      hide CurveLaws, CipherLaws, HashLaws;
    }

    static method ReadClientInit(frame: Bytes) returns (r: Option<Bytes>)
      ensures r == ParseClientInit(frame)
    {
      hide ParseInitData, GetVarint, GetBytes;
      var kind := FindVarint(frame, 1);
      var data := FindBytes(frame, 2);
      if kind != Some(2) || data == None {
        return None;
      }
      r := ReadInitData(data.value);
    }

    static method ReadInitData(data: Bytes) returns (r: Option<Bytes>)
      ensures r == ParseInitData(data)
    {
      hide GetVarint, GetBytes, GetAll;
      var version := FindVarint(data, 1);
      var random := FindBytes(data, 2);
      var protocol := FindBytes(data, 4);
      if version != Some(1) || random == None || |random.value| != 32 || protocol != Some(CIPHER_NAME) {
        return None;
      }
      var commitments := FindAll(data, 3);
      var commitment: Bytes := [];
      for i := 0 to |commitments|
        invariant FindCommitment(commitments) == FindCommitment(commitments[i..])
      {
        assert commitments[i..][1..] == commitments[i + 1..];
        var cipher := FindVarint(commitments[i], 1);
        var found := FindBytes(commitments[i], 2);
        if cipher == Some(100) && found.Some? {
          return if |found.value| != 64 then None else found;
        }
      }
      return None;
    }

    method ProcessClientFinish(frame: Bytes) returns (ok: bool)
      requires Valid()
      modifies this
      ensures Result(View(), ok) == Receiver.ClientFinish(env, old(View()), frame)
    {
      hide GetVarint, GetBytes, ParsePublic, Agree, Lawful, GoodEnv;
      var kind := FindVarint(frame, 1);
      var data := FindBytes(frame, 2);
      if kind != Some(4) || data == None {
        return false;
      }
      var genericPublic := FindBytes(data.value, 1);
      if genericPublic == None || env.p.sha512(frame) != commitment {
        return false;
      }
      ok := DeriveKeys(genericPublic.value);
    }

    method DeriveKeys(genericPublic: Bytes) returns (ok: bool)
      requires Valid()
      modifies this
      ensures var s, t := old(View()), View();
        match ParsePublic(genericPublic)
        case None => !ok && t == s
        case Some(peer) =>
          match Agree(env.p, env.secret, peer, s.clientInit + s.serverInit)
          case None => !ok && t == s
          case Some(a) => ok && t == s.(pin := a.pin, receiveKeys := a.client, sendKeys := a.server)
    {
      hide ParsePublic, Derive, CipherLaws, CurveLaws, GoodEnv;
      var peer := ReadPublic(genericPublic);
      if peer == None || !env.p.onCurve(peer.value) {
        return false;
      }
      var shared := env.p.ecdh(env.secret, peer.value);
      if shared == [] {
        return false;
      }
      var derived := ComputeAgreement(env.p, shared, clientInit + serverInit);
      pin, receiveKeys, sendKeys := derived.pin, derived.client, derived.server;
      return true;
    }

    method ProcessClientConnectionResponse(frame: Bytes) returns (ok: bool)
      requires Valid()
      modifies this
      ensures Result(View(), ok) == ClientResponse(env, old(View()), frame)
    {
      hide GetVarint, GetBytes, SendSharing, PairedKeyEncryption, ConnectionResponse, Lawful, GoodEnv;
      var v1 := FindBytes(frame, 2);
      if v1 == None {
        return false;
      }
      var kind := FindVarint(v1.value, 1);
      if kind != Some(2) {
        return false;
      }
      var message := MakeConnectionResponse();
      ok := this.SendFrame(message);
      if ok {
        state := AwaitPairedEncryption;
        ok := SendPairedKeyEncryption();
      }
    }

    // -------------------------------------------------------------- the introduction

    method AddPending(name: string, id: int, size: nat, bytePayload: bool)
      modifies this
      ensures View() == AddFile(env, old(View()), name, id, size, bytePayload)
    {
      hide Choose;
      var path, reserved' := SafeDestination(env.directory, disk.Keys, reserved, name);
      reserved := reserved';
      files := files[id := IncomingFile(name, path, size, 0, bytePayload, false)];
    }

    method AddFileEntry(metadata: Bytes) returns (size: Option<nat>)
      modifies this
      ensures Added(View(), size) == AddFileMetadata(env, old(View()), metadata)
    {
      hide GetVarint, GetBytes, AddFile;
      var name := FindBytes(metadata, 1);
      var id := FindVarint(metadata, 3);
      var length := FindVarint(metadata, 4);
      if name == None || id == None || length == None {
        return None;
      }
      var payloadId := ToInt64(id.value);
      if length.value > MAX_INT64 || payloadId in files {
        return None;
      }
      AddPending(env.utf8(name.value), payloadId, length.value, false);
      return Some(length.value);
    }

    method AddTextEntry(metadata: Bytes, index: nat) returns (size: Option<nat>)
      modifies this
      ensures Added(View(), size) == AddTextMetadata(env, old(View()), metadata, index)
    {
      hide GetVarint, GetBytes, AddFile;
      var id := FindVarint(metadata, 4);
      var length := FindVarint(metadata, 5);
      if id == None || length == None {
        return None;
      }
      var payloadId := ToInt64(id.value);
      if length.value > MAX_BYTE_PAYLOAD_SIZE || payloadId in files {
        return None;
      }
      AddPending(env.textName(index), payloadId, length.value, true);
      return Some(length.value);
    }

    /** One of the two metadata loops; none when an entry is refused or the total overflows. */
    method AddEntries(metadata: seq<Bytes>, start: nat, text: bool) returns (sum: nat, ok: bool)
      modifies this
      ensures Totalled(View(), sum, ok) == AddAll(env, old(View()), metadata, 0, start, text)
    {
      hide AddFileMetadata, AddTextMetadata;
      sum := start;
      ghost var before := View();
      for i := 0 to |metadata|
        invariant AddAll(env, before, metadata, 0, start, text) == AddAll(env, View(), metadata, i, sum, text)
      {
        var size: Option<nat>;
        if text {
          size := AddTextEntry(metadata[i], i);
        } else {
          size := AddFileEntry(metadata[i]);
        }
        if size == None || sum > MAX_INT64 - size.value {
          return sum, false;
        }
        sum := sum + size.value;
      }
      return sum, true;
    }

    method ProcessIntroduction(introduction: Bytes) returns (ok: bool)
      modifies this
      ensures Result(View(), ok) == Introduction(env, old(View()), introduction)
    {
      hide GetAll, AddAll, AskConsent;
      var fileMetadata := FindAll(introduction, 1);
      var textMetadata := FindAll(introduction, 2);
      var sum: nat;
      sum, ok := AddEntries(fileMetadata, 0, false);
      if !ok {
        return;
      }
      sum, ok := AddEntries(textMetadata, sum, true);
      if !ok || files == map[] {
        return false;
      }
      total, received := sum, 0;
      ok := AskUser();
    }

    method AskUser() returns (ok: bool)
      modifies this
      ensures Result(View(), ok) == AskConsent(env, old(View()))
    {
      if !env.preflight(total) {
        return false;
      }
      ok := BeginConsent();
      if ok {
        state := AwaitConsent;
      }
    }

    // -------------------------------------------------------------- the consent slot of the service

    method BeginConsent() returns (ok: bool)
      modifies this`consent
      ensures ok == (old(consent) != 0) && consent == 0
    {
      if consent == 0 {
        return false;
      }
      consent := 0;
      return true;
    }

    method AcceptTransfer()
      modifies this`consent
      ensures consent == if old(consent) == 0 then 1 else old(consent)
    {
      if consent == 0 {
        consent := 1;
      }
    }

    method RejectTransfer()
      modifies this`consent
      ensures consent == if old(consent) == 0 then -1 else old(consent)
    {
      if consent == 0 {
        consent := -1;
      }
    }

    method FinishConsent()
      modifies this`consent
      ensures consent == -1
    {
      consent := -1;
    }

    // -------------------------------------------------------------- payloads

    method ProcessSharingFrame(frame: Bytes) returns (ok: bool)
      requires Valid()
      modifies this
      ensures Result(View(), ok) == SharingFrame(env, old(View()), frame)
    {
      hide GetVarint, GetBytes, SendSharing, Introduction, PairedKeyResult, Lawful, GoodEnv;
      var v1 := FindBytes(frame, 2);
      if v1 == None {
        return false;
      }
      var kind := FindVarint(v1.value, 1);
      if kind == None || kind.value == 6 {
        return false;
      }
      if state == AwaitPairedEncryption && kind.value == 3 {
        var paired := FindBytes(v1.value, 4);
        if paired == None {
          return false;
        }
        ok := SendPairedKeyResult();
        if ok {
          state := AwaitPairedResult;
        }
        return;
      }
      if state == AwaitPairedResult && kind.value == 4 {
        var result := FindBytes(v1.value, 5);
        if result == None {
          return false;
        }
        state := AwaitIntroduction;
        return true;
      }
      if state == AwaitIntroduction && kind.value == 1 {
        var introduction := FindBytes(v1.value, 2);
        if introduction == None {
          return false;
        }
        ok := ProcessIntroduction(introduction.value);
        return;
      }
      return true;
    }

    /** QFile::write. */
    method WriteTo(path: Path, body: Bytes) returns (ok: bool)
      modifies this
      ensures Result(View(), ok) == Write(old(View()), path, body)
    {
      var fits := if |body| <= space then |body| else space;
      disk := disk[path := (if path in disk then disk[path] else []) + body[..fits]];
      space := space - fits;
      return fits == |body|;
    }

    method ProcessIncomingFile(id: int, offset: nat, flags: u64, body: Bytes) returns (ok: bool)
      modifies this
      ensures Result(View(), ok) == FileChunk(old(View()), id, offset, flags, body)
    {
      hide Write;
      if id !in files {
        return false;
      }
      var file := files[id];
      if offset != file.received || file.received + |body| > file.size || !file.created {
        return false;
      }
      ok := WriteTo(file.path, body);
      if !ok {
        return;
      }
      assert View().files == old(View().files) by {
        WriteLeavesFiles(old(View()), file.path, body);
      }
      file := file.(received := file.received + |body|);
      files := files[id := file];
      received := received + |body|;
      if flags % 2 == 1 {
        if file.received != file.size {
          return false;
        }
        files := files - {id};
      }
      return true;
    }

    static lemma WriteLeavesFiles(s: Session, path: Path, body: Bytes)
      ensures Write(s, path, body).session.files == s.files && Write(s, path, body).session.received == s.received
    {
    }

    method ProcessPayloadTransfer(transfer: Bytes) returns (ok: bool)
      requires Valid()
      modifies this
      ensures Result(View(), ok) == PayloadTransfer(env, old(View()), transfer)
    {
      hide TakePacket, Lawful, GoodEnv;
      var packet := ReadPacket(transfer);
      if packet == None {
        return false;
      }
      ok := ProcessPacket(packet.value);
    }

    static method ReadPacket(transfer: Bytes) returns (r: Option<Packet>)
      ensures r == ParsePacket(transfer)
    {
      hide GetVarint, GetBytes;
      var packetType := FindVarint(transfer, 1);
      var header := FindBytes(transfer, 2);
      var chunk := FindBytes(transfer, 3);
      if packetType != Some(1) || header == None || chunk == None {
        return None;
      }
      var id := FindVarint(header.value, 1);
      var kind := FindVarint(header.value, 2);
      var size := FindVarint(header.value, 3);
      var flags := FindVarint(chunk.value, 1);
      var offset := FindVarint(chunk.value, 2);
      if id == None || kind == None || size == None || flags == None || offset == None {
        return None;
      }
      var body := FindBytes(chunk.value, 3);
      return Some(Packet(id.value, kind.value, size.value, flags.value, offset.value,
                         if body.Some? then body.value else []));
    }

    method ProcessPacket(packet: Packet) returns (ok: bool)
      requires Valid()
      modifies this
      ensures Result(View(), ok) == TakePacket(env, old(View()), packet)
    {
      hide SharingFrame, FileChunk, Lawful, GoodEnv, Reassemble;
      var body := packet.body;
      if packet.offset > MAX_INT64 {
        return false;
      }
      var id := ToInt64(packet.id);
      if packet.kind == FILE_PAYLOAD {
        if id !in files || packet.total != files[id].size {
          return false;
        }
        ok := ProcessIncomingFile(id, packet.offset, packet.flags, body);
        return;
      }
      if packet.kind != BYTES_PAYLOAD {
        return false;
      }
      var complete: bool;
      var payload: Bytes;
      ok, complete, payload := TakeChunk(packet);
      if !ok || !complete {
        return;
      }
      if state == Receiving && id in files && files[id].bytePayload {
        ok := ProcessIncomingFile(id, 0, 1, payload);
        return;
      }
      ok := ProcessSharingFrame(payload);
    }

    /** The reassembly of byte payloads. */
    method TakeChunk(packet: Packet) returns (ok: bool, complete: bool, payload: Bytes)
      modifies this
      ensures match Reassemble(old(View()), packet)
              case Refused(s) => !ok && View() == s
              case Partial(s) => ok && !complete && View() == s
              case Complete(s, p) => ok && complete && payload == p && View() == s
    {
      var id, body := ToInt64(packet.id), packet.body;
      if packet.total > MAX_BYTE_PAYLOAD_SIZE || packet.offset > packet.total || |body| > packet.total - packet.offset {
        return false, false, [];
      }
      var buffer := if id in buffers then buffers[id] else [];
      if packet.offset != |buffer| || buffered > MAX_BUFFERED_BYTES - |body| {
        buffered := buffered - |buffer|;
        buffers := buffers - {id};
        return false, false, [];
      }
      buffer := buffer + body;
      buffers := buffers[id := buffer];
      buffered := buffered + |body|;
      if packet.flags % 2 != 1 {
        return true, false, [];
      }
      buffered := buffered - |buffer|;
      buffers := buffers - {id};
      if |buffer| != packet.total {
        return false, false, [];
      }
      return true, true, buffer;
    }

    method DecryptFrame(secure: Bytes) returns (r: Option<Bytes>)
      modifies this
      ensures r == Open(env.p, old(receiveKeys), old(clientSequence), secure)
      ensures View() == Counted(env, old(View()), secure)
    {
      hide GetVarint, GetBytes;
      r, clientSequence := DecryptOffline(env.p, receiveKeys, clientSequence, secure);
    }

    method ProcessEncryptedFrame(secure: Bytes) returns (ok: bool)
      requires Valid()
      modifies this
      ensures Result(View(), ok) == EncryptedFrame(env, old(View()), secure)
    {
      hide GetVarint, GetBytes, Open, Counted, SendOffline, KeepAliveAck, PayloadTransfer, Lawful, GoodEnv;
      var offline := DecryptFrame(secure);
      if offline == None {
        return false;
      }
      var v1 := FindBytes(offline.value, 2);
      if v1 == None {
        return false;
      }
      var kind := FindVarint(v1.value, 1);
      if kind == None {
        return false;
      }
      if kind.value == 3 {
        var transfer := FindBytes(v1.value, 4);
        if transfer == None {
          return false;
        }
        ok := ProcessPayloadTransfer(transfer.value);
        return;
      }
      if kind.value == 5 {
        ok := SendKeepAliveAck();
        return;
      }
      return kind.value != 6;
    }

    // -------------------------------------------------------------- the loop

    /** Creates every destination, in hash order. */
    method CreateFiles() returns (ok: bool)
      modifies this
      ensures Result(View(), ok) == OpenFiles(env, old(View()), env.order(old(files).Keys))
    {
      var ids := env.order(files.Keys);
      ghost var start := View();
      for i := 0 to |ids|
        invariant OpenFiles(env, start, ids) == OpenFiles(env, View(), ids[i..])
      {
        assert ids[i..][1..] == ids[i + 1..];
        if ids[i] in files {
          var file := files[ids[i]];
          files := files[ids[i] := file.(created := true)];
          if file.path in env.unopenable {
            return false;
          }
          disk := disk[file.path := []];
        }
      }
      return true;
    }

    /** The consent check at the top of the loop. */
    method CheckConsent(elapsed: bool) returns (outcome: Outcome)
      requires Valid()
      modifies this
      ensures Turned(View(), outcome) == ConsentPhase(env, old(View()), elapsed)
      ensures outcome == Running ==> state == old(state) || state == Receiving
    {
      hide OpenFiles, SendSharing, IntroductionResponse, Lawful, GoodEnv;
      if state == AwaitConsent {
        var decision := consent;
        if decision == 1 {
          var ok := CreateFiles();
          if ok {
            ok := SendIntroductionResponse(true);
          }
          FinishConsent();
          if !ok {
            return Returned(false);
          }
          state := Receiving;
        } else if decision < 0 || elapsed {
          var _ := SendIntroductionResponse(false);
          FinishConsent();
          return Returned(true);
        }
      }
      return Running;
    }

    method HandshakeFrame(frame: Bytes) returns (ok: bool)
      requires Valid()
      modifies this
      ensures Result(View(), ok) == Handshake(env, old(View()), frame)
    {
      hide Receiver.ClientInit, Receiver.ClientFinish, ClientResponse, ConnectionRequestValid, Lawful, GoodEnv;
      stage := stage + 1;
      if stage == 1 {
        ok := ProcessConnectionRequest(frame);
      } else if stage == 2 {
        ok := ProcessClientInit(frame);
      } else if stage == 3 {
        ok := ProcessClientFinish(frame);
      } else {
        ok := ProcessClientConnectionResponse(frame);
      }
    }

    method TakeInput(input: Input) returns (outcome: Outcome)
      requires Valid()
      modifies this
      ensures Turned(View(), outcome) ==
        if old(state) == PlainHandshake then HandshakePhase(env, old(View()), input)
        else InputPhase(env, old(View()), input)
    {
      hide Handshake, EncryptedFrame, Lawful, GoodEnv;
      match input {
        case Silence(tooLong) =>
          return if state == Receiving && tooLong then Returned(false) else Running;
        case Closed =>
          return Returned(files == map[] && state == Receiving);
        case Arrived(frame) =>
          if !Acceptable(frame) {
            return Returned(files == map[] && state == Receiving);
          }
          if state == PlainHandshake {
            var ok := HandshakeFrame(frame);
            return if ok then Running else Returned(false);
          }
          var ok := ProcessEncryptedFrame(frame);
          if !ok {
            return Returned(false);
          }
          return if state == Receiving && files == map[] then Returned(true) else Running;
      }
    }

    /** run(): the events are what poll, the peer, the clock and the user bring, in order. */
    method Run(events: seq<Event>) returns (outcome: Outcome)
      requires Valid()
      modifies this
      ensures Turned(View(), outcome) == Receiver.Run(env, old(View()), events)
    {
      hide ConsentPhase, HandshakePhase, InputPhase, Lawful, GoodEnv;
      outcome := Running;
      ghost var start := View();
      for i := 0 to |events|
        invariant outcome == Running
        invariant Receiver.Run(env, start, events) == Receiver.Run(env, View(), events[i..])
      {
        assert events[i..][1..] == events[i + 1..];
        match events[i] {
          case Accept => AcceptTransfer();
          case Reject => RejectTransfer();
          case Turn(elapsed, input) =>
            if state != PlainHandshake {
              outcome := CheckConsent(elapsed);
            }
            if outcome == Running {
              outcome := TakeInput(input);
            }
        }
        if outcome != Running {
          return;
        }
      }
    }

    /** Removes what is still open, entry by entry. */
    method RemoveOpen()
      requires Valid()
      modifies this`disk
      ensures disk == old(disk) - OpenPaths(old(View()))
    {
      var pending := files;
      var ids := env.order(pending.Keys);
      OrderCovers(env, pending);
      ghost var removed: set<Path> := {};
      for i := 0 to |ids|
        invariant disk == old(disk) - removed
        invariant forall k :: 0 <= k < |ids| ==> ids[k] in pending
        invariant removed == set k | 0 <= k < i && pending[ids[k]].created :: pending[ids[k]].path
      {
        if pending[ids[i]].created {
          disk := disk - {pending[ids[i]].path};
          removed := removed + {pending[ids[i]].path};
        }
      }
      ghost var openings := OpenPaths(old(View()));
      forall p | p in openings
        ensures p in removed
      {
        var id :| id in pending && pending[id].created && pending[id].path == p;
        assert id in ids;
      }
      forall p | p in removed
        ensures p in openings
      {
        var k :| 0 <= k < |ids| && pending[ids[k]].created && pending[ids[k]].path == p;
        assert ids[k] in pending;
      }
      assert removed == openings;
    }

    method CloseAll()
      requires Valid()
      modifies this
      ensures View() == CloseFiles(old(View()))
    {
      hide OpenPaths, Lawful, GoodEnv;
      RemoveOpen();
      files := map[];
    }

    method Destroy()
      requires Valid()
      modifies this
      ensures View() == Finish(old(View()))
    {
      hide CloseFiles, Lawful, GoodEnv;
      if state == AwaitConsent {
        FinishConsent();
      }
      CloseAll();
    }
  }
}
