/** The receiving side (src/QuickShareSession.cpp) as a state machine on values: what one turn of
    its event loop makes of the session, the disk and the consent slot. The class in Session.dfy
    is proved to take exactly these steps. */
module Receiver {
  import opened ByteStrings
  import opened ProtoWire
  import opened Crypto
  import opened Framing
  import opened SecureChannel
  import opened KeyAgreement
  import opened Frames
  import opened Destination

  const MAX_INT64 := 0x7fff_ffff_ffff_ffff
  const MAX_BYTE_PAYLOAD_SIZE := 5 * 1024 * 1024
  const MAX_BUFFERED_BYTES := 8 * 1024 * 1024

  datatype State = PlainHandshake | AwaitPairedEncryption | AwaitPairedResult | AwaitIntroduction
    | AwaitConsent | Receiving

  /** `created`: the file object exists, so the destination was created and will be removed unless finished. */
  datatype IncomingFile = IncomingFile(name: string, path: Path, size: nat, received: nat, bytePayload: bool,
                                       created: bool)

  /** Everything the session asks of its surroundings: the crypto library, its random draws (the k-th IV,
      the k-th payload identifier), names, the order a hash table is walked in, and which destinations
      cannot be created. */
  datatype Env = Env(
    p: Primitives, ivs: Ivs, ids: nat -> u64, secret: nat, nonce: Bytes, pairedData: Bytes, pairedHash: Bytes,
    utf8: Bytes -> string, textName: nat -> string, directory: Path, preflight: nat -> bool,
    order: set<int> -> seq<int>, unopenable: set<Path>)

  ghost predicate IsOrder(s: seq<int>, keys: set<int>) {
    && (forall k :: k in s <==> k in keys)
    && (forall i, j :: 0 <= i < j < |s| ==> s[i] != s[j])
  }

  ghost predicate GoodEnv(e: Env) {
    && GoodIvs(e.ivs) && |e.nonce| == 32 && |e.pairedData| == 72 && |e.pairedHash| == 6
    && (forall keys: set<int> :: IsOrder(e.order(keys), keys))
  }

  lemma OrderCovers(e: Env, files: map<int, IncomingFile>)
    requires GoodEnv(e)
    ensures var ids := e.order(files.Keys);
      && (forall k :: 0 <= k < |ids| ==> ids[k] in files)
      && (forall id :: id in files ==> id in ids)
  {
    var ids := e.order(files.Keys);
    assert IsOrder(ids, files.Keys);
    forall k | 0 <= k < |ids|
      ensures ids[k] in files
    {
      var id := ids[k];
      assert id in ids;
    }
  }

  /** The session and the part of the world it acts on. `stage` counts the handshake frames taken;
      `link` is how many more frames the connection will carry and `space` how many more bytes the
      disk will take, so that every failure of either is some initial value. `consent` is the slot
      of the service: 0 pending, 1 accepted, -1 otherwise. `outbox` lists the frames sent. */
  datatype Session = Session(
    state: State, stage: nat, clientInit: Bytes, serverInit: Bytes, commitment: Bytes,
    pin: string, receiveKeys: Direction, sendKeys: Direction,
    clientSequence: nat, serverSequence: nat, drawn: nat,
    files: map<int, IncomingFile>, buffers: map<int, Bytes>, buffered: int, total: nat, received: nat,
    reserved: set<Path>, disk: map<Path, Bytes>, space: nat, consent: int, link: nat, outbox: seq<Bytes>)

  function Fresh(disk: map<Path, Bytes>, space: nat, link: nat, consent: int): Session {
    Session(PlainHandshake, 0, [], [], [], "", Direction([], []), Direction([], []), 0, 0, 0,
            map[], map[], 0, 0, 0, {}, disk, space, consent, link, [])
  }

  // ---------------------------------------------------------------- sending

  datatype Result = Result(session: Session, ok: bool)

  function SendFrame(s: Session, frame: Bytes): Result {
    if s.link == 0 then Result(s, false)
    else Result(s.(link := s.link - 1, outbox := s.outbox + [frame]), true)
  }

  function SendOffline(e: Env, s: Session, offline: Bytes): Result {
    var n := s.serverSequence + 1;
    var s1 := s.(serverSequence := n);
    if AesEncrypt(e.p, Plain(offline, n), s.sendKeys.cipherKey, e.ivs(n)) == [] then Result(s1, false)
    else SendFrame(s1, Seal(e.p, s.sendKeys, e.ivs(n), n, offline))
  }

  function SizeOf(b: Bytes): u64 { |b| % TWO64 }

  /** One chunk with everything, then an empty last chunk. */
  function SendSharing(e: Env, s: Session, sharing: Bytes): Result {
    var id := e.ids(s.drawn);
    var first := SendOffline(e, s.(drawn := s.drawn + 1),
                             DataFrame(id, BYTES_PAYLOAD, SizeOf(sharing), None, 0, sharing));
    if !first.ok then first
    else SendOffline(e, first.session, LastFrame(id, BYTES_PAYLOAD, SizeOf(sharing), None, SizeOf(sharing)))
  }

  function PairedKeyEncryption(data: Bytes, hash: Bytes): Bytes { Versioned(3, 4, Encode([B(1, data), B(2, hash)])) }
  function PairedKeyResult(): Bytes { Versioned(4, 5, Encode([V(1, 3)])) }
  function IntroductionResponse(accepted: bool): Bytes { Versioned(2, 3, Encode([V(1, if accepted then 1 else 2)])) }
  function KeepAliveAck(): Bytes { Versioned(5, 6, Encode([V(1, 1)])) }
  function ConnectionResponse(): Bytes {
    Versioned(2, 3, Encode([V(1, 0), V(3, 1), B(4, Encode([V(1, 100)]))]))
  }

  // ---------------------------------------------------------------- the plain handshake

  predicate ConnectionRequestValid(frame: Bytes) {
    match (GetVarint(frame, 1), GetBytes(frame, 2))
    case (Some(version), Some(v1)) =>
      version == 1 &&
      (match (GetVarint(v1, 1), GetBytes(v1, 2))
       case (Some(kind), Some(request)) =>
         kind == 1 &&
         (match GetBytes(request, 6)
          case None => false
          case Some(endpoint) => |endpoint| >= 18 && |endpoint| >= 18 + endpoint[17] as int)
       case _ => false)
    case _ => false
  }

  const CIPHER_NAME: Bytes := Ascii("AES_256_CBC-HMAC_SHA256")

  /** The first commitment for P-256/SHA-512, cipher 100. */
  function FindCommitment(commitments: seq<Bytes>): Option<Bytes> {
    if commitments == [] then None
    else match (GetVarint(commitments[0], 1), GetBytes(commitments[0], 2))
         case (Some(cipher), Some(commitment)) =>
           if cipher == 100 then Some(commitment) else FindCommitment(commitments[1..])
         case _ => FindCommitment(commitments[1..])
  }

  function ParseClientInit(frame: Bytes): Option<Bytes> {
    match (GetVarint(frame, 1), GetBytes(frame, 2))
    case (Some(kind), Some(data)) => if kind != 2 then None else ParseInitData(data)
    case _ => None
  }

  function ParseInitData(data: Bytes): Option<Bytes> {
    match (GetVarint(data, 1), GetBytes(data, 2), GetBytes(data, 4))
    case (Some(version), Some(random), Some(protocol)) =>
      if version != 1 || |random| != 32 || protocol != CIPHER_NAME then None
      else (match FindCommitment(GetAll(data, 3))
            case None => None
            case Some(commitment) => if |commitment| != 64 then None else Some(commitment))
    case _ => None
  }

  /** A UKEY2 message has a kind and its data, laid out like the inside of an offline frame. */
  function ServerInit(e: Env): Bytes {
    V1(3, 2, Encode([V(1, 1), B(2, e.nonce), V(3, 100), B(4, GenericPublic(e.p.publicPoint(e.secret)))]))
  }

  function ParseClientFinish(frame: Bytes): Option<Bytes> {
    match (GetVarint(frame, 1), GetBytes(frame, 2))
    case (Some(kind), Some(data)) => if kind != 4 then None else GetBytes(data, 1)
    case _ => None
  }

  predicate ClientResponseValid(frame: Bytes) {
    match GetBytes(frame, 2)
    case None => false
    case Some(v1) => GetVarint(v1, 1) == Some(2)
  }

  function ClientInit(e: Env, s: Session, frame: Bytes): Result {
    match ParseClientInit(frame)
    case None => Result(s, false)
    case Some(commitment) =>
      SendFrame(s.(commitment := commitment, clientInit := frame, serverInit := ServerInit(e)), ServerInit(e))
  }

  function ClientFinish(e: Env, s: Session, frame: Bytes): Result {
    match ParseClientFinish(frame)
    case None => Result(s, false)
    case Some(generic) =>
      if e.p.sha512(frame) != s.commitment then Result(s, false)
      else match ParsePublic(generic)
           case None => Result(s, false)
           case Some(peer) =>
             match Agree(e.p, e.secret, peer, s.clientInit + s.serverInit)
             case None => Result(s, false)
             case Some(a) => Result(s.(pin := a.pin, receiveKeys := a.client, sendKeys := a.server), true)
  }

  function ClientResponse(e: Env, s: Session, frame: Bytes): Result {
    if !ClientResponseValid(frame) then Result(s, false)
    else
      var sent := SendFrame(s, ConnectionResponse());
      if !sent.ok then sent
      else SendSharing(e, sent.session.(state := AwaitPairedEncryption),
                       PairedKeyEncryption(e.pairedData, e.pairedHash))
  }

  /** run() takes four plain frames, in this order, before its loop. */
  function Handshake(e: Env, s: Session, frame: Bytes): Result {
    var next := s.(stage := s.stage + 1);
    if s.stage == 0 then Result(next, ConnectionRequestValid(frame))
    else if s.stage == 1 then ClientInit(e, next, frame)
    else if s.stage == 2 then ClientFinish(e, next, frame)
    else ClientResponse(e, next, frame)
  }

  // ---------------------------------------------------------------- the introduction

  datatype Added = Added(session: Session, size: Option<nat>)

  function AddFile(e: Env, s: Session, name: string, id: int, size: nat, bytePayload: bool): Session
  {
    var path := Choose(e.directory, s.disk.Keys + s.reserved, name);
    s.(files := s.files[id := IncomingFile(name, path, size, 0, bytePayload, false)], reserved := s.reserved + {path})
  }

  function AddFileMetadata(e: Env, s: Session, metadata: Bytes): Added {
    match (GetBytes(metadata, 1), GetVarint(metadata, 3), GetVarint(metadata, 4))
    case (Some(name), Some(id), Some(size)) =>
      if size > MAX_INT64 || ToInt64(id) in s.files then Added(s, None)
      else Added(AddFile(e, s, e.utf8(name), ToInt64(id), size, false), Some(size))
    case _ => Added(s, None)
  }

  function AddTextMetadata(e: Env, s: Session, metadata: Bytes, index: nat): Added {
    match (GetVarint(metadata, 4), GetVarint(metadata, 5))
    case (Some(id), Some(size)) =>
      if size > MAX_BYTE_PAYLOAD_SIZE || ToInt64(id) in s.files then Added(s, None)
      else Added(AddFile(e, s, e.textName(index), ToInt64(id), size, true), Some(size))
    case _ => Added(s, None)
  }

  datatype Totalled = Totalled(session: Session, total: nat, ok: bool)

  /** The two metadata loops; `text` selects which list is walked. */
  function AddAll(e: Env, s: Session, metadata: seq<Bytes>, index: nat, total: nat, text: bool): Totalled
    requires index <= |metadata|
    decreases |metadata| - index
  {
    if index == |metadata| then Totalled(s, total, true)
    else
      var added := if text then AddTextMetadata(e, s, metadata[index], index)
                   else AddFileMetadata(e, s, metadata[index]);
      if added.size == None then Totalled(added.session, total, false)
      else if total > MAX_INT64 - added.size.value then Totalled(added.session, total, false)
      else AddAll(e, added.session, metadata, index + 1, total + added.size.value, text)
  }

  function Introduction(e: Env, s: Session, introduction: Bytes): Result {
    var files := AddAll(e, s, GetAll(introduction, 1), 0, 0, false);
    if !files.ok then Result(files.session, false)
    else
      var texts := AddAll(e, files.session, GetAll(introduction, 2), 0, files.total, true);
      if !texts.ok || texts.session.files == map[] then Result(texts.session, false)
      else AskConsent(e, texts.session.(total := texts.total, received := 0))
  }

  function AskConsent(e: Env, s: Session): Result {
    if !e.preflight(s.total) || s.consent == 0 then Result(s, false)
    else Result(s.(consent := 0, state := AwaitConsent), true)
  }

  // ---------------------------------------------------------------- sharing frames

  datatype Sharing = Sharing(kind: u64, v1: Bytes)

  function ParseSharing(frame: Bytes): Option<Sharing> {
    match GetBytes(frame, 2)
    case None => None
    case Some(v1) =>
      match GetVarint(v1, 1)
      case None => None
      case Some(kind) => Some(Sharing(kind, v1))
  }

  function SharingFrame(e: Env, s: Session, frame: Bytes): Result {
    match ParseSharing(frame)
    case None => Result(s, false)
    case Some(sharing) =>
      if sharing.kind == 6 then Result(s, false)
      else if s.state == AwaitPairedEncryption && sharing.kind == 3 then
        if GetBytes(sharing.v1, 4) == None then Result(s, false)
        else
          var sent := SendSharing(e, s, PairedKeyResult());
          if !sent.ok then sent else Result(sent.session.(state := AwaitPairedResult), true)
      else if s.state == AwaitPairedResult && sharing.kind == 4 then
        if GetBytes(sharing.v1, 5) == None then Result(s, false)
        else Result(s.(state := AwaitIntroduction), true)
      else if s.state == AwaitIntroduction && sharing.kind == 1 then
        (match GetBytes(sharing.v1, 2)
         case None => Result(s, false)
         case Some(introduction) => Introduction(e, s, introduction))
      else Result(s, true)
  }

  // ---------------------------------------------------------------- payloads

  function OnDisk(s: Session, path: Path): Bytes { if path in s.disk then s.disk[path] else [] }

  predicate Last(flags: u64) { flags % 2 == 1 }

  /** A full disk takes what fits and fails the write. */
  function Write(s: Session, path: Path, body: Bytes): Result {
    var fits := if |body| <= s.space then |body| else s.space;
    Result(s.(disk := s.disk[path := OnDisk(s, path) + body[..fits]], space := s.space - fits), fits == |body|)
  }

  function Credit(s: Session, id: int, count: nat): Session
    requires id in s.files
  {
    var f := s.files[id];
    s.(files := s.files[id := f.(received := f.received + count)], received := s.received + count)
  }

  function Land(s: Session, id: int): Session { s.(files := s.files - {id}) }

  /** processIncomingFile. */
  function FileChunk(s: Session, id: int, offset: nat, flags: u64, body: Bytes): Result {
    if id !in s.files then Result(s, false)
    else
      var f := s.files[id];
      if offset != f.received || f.received + |body| > f.size || !f.created then Result(s, false)
      else
        var written := Write(s, f.path, body);
        if !written.ok then written
        else
          var credited := Credit(written.session, id, |body|);
          if !Last(flags) then Result(credited, true)
          else if f.received + |body| != f.size then Result(credited, false)
          else Result(Land(credited, id), true)
  }

  function Buffer(s: Session, id: int): Bytes { if id in s.buffers then s.buffers[id] else [] }

  function DropBuffer(s: Session, id: int): Session {
    s.(buffers := s.buffers - {id}, buffered := s.buffered - |Buffer(s, id)|)
  }

  datatype Reassembly = Refused(session: Session) | Partial(session: Session) | Complete(session: Session,
                                payload: Bytes)

  /** The reassembly of byte payloads, up to what is done with a complete one. */
  function Reassemble(s: Session, packet: Packet): Reassembly {
    var id := ToInt64(packet.id);
    var buffer, body := Buffer(s, id), packet.body;
    if packet.total > MAX_BYTE_PAYLOAD_SIZE || packet.offset > packet.total || |body| > packet.total - packet.offset
    then Reassembly.Refused(s)
    else if packet.offset != |buffer| || s.buffered > MAX_BUFFERED_BYTES - |body|
    then Reassembly.Refused(DropBuffer(s, id))
    else
      var s1 := s.(buffers := s.buffers[id := buffer + body], buffered := s.buffered + |body|);
      if !Last(packet.flags) then Partial(s1)
      else if |buffer + body| != packet.total then Reassembly.Refused(DropBuffer(s1, id))
      else Complete(DropBuffer(s1, id), buffer + body)
  }

  function BytePayload(e: Env, s: Session, packet: Packet): Result {
    match Reassemble(s, packet)
    case Refused(s1) => Result(s1, false)
    case Partial(s1) => Result(s1, true)
    case Complete(s1, payload) =>
      var id := ToInt64(packet.id);
      if s1.state == Receiving && id in s1.files && s1.files[id].bytePayload then FileChunk(s1, id, 0, 1, payload)
      else SharingFrame(e, s1, payload)
  }

  function PayloadTransfer(e: Env, s: Session, transfer: Bytes): Result {
    match ParsePacket(transfer)
    case None => Result(s, false)
    case Some(packet) => TakePacket(e, s, packet)
  }

  function TakePacket(e: Env, s: Session, packet: Packet): Result {
    var id := ToInt64(packet.id);
    if packet.offset > MAX_INT64 then Result(s, false)
    else if packet.kind == FILE_PAYLOAD then
      if id !in s.files || packet.total != s.files[id].size then Result(s, false)
      else FileChunk(s, id, packet.offset, packet.flags, packet.body)
    else if packet.kind != BYTES_PAYLOAD then Result(s, false)
    else BytePayload(e, s, packet)
  }

  // ---------------------------------------------------------------- encrypted frames

  /** The counter moves as soon as a verified message turns out to carry a sequence number. */
  function Counted(e: Env, s: Session, secure: Bytes): Session {
    s.(clientSequence := CountAfter(e.p, s.receiveKeys, s.clientSequence, secure))
  }

  function EncryptedFrame(e: Env, s: Session, secure: Bytes): Result {
    var s1 := Counted(e, s, secure);
    match Open(e.p, s.receiveKeys, s.clientSequence, secure)
    case None => Result(s1, false)
    case Some(offline) => TakeOffline(e, s1, offline)
  }

  function TakeOffline(e: Env, s: Session, offline: Bytes): Result {
    match ParseOffline(offline)
    case Malformed => Result(s, false)
    case TransferOf(None) => Result(s, false)
    case TransferOf(Some(transfer)) => PayloadTransfer(e, s, transfer)
    case KeepAlive => SendOffline(e, s, KeepAliveAck())
    case Disconnection => Result(s, false)
    case Other => Result(s, true)
  }

  // ---------------------------------------------------------------- consent, and the end

  /** Opens the destinations in hash order, up to the first that cannot be created. */
  function OpenFiles(e: Env, s: Session, ids: seq<int>): Result
    decreases |ids|
  {
    if ids == [] then Result(s, true)
    else if ids[0] !in s.files then OpenFiles(e, s, ids[1..])
    else
      var f := s.files[ids[0]];
      var s1 := s.(files := s.files[ids[0] := f.(created := true)]);
      if f.path in e.unopenable then Result(s1, false)
      else OpenFiles(e, s1.(disk := s1.disk[f.path := []]), ids[1..])
  }

  datatype Outcome = Running | Returned(ok: bool)
  datatype Turned = Turned(session: Session, outcome: Outcome)

  function ConsentPhase(e: Env, s: Session, elapsed: bool): Turned {
    if s.state != AwaitConsent then Turned(s, Running)
    else if s.consent == 1 then
      var openings := OpenFiles(e, s, e.order(s.files.Keys));
      if !openings.ok then Turned(openings.session.(consent := -1), Returned(false))
      else
        var sent := SendSharing(e, openings.session, IntroductionResponse(true));
        if !sent.ok then Turned(sent.session.(consent := -1), Returned(false))
        else Turned(sent.session.(consent := -1, state := Receiving), Running)
    else if s.consent < 0 || elapsed then
      Turned(SendSharing(e, s, IntroductionResponse(false)).session.(consent := -1), Returned(true))
    else Turned(s, Running)
  }

  /** What poll and readFrame bring: nothing (and whether the transfer has been silent too long), the end
      of the stream, or a whole frame. */
  datatype Input = Silence(tooLong: bool) | Closed | Arrived(frame: Bytes)

  predicate Done(s: Session) { s.state == Receiving && s.files == map[] }

  function InputPhase(e: Env, s: Session, input: Input): Turned {
    match input
    case Silence(tooLong) => Turned(s, if s.state == Receiving && tooLong then Returned(false) else Running)
    case Closed => Turned(s, Returned(Done(s)))
    case Arrived(frame) =>
      if !Acceptable(frame) then Turned(s, Returned(Done(s)))
      else
        var r := EncryptedFrame(e, s, frame);
        Turned(r.session, if !r.ok then Returned(false) else if Done(r.session) then Returned(true) else Running)
  }

  function HandshakePhase(e: Env, s: Session, input: Input): Turned {
    match input
    case Silence(_) => Turned(s, Running)
    case Closed => Turned(s, Returned(false))
    case Arrived(frame) =>
      if !Acceptable(frame) then Turned(s, Returned(false))
      else
        var r := Handshake(e, s, frame);
        Turned(r.session, if r.ok then Running else Returned(false))
  }

  /** One turn of the loop, or an answer of the user. */
  datatype Event = Accept | Reject | Turn(elapsed: bool, input: Input)

  function Step(e: Env, s: Session, event: Event): Turned {
    match event
    case Accept => Turned(if s.consent == 0 then s.(consent := 1) else s, Running)
    case Reject => Turned(if s.consent == 0 then s.(consent := -1) else s, Running)
    case Turn(elapsed, input) =>
      if s.state == PlainHandshake then HandshakePhase(e, s, input)
      else
        var asked := ConsentPhase(e, s, elapsed);
        if asked.outcome != Running then asked else InputPhase(e, asked.session, input)
  }

  /** A run: events until it returns or they end. */
  function Run(e: Env, s: Session, events: seq<Event>): Turned
    decreases |events|
  {
    if events == [] then Turned(s, Running)
    else
      var t := Step(e, s, events[0]);
      if t.outcome != Running then t else Run(e, t.session, events[1..])
  }

  /** closeFiles: every destination still open is removed from the disk. */
  function OpenPaths(s: Session): set<Path> {
    set id | id in s.files && s.files[id].created :: s.files[id].path
  }

  function CloseFiles(s: Session): Session {
    s.(disk := s.disk - OpenPaths(s), files := map[])
  }

  /** The destructor. */
  function Finish(s: Session): Session {
    CloseFiles(if s.state == AwaitConsent then s.(consent := -1) else s)
  }
}
