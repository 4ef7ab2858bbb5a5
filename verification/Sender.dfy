/** The sending side (src/QuickShareSender.cpp) as a state machine on values; the class in
    SenderSession.dfy is proved to take exactly these steps. */
module Sender {
  import opened ByteStrings
  import opened ProtoWire
  import opened Crypto
  import opened Framing
  import opened SecureChannel
  import opened KeyAgreement
  import opened Frames

  const MAX_CONTROL_PAYLOAD_SIZE := 5 * 1024 * 1024
  const CHUNK_SIZE := 64 * 1024

  /** A file to send: its safe name in UTF-8, its MIME type, whether its suffix is apk, its contents,
      and the payload identifier drawn for it. */
  datatype OutgoingFile = OutgoingFile(name: Bytes, mime: Bytes, apk: bool, content: Bytes, id: u64)

  /** What the sender takes from its surroundings; the random draws as for the receiver. */
  datatype SenderEnv = SenderEnv(
    p: Primitives, ivs: Ivs, ids: nat -> u64, secret: nat, nonce: Bytes, endpointId: Bytes, endpointRandom: Bytes,
    localName: Bytes, pairedData: Bytes, pairedHash: Bytes, files: seq<OutgoingFile>)

  ghost predicate GoodSenderEnv(e: SenderEnv) {
    && GoodIvs(e.ivs) && |e.nonce| == 32 && |e.endpointId| == 4 && |e.endpointRandom| == 16
    && |e.pairedData| == 72 && |e.pairedHash| == 6
  }

  datatype Stage = Start | AwaitServerInit | AwaitConnectionResponse | AwaitPairedKey | AwaitPairedResult
    | AwaitDecision | Sending

  datatype Sender = Sender(
    stage: Stage, clientInit: Bytes, pin: string, sendKeys: Direction, receiveKeys: Direction,
    sendSequence: nat, receiveSequence: nat, drawn: nat, controls: map<u64, Bytes>, safeDisconnect: bool,
    link: nat, outbox: seq<Bytes>)

  function FreshSender(link: nat): Sender {
    Sender(Start, [], "", Direction([], []), Direction([], []), 0, 0, 0, map[], false, link, [])
  }

  datatype Sent = Sent(sender: Sender, ok: bool)

  // ---------------------------------------------------------------- sending

  function SendFrame(s: Sender, frame: Bytes): Sent {
    if s.link == 0 then Sent(s, false)
    else Sent(s.(link := s.link - 1, outbox := s.outbox + [frame]), true)
  }

  function SendOffline(e: SenderEnv, s: Sender, offline: Bytes): Sent {
    var n := s.sendSequence + 1;
    var s1 := s.(sendSequence := n);
    if AesEncrypt(e.p, Plain(offline, n), s.sendKeys.cipherKey, e.ivs(n)) == [] then Sent(s1, false)
    else SendFrame(s1, Seal(e.p, s.sendKeys, e.ivs(n), n, offline))
  }

  /** The sign bit of a control payload's identifier is always set. */
  function Negative(id: u64): u64 { if id < TWO63 then id + TWO63 else id }

  /** So it reads as a negative number whose other bits are as drawn. */
  lemma NegativeMeaning(id: u64)
    ensures ToInt64(Negative(id)) < 0 && Negative(id) % TWO63 == id % TWO63
  {
  }

  function SizeOf(b: Bytes): u64 { |b| % TWO64 }

  function SendSharing(e: SenderEnv, s: Sender, sharing: Bytes): Sent {
    var id := Negative(e.ids(s.drawn));
    var first := SendOffline(e, s.(drawn := s.drawn + 1),
                             DataFrame(id, BYTES_PAYLOAD, SizeOf(sharing), None, 0, sharing));
    if !first.ok then first
    else SendOffline(e, first.sender, LastFrame(id, BYTES_PAYLOAD, SizeOf(sharing), None, SizeOf(sharing)))
  }

  // ---------------------------------------------------------------- the frames of the handshake

  function Left(b: Bytes, n: nat): Bytes { if |b| <= n then b else b[..n] }

  /** The advertised name, at most 45 bytes. */
  function ShortName(e: SenderEnv): (r: Bytes)
    ensures |r| <= 45
  {
    Left(if e.localName == [] then Ascii("BBX Share") else e.localName, 45)
  }

  function EndpointInfo(e: SenderEnv): Bytes {
    [2] + e.endpointRandom + [|ShortName(e)|] + ShortName(e)
  }

  function ConnectionRequest(e: SenderEnv): Bytes {
    Versioned(1, 2, Encode([B(1, e.endpointId), B(2, ShortName(e)), B(6, EndpointInfo(e)), V(5, 5)]))
  }

  function ClientFinish(e: SenderEnv): Bytes {
    V1(4, 2, Encode([B(1, GenericPublic(e.p.publicPoint(e.secret)))]))
  }

  function Commitment(e: SenderEnv): Bytes { Encode([V(1, 100), B(2, e.p.sha512(ClientFinish(e)))]) }

  function ClientInit(e: SenderEnv): Bytes {
    V1(2, 2, Encode([V(1, 1), B(2, e.nonce), B(3, Commitment(e)), B(4, Ascii("AES_256_CBC-HMAC_SHA256"))]))
  }

  function ConnectionResponse(): Bytes {
    Versioned(2, 3, Encode([V(3, 1), V(7, 1), B(4, Encode([V(1, 100)]))]))
  }

  function PairedKeyEncryption(e: SenderEnv): Bytes {
    Versioned(3, 4, Encode([B(1, e.pairedData), B(2, e.pairedHash)]))
  }

  function PairedKeyResult(): Bytes { Versioned(4, 5, Encode([V(1, 3)])) }
  function KeepAliveAck(): Bytes { Versioned(5, 6, Encode([V(1, 1)])) }

  /** The public key inside a UKEY2 ServerInit. */
  function ParseServerInit(frame: Bytes): Option<Point> {
    match (GetVarint(frame, 1), GetBytes(frame, 2))
    case (Some(kind), Some(data)) =>
      if kind != 3 then None
      else (match (GetVarint(data, 1), GetVarint(data, 3), GetBytes(data, 4))
            case (Some(version), Some(cipher), Some(generic)) =>
              if version != 1 || cipher != 100 then None else ParsePublic(generic)
            case _ => None)
    case _ => None
  }

  datatype Verdict = Verdict(accepted: bool, safeDisconnect: bool)

  function ParseConnectionResponse(frame: Bytes): Option<Verdict> {
    match (GetVarint(frame, 1), GetBytes(frame, 2))
    case (Some(version), Some(v1)) =>
      if version != 1 then None
      else (match (GetVarint(v1, 1), GetBytes(v1, 3))
            case (Some(kind), Some(response)) => if kind != 2 then None else Some(ReadVerdict(response))
            case _ => None)
    case _ => None
  }

  /** A decision wins over the legacy status; with neither the connection counts as refused. */
  function ReadVerdict(response: Bytes): Verdict {
    var decision, status, safe := GetVarint(response, 3), GetVarint(response, 1), GetVarint(response, 7);
    Verdict(if decision.Some? then decision.value == 1 else status == Some(0), safe.Some? && safe.value >= 1)
  }

  // ---------------------------------------------------------------- the introduction

  function MetadataType(f: OutgoingFile): u64 {
    if Ascii("image/") <= f.mime then 1
    else if Ascii("video/") <= f.mime then 2
    else if f.apk then 3
    else if Ascii("audio/") <= f.mime then 4
    else 0
  }

  function Metadata(f: OutgoingFile): Bytes {
    Encode([B(1, f.name)] + (if MetadataType(f) != 0 then [V(2, MetadataType(f))] else [])
           + [V(3, f.id), V(4, SizeOf(f.content)), B(5, f.mime), V(6, f.id)])
  }

  function MetadataFields(files: seq<OutgoingFile>): (r: seq<Field>)
    ensures |r| == |files|
  {
    seq(|files|, i requires 0 <= i < |files| => B(1, Metadata(files[i])))
  }

  function IntroductionBody(files: seq<OutgoingFile>): Bytes { Encode(MetadataFields(files) + [V(8, 1)]) }

  function Introduction(files: seq<OutgoingFile>): Bytes { Versioned(1, 2, IntroductionBody(files)) }

  // ---------------------------------------------------------------- receiving

  datatype Received = Failed(sender: Sender) | Nothing(sender: Sender) | Got(sender: Sender, sharing: Bytes)

  function Control(s: Sender, id: u64): Bytes { if id in s.controls then s.controls[id] else [] }

  datatype ControlPacket = ControlPacket(id: u64, total: u64, flags: u64, offset: u64, body: Bytes)

  /** The sender does not look at the payload type. */
  function ParseControl(transfer: Bytes): Option<ControlPacket> {
    match (GetBytes(transfer, 2), GetBytes(transfer, 3), GetVarint(transfer, 1))
    case (Some(header), Some(chunk), Some(packetType)) =>
      if packetType != 1 then None
      else (match (GetVarint(header, 1), GetVarint(header, 3), GetVarint(chunk, 1), GetVarint(chunk, 2))
            case (Some(id), Some(total), Some(flags), Some(offset)) =>
              var body := GetBytes(chunk, 3);
              Some(ControlPacket(id, total, flags, offset, if body.Some? then body.value else []))
            case _ => None)
    case _ => None
  }

  function TakeControl(s: Sender, c: ControlPacket): Received {
    var buffer := Control(s, c.id);
    if c.total > MAX_CONTROL_PAYLOAD_SIZE || c.offset > c.total then Failed(s)
    else if |buffer| != c.offset || |c.body| > c.total - c.offset then Failed(s.(controls := s.controls - {c.id}))
    else
      var s1 := s.(controls := s.controls[c.id := buffer + c.body]);
      if c.flags % 2 != 1 then Nothing(s1)
      else if |buffer + c.body| != c.total then Failed(s1.(controls := s1.controls - {c.id}))
      else Got(s1.(controls := s1.controls - {c.id}), buffer + c.body)
  }

  function TakeOffline(e: SenderEnv, s: Sender, offline: Bytes): Received {
    match ParseOffline(offline)
    case Malformed => Failed(s)
    case KeepAlive =>
      var sent := SendOffline(e, s, KeepAliveAck());
      if sent.ok then Nothing(sent.sender) else Failed(sent.sender)
    case Disconnection => Failed(s)
    case Other => Failed(s)
    case TransferOf(None) => Failed(s)
    case TransferOf(Some(transfer)) =>
      match ParseControl(transfer)
      case None => Failed(s)
      case Some(c) => TakeControl(s, c)
  }

  function Counted(e: SenderEnv, s: Sender, secure: Bytes): Sender {
    s.(receiveSequence := CountAfter(e.p, s.receiveKeys, s.receiveSequence, secure))
  }

  function TakeSecure(e: SenderEnv, s: Sender, secure: Bytes): Received {
    var s1 := Counted(e, s, secure);
    match Open(e.p, s.receiveKeys, s.receiveSequence, secure)
    case None => Failed(s1)
    case Some(offline) => TakeOffline(e, s1, offline)
  }

  predicate DecisionAccepted(frame: Bytes) {
    match GetBytes(frame, 2)
    case None => false
    case Some(v1) =>
      match (GetVarint(v1, 1), GetBytes(v1, 3))
      case (Some(kind), Some(response)) => kind == 2 && GetVarint(response, 1) == Some(1)
      case _ => false
  }

  // ---------------------------------------------------------------- run(), up to the first file

  /** The sender opens with two frames and then answers one incoming frame at a time. */
  function Begin(e: SenderEnv, s: Sender): Sent {
    var first := SendFrame(s, ConnectionRequest(e));
    if !first.ok then first
    else SendFrame(first.sender.(stage := AwaitServerInit, clientInit := ClientInit(e)), ClientInit(e))
  }

  function TakeServerInit(e: SenderEnv, s: Sender, frame: Bytes): Sent {
    match ParseServerInit(frame)
    case None => Sent(s, false)
    case Some(peer) =>
      match Agree(e.p, e.secret, peer, s.clientInit + frame)
      case None => Sent(s, false)
      case Some(a) =>
        var keyed := s.(pin := a.pin, sendKeys := a.client, receiveKeys := a.server, stage := AwaitConnectionResponse);
        var first := SendFrame(keyed, ClientFinish(e));
        if !first.ok then first else SendFrame(first.sender, ConnectionResponse())
  }

  function TakeConnectionResponse(e: SenderEnv, s: Sender, frame: Bytes): Sent {
    match ParseConnectionResponse(frame)
    case None => Sent(s, false)
    case Some(verdict) =>
      var s1 := s.(safeDisconnect := verdict.safeDisconnect, stage := AwaitPairedKey);
      if !verdict.accepted then Sent(s1, false) else SendSharing(e, s1, PairedKeyEncryption(e))
  }

  /** What the sender does with a complete sharing frame; only the last one is looked at. */
  function TakeSharing(e: SenderEnv, s: Sender, sharing: Bytes): Sent {
    if s.stage == AwaitPairedKey then SendSharing(e, s.(stage := AwaitPairedResult), PairedKeyResult())
    else if s.stage == AwaitPairedResult then SendSharing(e, s.(stage := AwaitDecision), Introduction(e.files))
    else if !DecisionAccepted(sharing) then Sent(s, false)
    else Sent(s.(stage := Sending), true)
  }

  /** run() reads a frame in every stage but the first and the last. */
  function TakeFrame(e: SenderEnv, s: Sender, frame: Bytes): Sent {
    if !Acceptable(frame) then Sent(s, false)
    else if s.stage == AwaitServerInit then TakeServerInit(e, s, frame)
    else if s.stage == AwaitConnectionResponse then TakeConnectionResponse(e, s, frame)
    else match TakeSecure(e, s, frame)
         case Failed(s1) => Sent(s1, false)
         case Nothing(s1) => Sent(s1, true)
         case Got(s1, sharing) => TakeSharing(e, s1, sharing)
  }

  // ---------------------------------------------------------------- the files

  /** The offline frames of one file read in the pieces `chunks`, from `offset` on. */
  function ChunkFrames(f: OutgoingFile, offset: nat, chunks: seq<Bytes>): seq<Bytes>
    decreases |chunks|
  {
    if chunks == [] then [LastFrame(f.id, FILE_PAYLOAD, SizeOf(f.content), Some(f.name), offset % TWO64)]
    else
      [DataFrame(f.id, FILE_PAYLOAD, SizeOf(f.content), Some(f.name), offset % TWO64, chunks[0])]
      + ChunkFrames(f, offset + |chunks[0]|, chunks[1..])
  }

  /** Reads that together return the whole file, none of them longer than asked for. */
  ghost predicate ReadsOf(f: OutgoingFile, chunks: seq<Bytes>) {
    && Concat(chunks) == f.content
    && forall c :: c in chunks ==> |c| <= CHUNK_SIZE
  }

  function AllFrames(files: seq<OutgoingFile>, cuts: seq<seq<Bytes>>): seq<Bytes>
    requires |cuts| == |files|
  {
    if files == [] then [] else ChunkFrames(files[0], 0, cuts[0]) + AllFrames(files[1..], cuts[1..])
  }

  /** Offline frames one after the other, up to the first that cannot be sent. */
  function SendList(e: SenderEnv, s: Sender, messages: seq<Bytes>): Sent
    decreases |messages|
  {
    if messages == [] then Sent(s, true)
    else
      var first := SendOffline(e, s, messages[0]);
      if !first.ok then first else SendList(e, first.sender, messages[1..])
  }

  /** The goodbye, which asks for an acknowledgement when the receiver announced that it gives one. */
  function Goodbye(s: Sender): Bytes { Versioned(6, 7, Encode(if s.safeDisconnect then [V(1, 1)] else [])) }

  /** The frames found waiting between two chunks: only a cancellation or a fault stops the sender. */
  function Poll(e: SenderEnv, s: Sender, frames: seq<Bytes>): Sent
    decreases |frames|
  {
    if frames == [] then Sent(s, true)
    else if !Acceptable(frames[0]) then Sent(s, false)
    else match TakeSecure(e, s, frames[0])
         case Failed(s1) => Sent(s1, false)
         case Nothing(s1) => Poll(e, s1, frames[1..])
         case Got(s1, sharing) => if Cancels(sharing) then Sent(s1, false) else Poll(e, s1, frames[1..])
  }

  predicate Cancels(sharing: Bytes) {
    match GetBytes(sharing, 2)
    case None => true
    case Some(v1) => GetVarint(v1, 1) == None || GetVarint(v1, 1) == Some(6)
  }

  /** What the sender does once it may send: take the frames that have arrived, or say something. */
  datatype Action = Hears(frames: seq<Bytes>) | Says(message: Bytes)

  function ActOnce(e: SenderEnv, s: Sender, action: Action): Sent {
    match action
    case Hears(frames) => Poll(e, s, frames)
    case Says(message) => SendOffline(e, s, message)
  }

  function Act(e: SenderEnv, s: Sender, actions: seq<Action>): Sent
    decreases |actions|
  {
    if actions == [] then Sent(s, true)
    else
      var first := ActOnce(e, s, actions[0]);
      if !first.ok then first else Act(e, first.sender, actions[1..])
  }

  function Said(actions: seq<Action>): seq<Bytes> {
    if actions == [] then []
    else match actions[0]
         case Hears(_) => Said(actions[1..])
         case Says(message) => [message] + Said(actions[1..])
  }

  function Heard(actions: seq<Action>): seq<Bytes> {
    if actions == [] then []
    else match actions[0]
         case Hears(frames) => frames + Heard(actions[1..])
         case Says(_) => Heard(actions[1..])
  }

  lemma {:induction false} ActAppend(e: SenderEnv, s: Sender, first: seq<Action>, second: seq<Action>)
    ensures Said(first + second) == Said(first) + Said(second) && Heard(first + second) == Heard(first) + Heard(second)
    ensures Act(e, s, first + second) ==
      if Act(e, s, first).ok then Act(e, Act(e, s, first).sender, second) else Act(e, s, first)
    decreases |first|
  {
    hide ActOnce;
    if first == [] {
      assert first + second == second;
    } else {
      assert (first + second)[1..] == first[1..] + second;
      ActAppend(e, ActOnce(e, s, first[0]).sender, first[1..], second);
    }
  }

  /** All files in reads of any size, and the goodbye. */
  ghost predicate AllSaid(files: seq<OutgoingFile>, cuts: seq<seq<Bytes>>, s: Sender, actions: seq<Action>) {
    && |cuts| == |files| && (forall k :: 0 <= k < |files| ==> ReadsOf(files[k], cuts[k]))
    && Said(actions) == AllFrames(files, cuts) + [Goodbye(s)]
  }

  /** Towards a silent receiver all that matters is what is said. */
  lemma {:induction false} QuietActs(e: SenderEnv, s: Sender, actions: seq<Action>)
    requires Heard(actions) == []
    ensures Act(e, s, actions) == SendList(e, s, Said(actions))
    decreases |actions|
  {
    hide SendOffline, TakeSecure;
    if actions != [] {
      match actions[0]
      case Hears(frames) =>
        assert |Heard(actions)| == |frames| + |Heard(actions[1..])|;
        QuietActs(e, s, actions[1..]);
      case Says(message) =>
        assert ([message] + Said(actions[1..]))[1..] == Said(actions[1..]);
        QuietActs(e, SendOffline(e, s, message).sender, actions[1..]);
    }
  }

  // ---------------------------------------------------------------- run(), over all that arrives

  /** The run from the opening frames on, until the sender may send; how many frames it took for that.
      With no frame left the wait for one runs out of time. */
  datatype Talked = Talked(sender: Sender, ok: bool, taken: nat)

  function Talk(e: SenderEnv, s: Sender, incoming: seq<Bytes>): (r: Talked)
    ensures r.taken <= |incoming|
    decreases |incoming|
  {
    if s.stage == Sending then Talked(s, true, 0)
    else if incoming == [] then Talked(s, false, 0)
    else
      var first := TakeFrame(e, s, incoming[0]);
      if !first.ok then Talked(first.sender, false, 1)
      else
        var rest := Talk(e, first.sender, incoming[1..]);
        rest.(taken := rest.taken + 1)
  }

  /** The frame on which the introduction goes out. */
  predicate Introduces(e: SenderEnv, s: Sender, frame: Bytes) {
    s.stage == AwaitPairedResult && Acceptable(frame) && TakeSecure(e, s, frame).Got?
  }

  // ---------------------------------------------------------------- payload identifiers

  /** The identifier drawn for file k: the first file's is made negative. */
  function FirstDraw(draws: (nat, nat) -> u64, k: nat): u64 {
    if k == 0 then Negative(draws(0, 0)) else draws(k, 0)
  }

  predicate Collides(draws: (nat, nat) -> u64, k: nat) {
    exists i: nat :: i < k && FirstDraw(draws, i) == FirstDraw(draws, k)
  }

  ghost predicate AnyCollision(draws: (nat, nat) -> u64, n: nat) { exists k: nat :: k < n && Collides(draws, k) }

  /** The flag that ends the redraw loop is never cleared, so that a later draw does not help: here the
      second file's first draw collides and every other draw would do. */
  lemma RedrawDoesNotHelp()
    ensures var draws: (nat, nat) -> u64 := (k, attempt) => if attempt == 0 then TWO63 else attempt % TWO63;
      Collides(draws, 1) && forall attempt: nat :: 0 < attempt < TWO63 ==> draws(1, attempt) != FirstDraw(draws, 0)
  {
    var draws: (nat, nat) -> u64 := (k, attempt) => if attempt == 0 then TWO63 else attempt % TWO63;
    assert FirstDraw(draws, 0) == FirstDraw(draws, 1);
  }

  function WithIds(files: seq<OutgoingFile>, draws: (nat, nat) -> u64): (r: seq<OutgoingFile>)
    ensures |r| == |files|
  {
    seq(|files|, i requires 0 <= i < |files| => files[i].(id := FirstDraw(draws, i)))
  }

  lemma WithIdsDistinct(files: seq<OutgoingFile>, draws: (nat, nat) -> u64)
    requires forall k: nat :: k < |files| ==> !Collides(draws, k)
    ensures forall i, j :: 0 <= i < j < |files| ==> WithIds(files, draws)[i].id != WithIds(files, draws)[j].id
  {
    forall i, j | 0 <= i < j < |files|
      ensures WithIds(files, draws)[i].id != WithIds(files, draws)[j].id
    {
      assert !Collides(draws, j);
    }
  }
}
