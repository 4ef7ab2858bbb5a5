/** Byte payloads may arrive interleaved under many identifiers; each is put together from its own
    chunks alone. */
module Interleaving {
  import opened ByteStrings
  import opened Frames
  import opened Receiver
  import S = Sender

  /** The session after a list of chunks, unless one was refused. */
  function After(s: Session, packets: seq<Packet>): Option<Session> {
    if packets == [] then Some(s)
    else match After(s, packets[..|packets| - 1])
         case None => None
         case Some(t) =>
           match Reassemble(t, packets[|packets| - 1])
           case Refused(_) => None
           case Partial(u) => Some(u)
           case Complete(u, _) => Some(u)
  }

  /** The bodies sent under `id` since its last payload was finished. */
  function Pending(packets: seq<Packet>, id: int): Bytes {
    if packets == [] then []
    else
      var last, before := packets[|packets| - 1], Pending(packets[..|packets| - 1], id);
      if ToInt64(last.id) != id then before
      else if Last(last.flags) then []
      else before + last.body
  }

  function Own(packets: seq<Packet>, id: int): seq<Packet> {
    if packets == [] then []
    else
      var last, before := packets[|packets| - 1], Own(packets[..|packets| - 1], id);
      if ToInt64(last.id) == id then before + [last] else before
  }

  /** After any accepted interleaving every buffer holds exactly its own pending bodies. */
  lemma {:induction false} BuffersArePending(s: Session, packets: seq<Packet>, id: int)
    requires s.buffers == map[] && After(s, packets).Some?
    ensures Buffer(After(s, packets).value, id) == Pending(packets, id)
  {
    if packets != [] {
      BuffersArePending(s, packets[..|packets| - 1], id);
    }
  }

  /** Chunks of other payloads make no difference to a payload. */
  lemma {:induction false} OthersDoNotMatter(packets: seq<Packet>, id: int)
    ensures Pending(packets, id) == Pending(Own(packets, id), id)
  {
    if packets != [] {
      var n := |packets| - 1;
      OthersDoNotMatter(packets[..n], id);
      var own := Own(packets[..n], id);
      assert (own + [packets[n]])[..|own|] == own;
    }
  }

  /** What a completing chunk delivers is the concatenation of the payload's own chunks, of the
      declared size; and in its place the buffer is free again. */
  lemma PayloadIsItsChunks(s: Session, packets: seq<Packet>, last: Packet)
    requires s.buffers == map[] && After(s, packets).Some?
    requires Reassemble(After(s, packets).value, last).Complete?
    ensures var id := ToInt64(last.id); var done := Reassemble(After(s, packets).value, last);
      && done.payload == Pending(Own(packets, id), id) + last.body
      && |done.payload| == last.total && id !in done.session.buffers
  {
    var id := ToInt64(last.id);
    BuffersArePending(s, packets, id);
    OthersDoNotMatter(packets, id);
  }

  // ---------------------------------------------------------------- the sender's control payloads

  /** The sender keeps buffers the same way, under unsigned identifiers and without a common limit. */
  function SenderAfter(s: S.Sender, chunks: seq<S.ControlPacket>): Option<S.Sender> {
    if chunks == [] then Some(s)
    else match SenderAfter(s, chunks[..|chunks| - 1])
         case None => None
         case Some(t) =>
           match S.TakeControl(t, chunks[|chunks| - 1])
           case Failed(_) => None
           case Nothing(u) => Some(u)
           case Got(u, _) => Some(u)
  }

  function SenderPending(chunks: seq<S.ControlPacket>, id: u64): Bytes {
    if chunks == [] then []
    else
      var last, before := chunks[|chunks| - 1], SenderPending(chunks[..|chunks| - 1], id);
      if last.id != id then before else if last.flags % 2 == 1 then [] else before + last.body
  }

  lemma {:induction false} ControlsArePending(s: S.Sender, chunks: seq<S.ControlPacket>, id: u64)
    requires s.controls == map[] && SenderAfter(s, chunks).Some?
    ensures S.Control(SenderAfter(s, chunks).value, id) == SenderPending(chunks, id)
  {
    if chunks != [] {
      ControlsArePending(s, chunks[..|chunks| - 1], id);
    }
  }

  /** So the sender, too, puts every sharing frame together from its own chunks alone. */
  lemma SharingFrameIsItsChunks(s: S.Sender, chunks: seq<S.ControlPacket>, last: S.ControlPacket)
    requires s.controls == map[] && SenderAfter(s, chunks).Some?
    requires S.TakeControl(SenderAfter(s, chunks).value, last).Got?
    ensures var got := S.TakeControl(SenderAfter(s, chunks).value, last);
      && got.sharing == SenderPending(chunks, last.id) + last.body
      && |got.sharing| == last.total <= S.MAX_CONTROL_PAYLOAD_SIZE && last.id !in got.sender.controls
  {
    ControlsArePending(s, chunks, last.id);
  }
}
