/** Length-prefixed frames over a byte stream that delivers in arbitrary short reads
    (readFrame, sendFrame, receiveExact and sendAll, the same on both ends). */
module Framing {
  import opened ByteStrings

  const MAX_FRAME_SIZE := 5 * 1024 * 1024

  predicate Acceptable(frame: Bytes) { 0 < |frame| <= MAX_FRAME_SIZE }

  /** The length is written in 32 bits. */
  function FrameBytes(frame: Bytes): Bytes { Word32(|frame| % TWO32) + frame }

  datatype ReadResult = Frame(frame: Bytes, rest: Bytes) | Refused | Short

  function ReadOne(stream: Bytes): ReadResult {
    if |stream| < 4 then Short
    else
      var length := FromWord32(stream[..4]);
      if length == 0 || length > MAX_FRAME_SIZE then Refused
      else if |stream| - 4 < length then Short
      else Frame(stream[4..4 + length], stream[4 + length..])
  }

  /** The number that the first four bytes denote, the high one first. */
  function SizeOn(stream: Bytes): nat
    requires |stream| >= 4
  {
    ((stream[0] as int * 256 + stream[1]) * 256 + stream[2]) * 256 + stream[3]
  }

  /** A frame is taken exactly if the stream is its size, the frame and the rest, the size being from one byte to
      five mebibytes; and it is refused exactly if another size is announced. */
  lemma FrameMeaning(stream: Bytes, frame: Bytes, rest: Bytes)
    ensures ReadOne(stream) == Frame(frame, rest) <==>
      && |stream| >= 4 && stream[4..] == frame + rest
      && |frame| == SizeOn(stream) && 0 < |frame| <= 5 * 1024 * 1024
    ensures ReadOne(stream).Refused? <==> |stream| >= 4 && !(0 < SizeOn(stream) <= 5 * 1024 * 1024)
  {
    if |stream| >= 4 {
      var length := FromWord32(stream[..4]);
      assert stream[..4][..2] == stream[..2] && stream[..4][2..] == stream[2..4];
      assert length == SizeOn(stream);
      if length <= |stream| - 4 {
        assert stream[4..] == stream[4..4 + length] + stream[4 + length..];
      }
      if stream[4..] == frame + rest && |frame| == length {
        assert stream[4..][..length] == frame && stream[4..][length..] == rest;
        assert stream[4..4 + length] == frame && stream[4 + length..] == rest;
      }
    }
  }

  /** And so it is written. */
  lemma SizeWritten(frame: Bytes)
    requires |frame| < TWO32
    ensures SizeOn(FrameBytes(frame)) == |frame| && FrameBytes(frame)[4..] == frame
  {
    var b := FrameBytes(frame);
    Word32RoundTrip(|frame|);
    assert b[..4] == Word32(|frame|);
    assert b[..4][..2] == b[..2] && b[..4][2..] == b[2..4];
    assert FromWord32(b[..4]) == SizeOn(b);
  }

  /** All the frames a reader takes from a stream before it stops. */
  function ReadAll(stream: Bytes): seq<Bytes>
    decreases |stream|
  {
    match ReadOne(stream)
    case Frame(frame, rest) => [frame] + ReadAll(rest)
    case _ => []
  }

  function Stream(frames: seq<Bytes>): Bytes {
    if frames == [] then [] else FrameBytes(frames[0]) + Stream(frames[1..])
  }

  lemma ReadOneFrame(frame: Bytes, rest: Bytes)
    requires |frame| < TWO32
    ensures ReadOne(FrameBytes(frame) + rest) == if Acceptable(frame) then Frame(frame, rest) else Refused
  {
    var stream := FrameBytes(frame) + rest;
    Word32RoundTrip(|frame|);
    assert stream[..4] == Word32(|frame|);
    assert stream[4..][..|frame|] == frame;
    if Acceptable(frame) {
      assert stream[4..4 + |frame|] == frame;
      assert stream[4 + |frame|..] == rest;
    }
  }

  /** The frames up to the first one whose size the reader refuses. */
  function AcceptedPrefix(frames: seq<Bytes>): seq<Bytes> {
    if frames == [] || !Acceptable(frames[0]) then [] else [frames[0]] + AcceptedPrefix(frames[1..])
  }

  /** Whatever frames were sent, the reader recovers exactly those before the first unacceptable one. */
  lemma {:induction false} StreamRoundTrip(frames: seq<Bytes>)
    requires forall f :: f in frames ==> |f| < TWO32
    ensures ReadAll(Stream(frames)) == AcceptedPrefix(frames)
    ensures ReadAll(Stream(frames)) == frames <==> forall f :: f in frames ==> Acceptable(f)
  {
    if frames != [] {
      var rest := frames[1..];
      assert frames[0] in frames;
      ReadOneFrame(frames[0], Stream(rest));
      StreamRoundTrip(rest);
      assert [frames[0]] + rest == frames;
      if Acceptable(frames[0]) {
        assert forall f :: f in frames <==> f == frames[0] || f in rest;
        assert [frames[0]] + ReadAll(Stream(rest)) == frames ==> ([frames[0]] + ReadAll(Stream(rest)))[1..] == rest;
        assert ([frames[0]] + ReadAll(Stream(rest)))[1..] == ReadAll(Stream(rest));
      }
    }
  }

  /** One end of a connection: what the peer has still to deliver, and what was given to the peer. */
  class Socket {
    var incoming: Bytes
    var outgoing: Bytes

    constructor (incoming: Bytes)
      ensures this.incoming == incoming && outgoing == []
    {
      this.incoming := incoming;
      outgoing := [];
    }

    /** Any positive number of the bytes asked for; nothing once the stream has ended. */
    method Recv(most: nat) returns (data: Bytes)
      requires most > 0
      modifies this
      ensures |data| <= most && old(incoming) == data + incoming
      ensures data == [] ==> incoming == []
      ensures outgoing == old(outgoing)
    {
      if incoming == [] {
        return [];
      }
      var n :| 0 < n <= most && n <= |incoming|;
      data := incoming[..n];
      incoming := incoming[n..];
    }

    method Send(data: Bytes) returns (count: nat)
      requires data != []
      modifies this
      ensures 0 < count <= |data| && outgoing == old(outgoing) + data[..count]
      ensures incoming == old(incoming)
    {
      count :| 0 < count <= |data|;
      outgoing := outgoing + data[..count];
    }

    method ReceiveExact(size: nat) returns (ok: bool, data: Bytes)
      modifies this
      ensures ok <==> |old(incoming)| >= size
      ensures ok ==> data == old(incoming)[..size] && incoming == old(incoming)[size..]
      ensures outgoing == old(outgoing)
    {
      data := [];
      while |data| < size
        invariant |data| <= size && old(incoming) == data + incoming
        invariant outgoing == old(outgoing)
        decreases size - |data|
      {
        var count := Recv(size - |data|);
        if count == [] {
          return false, data;
        }
        data := data + count;
      }
      return true, data;
    }

    method SendAll(data: Bytes)
      modifies this
      ensures outgoing == old(outgoing) + data && incoming == old(incoming)
    {
      var done := 0;
      while done < |data|
        invariant done <= |data| && outgoing == old(outgoing) + data[..done]
        invariant incoming == old(incoming)
      {
        var count := Send(data[done..]);
        assert data[..done] + data[done..][..count] == data[..done + count];
        done := done + count;
      }
      assert data[..|data|] == data;
    }

    /** However the stream is cut into reads, the outcome is that of the whole stream. */
    method ReadFrame() returns (ok: bool, frame: Bytes)
      modifies this
      ensures match ReadOne(old(incoming))
              case Frame(f, rest) => ok && frame == f && incoming == rest
              case _ => !ok
      ensures outgoing == old(outgoing)
    {
      frame := [];
      var okLength, lengthBytes := ReceiveExact(4);
      if !okLength {
        return false, frame;
      }
      var length := FromWord32(lengthBytes);
      if length == 0 || length > MAX_FRAME_SIZE {
        return false, frame;
      }
      ok, frame := ReceiveExact(length);
    }

    method SendFrame(frame: Bytes)
      modifies this
      ensures outgoing == old(outgoing) + FrameBytes(frame) && incoming == old(incoming)
    {
      SendAll(Word32(|frame| % TWO32));
      SendAll(frame);
    }
  }
}
