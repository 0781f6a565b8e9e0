/**
 Length-prefixed framing: a four-byte big-endian length, then 1 to 64 MiB of payload
 (crates/agent-protocol/src/wire.rs).
 */
module Wire {
  import opened Bytes

  const MAX_FRAME_BYTES: nat := 64 * 1024 * 1024

  const HEADER_BYTES: nat := 4

  predicate Sendable(payload: seq<byte>) {
    1 <= |payload| <= MAX_FRAME_BYTES
  }

  function Encode(payload: seq<byte>): seq<byte> {
    BigEndian(|payload|, HEADER_BYTES) + payload
  }

  /** What one read of a frame finds in the bytes that have arrived. */
  datatype FrameRead =
    | Whole(payload: seq<byte>, rest: seq<byte>)  // one complete frame
    | NoBytes                                     // nothing there: clean end once the peer is gone
    | ShortHeader | ShortPayload                  // torn inside the frame: an I/O error once the peer is gone
    | BadLength(length: nat)                      // a length outside 1..=maximum

  function ReadOne(stream: seq<byte>): (r: FrameRead)
    ensures r.Whole? ==> |r.rest| < |stream| && Sendable(r.payload) && stream == Encode(r.payload) + r.rest
  {
    if stream == [] then NoBytes
    else if |stream| < 4 then ShortHeader
    else
      var length := FromBigEndian(stream[..4]);
      if length == 0 || length > MAX_FRAME_BYTES then BadLength(length)
      else if |stream| < 4 + length then ShortPayload
      else
        HeaderIsCanonical(stream[..4]);
        assert stream == stream[..4] + stream[4..4 + length] + stream[4 + length..];
        Whole(stream[4..4 + length], stream[4 + length..])
  }

  lemma LowByte(n: nat, b: byte)
    ensures (256 * n + b) / 256 == n && (256 * n + b) % 256 == b
  {
  }

  lemma {:induction false} HeaderIsCanonical(header: seq<byte>)
    ensures BigEndian(FromBigEndian(header), |header|) == header
  {
    if header != [] {
      var front, last := header[..|header| - 1], header[|header| - 1];
      HeaderIsCanonical(front);
      LowByte(FromBigEndian(front), last);
      assert header == front + [last];
    }
  }

  /**
   What a stream that starts with any four-byte length is read as: the length is refused outside
   1..=64 MiB, and otherwise decides how much of what follows is the payload.
   */
  lemma LengthDecides(n: nat, rest: seq<byte>)
    requires n < 0x1_0000_0000
    ensures ReadOne(BigEndian(n, 4) + rest) ==
            if n == 0 || n > 67_108_864 then BadLength(n)
            else if |rest| < n then ShortPayload
            else Whole(rest[..n], rest[n..])
  {
    Widths();
    BigEndianRoundTrip(n, 4);
    var stream := BigEndian(n, 4) + rest;
    assert stream[..4] == BigEndian(n, 4);
    if n <= |rest| {
      assert stream[4..4 + n] == rest[..n] && stream[4 + n..] == rest[n..];
    }
  }

  /** So a length is refused exactly in streams that start with a refused length. */
  lemma BadLengthExactly(stream: seq<byte>, n: nat)
    ensures ReadOne(stream) == BadLength(n) <==>
              && |stream| >= 4 && n < 0x1_0000_0000 && (n == 0 || n > 67_108_864) && stream[..4] == BigEndian(n, 4)
  {
    if |stream| >= 4 {
      Widths();
      HeaderIsCanonical(stream[..4]);
      if n < 0x1_0000_0000 { BigEndianRoundTrip(n, 4); }
    }
  }

  /** A whole frame is read back, whatever follows it. */
  lemma ReadsBackFrame(payload: seq<byte>, rest: seq<byte>)
    requires Sendable(payload)
    ensures ReadOne(Encode(payload) + rest) == Whole(payload, rest)
  {
    Widths();
    BigEndianRoundTrip(|payload|, 4);
    var stream := Encode(payload) + rest;
    assert stream[..4] == BigEndian(|payload|, 4);
    assert stream[4..4 + |payload|] == payload;
    assert stream[4 + |payload|..] == rest;
  }

  /** A proper prefix of a frame is never taken for a frame, nor for a bad length. */
  lemma TornFrame(payload: seq<byte>, arrived: nat)
    requires Sendable(payload) && arrived < |Encode(payload)|
    ensures ReadOne(Encode(payload)[..arrived]) ==
            if arrived == 0 then NoBytes else if arrived < 4 then ShortHeader else ShortPayload
  {
    Widths();
    BigEndianRoundTrip(|payload|, 4);
    if arrived >= 4 {
      assert Encode(payload)[..arrived][..4] == BigEndian(|payload|, 4);
    }
  }

  // ---------------------------------------------------------------- whole streams

  function EncodeAll(payloads: seq<seq<byte>>): seq<byte> {
    if payloads == [] then [] else Encode(payloads[0]) + EncodeAll(payloads[1..])
  }

  predicate AllSendable(payloads: seq<seq<byte>>) {
    forall i :: 0 <= i < |payloads| ==> Sendable(payloads[i])
  }

  /** The frames a reader takes from a finished stream, and what its last read finds. */
  datatype Reading = Reading(frames: seq<seq<byte>>, ending: FrameRead)

  function ReadAll(stream: seq<byte>): (r: Reading)
    ensures !r.ending.Whole?
    decreases |stream|
  {
    match ReadOne(stream)
    case Whole(payload, rest) =>
      var more := ReadAll(rest);
      Reading([payload] + more.frames, more.ending)
    case other => Reading([], other)
  }

  /** How many of the frames lie completely within the first `arrived` bytes. */
  function WholeWithin(payloads: seq<seq<byte>>, arrived: nat): (n: nat)
    ensures n <= |payloads|
  {
    if payloads == [] || arrived < |Encode(payloads[0])| then 0
    else 1 + WholeWithin(payloads[1..], arrived - |Encode(payloads[0])|)
  }

  /**
   Cut a stream of frames anywhere: the reader gets exactly the frames that arrived whole,
   and sees a clean end exactly when the cut is on a frame boundary. A cut inside a frame is
   a torn read, never a bad length and never a frame of its own.
   */
  lemma {:induction false} TruncatedStream(payloads: seq<seq<byte>>, arrived: nat)
    requires AllSendable(payloads) && arrived <= |EncodeAll(payloads)|
    ensures var n := WholeWithin(payloads, arrived);
            var r := ReadAll(EncodeAll(payloads)[..arrived]);
            && r.frames == payloads[..n]
            && |EncodeAll(payloads[..n])| <= arrived
            && (r.ending == NoBytes <==> arrived == |EncodeAll(payloads[..n])|)
            && !r.ending.BadLength?
  {
    var stream := EncodeAll(payloads)[..arrived];
    if payloads != [] {
      var first := Encode(payloads[0]);
      if arrived < |first| {
        assert stream == first[..arrived];
        TornFrame(payloads[0], arrived);
      } else {
        var rest := EncodeAll(payloads[1..])[..arrived - |first|];
        assert stream == first + rest;
        ReadsBackFrame(payloads[0], rest);
        TruncatedStream(payloads[1..], arrived - |first|);
        var n := WholeWithin(payloads, arrived);
        assert payloads[..n] == [payloads[0]] + payloads[1..][..n - 1];
        assert payloads[..n][1..] == payloads[1..][..n - 1];
      }
    }
  }

  lemma {:induction false} AllWithin(payloads: seq<seq<byte>>)
    ensures WholeWithin(payloads, |EncodeAll(payloads)|) == |payloads|
  {
    if payloads != [] { AllWithin(payloads[1..]); }
  }

  /** Reading the concatenated encodings returns the very list, then a clean end. */
  lemma StreamRoundTrip(payloads: seq<seq<byte>>)
    requires AllSendable(payloads)
    ensures ReadAll(EncodeAll(payloads)) == Reading(payloads, NoBytes)
  {
    AllWithin(payloads);
    TruncatedStream(payloads, |EncodeAll(payloads)|);
    assert EncodeAll(payloads)[..|EncodeAll(payloads)|] == EncodeAll(payloads);
    assert payloads[..|payloads|] == payloads;
  }

  /** Frames and then anything: the frames are read back and what follows decides the ending. */
  lemma {:induction false} ReadsBackFrames(payloads: seq<seq<byte>>, tail: seq<byte>)
    requires AllSendable(payloads)
    ensures ReadAll(EncodeAll(payloads) + tail) == Reading(payloads + ReadAll(tail).frames, ReadAll(tail).ending)
  {
    if payloads == [] {
      assert EncodeAll(payloads) + tail == tail;
    } else {
      var first, rest, more := Encode(payloads[0]), EncodeAll(payloads[1..]) + tail, ReadAll(tail).frames;
      ReadsBackFrames(payloads[1..], tail);
      ReadsBackFrame(payloads[0], rest);
      Associative(first, EncodeAll(payloads[1..]), tail);
      Associative([payloads[0]], payloads[1..], more);
      assert payloads == [payloads[0]] + payloads[1..];
    }
  }

  /** The reader takes a stream apart without losing a byte: it is its frames plus an unread tail. */
  lemma {:induction false} ReadingIsExact(stream: seq<byte>) returns (tail: seq<byte>)
    ensures AllSendable(ReadAll(stream).frames)
    ensures stream == EncodeAll(ReadAll(stream).frames) + tail
    ensures ReadOne(tail) == ReadAll(stream).ending
    decreases |stream|
  {
    match ReadOne(stream)
    case Whole(payload, rest) =>
      tail := ReadingIsExact(rest);
      var more := ReadAll(rest).frames;
      assert ([payload] + more)[1..] == more;
      assert stream == Encode(payload) + (EncodeAll(more) + tail);
    case other => tail := stream;
  }

  // ---------------------------------------------------------------- the two procedures

  datatype WriteEnd = Written | TooLarge | HeaderFailed | PayloadFailed | FlushFailed

  /** One end of a byte transport: what it still has to read and what it has written. */
  class ByteStream {
    var unread: seq<byte>
    var written: seq<byte>

    constructor (inbound: seq<byte>)
      ensures unread == inbound && written == []
    {
      unread, written := inbound, [];
    }

    /** `read_exact`: fills the whole buffer or fails, having taken what there was. */
    method ReadExact(buffer: array<byte>, from: nat) returns (ok: bool)
      requires from <= buffer.Length
      modifies this`unread, buffer
      ensures ok <==> buffer.Length - from <= |old(unread)|
      ensures buffer[..from] == old(buffer[..from])
      ensures ok ==> buffer[from..] == old(unread)[..buffer.Length - from]
      ensures ok ==> unread == old(unread)[buffer.Length - from..]
      ensures !ok ==> unread == []
    {
      var i := from;
      while i < buffer.Length && unread != []
        invariant from <= i <= buffer.Length
        invariant i - from <= |old(unread)|
        invariant unread == old(unread)[i - from..]
        invariant buffer[..from] == old(buffer[..from])
        invariant buffer[from..i] == old(unread)[..i - from]
      {
        buffer[i] := unread[0];
        unread := unread[1..];
        i := i + 1;
      }
      ok := i == buffer.Length;
    }

    /** `read_frame_with_limit` on a stream whose sender is done. */
    method ReadFrame() returns (r: FrameRead)
      modifies this`unread
      ensures r == ReadOne(old(unread))
      ensures r.Whole? ==> unread == r.rest
    {
      if unread == [] { return NoBytes; }
      var header := new byte[4](_ => 0);
      header[0] := unread[0];
      unread := unread[1..];
      ghost var all := old(unread);
      var ok := ReadExact(header, 1);
      if !ok { return ShortHeader; }
      assert header[..] == [header[..1][0]] + header[1..] == all[..4];
      var length := FromBigEndian(header[..]);
      if length == 0 || length > MAX_FRAME_BYTES { return BadLength(length); }
      var payload := new byte[length](_ => 0);
      ok := ReadExact(payload, 0);
      if !ok { return ShortPayload; }
      assert payload[..] == payload[0..] == all[4..4 + length];
      return Whole(payload[..], unread);
    }

    /**
     `write_frame` on a transport that takes `room` more bytes before it fails: what got out is
     always a prefix of the frame, the whole of it on success, nothing when the length is refused.
     */
    method WriteFrame(payload: seq<byte>, room: nat, flushes: bool) returns (end: WriteEnd)
      modifies this`written
      ensures end == TooLarge <==> !Sendable(payload)
      ensures end == TooLarge ==> written == old(written)
      ensures end != TooLarge ==>
                written == old(written) + (if room < |Encode(payload)| then Encode(payload)[..room] else Encode(payload))
      ensures end == HeaderFailed <==> Sendable(payload) && room < 4
      ensures end == PayloadFailed <==> Sendable(payload) && 4 <= room < |Encode(payload)|
      ensures end == Written <==> Sendable(payload) && room >= |Encode(payload)| && flushes
    {
      if |payload| == 0 || |payload| > MAX_FRAME_BYTES { return TooLarge; }
      var header := BigEndian(|payload|, 4);
      if room < 4 {
        written := written + header[..room];
        assert header[..room] == Encode(payload)[..room];
        return HeaderFailed;
      }
      written := written + header;
      if room - 4 < |payload| {
        written := written + payload[..room - 4];
        assert Encode(payload)[..room] == header + payload[..room - 4];
        return PayloadFailed;
      }
      written := written + payload;
      return if flushes then Written else FlushFailed;
    }
  }
}
