/**
 The client connection shared by all clones: one call under the lock, and close
 (crates/agent-protocol/src/client.rs). The stream's unread bytes are what the peer sends.
 */
module Client {
  import opened Bytes
  import opened Model
  import opened Session
  import opened Wire

  datatype CallResult =
    | Success(response: Response)
    | GuestError(error: Text)        // a complete, correlated failure
    | NotAllowed                     // malformed or not advertised: refused before the lock
    | AlreadyClosed | AlreadyPoisoned | IdsExhausted
    | Faulted(stage: Stage)
    | WriteFailed | PeerClosed | ReadFailed | Undecodable | Uncorrelated | Inadmissible | Misfit
    | Dropped                        // the future was cancelled
  {
    predicate Complete() { Success? || GuestError? }
  }

  /** The client writes a request only if it is well formed and the guest advertises its operation. */
  predicate Allowed(wellFormed: Request -> bool, advertised: set<Operation>, request: Request) {
    wellFormed(request) && request.operation in advertised
  }

  /** The two awaits of a call, where its future can be dropped. */
  datatype Await = WritingRequest | ReadingResponse

  /** What happens to one call: faults met, bytes the transport takes, flush, and cancellation. */
  datatype Fate = Fate(faults: set<Stage>, room: nat, flushes: bool, dropped: Option<Await>)

  /** The host's verdict on a response envelope. */
  function JudgedEnvelope(u: Setup, e: ResponseEnvelope, id: nat, request: Request): CallResult {
    if e.version != u.version || e.id != id then Uncorrelated
    else match e.outcome
      case Failed(error) => GuestError(error)
      case Succeeded(response) =>
        if !u.admissible(response) then Inadmissible
        else if !u.fits(request, response) then Misfit
        else Success(response)
  }

  /** The host's verdict on the first frame the peer sends. */
  function Judged(u: Setup, unread: seq<byte>, id: nat, request: Request): CallResult {
    match ReadOne(unread)
    case NoBytes => PeerClosed
    case Whole(payload, _) =>
      (match u.decodeResponse(payload)
       case None => Undecodable
       case Some(e) => JudgedEnvelope(u, e, id, request))
    case _ => ReadFailed
  }

  /**
   A call succeeds exactly with the response that a whole frame of this version and this call's ID
   carries, if both checks let it through; and it fails exactly with the error such a frame carries.
   */
  lemma JudgedExactly(u: Setup, unread: seq<byte>, id: nat, request: Request, response: Response, error: Text)
    ensures Judged(u, unread, id, request) == Success(response) <==>
              && ReadOne(unread).Whole?
              && u.decodeResponse(ReadOne(unread).payload) == Some(ResponseEnvelope(u.version, id, Succeeded(response)))
              && u.admissible(response) && u.fits(request, response)
    ensures Judged(u, unread, id, request) == GuestError(error) <==>
              && ReadOne(unread).Whole?
              && u.decodeResponse(ReadOne(unread).payload) == Some(ResponseEnvelope(u.version, id, Failed(error)))
  {
  }

  /** So a reply to any other call, or of another version, costs the connection. */
  lemma StrayReplyRefused(u: Setup, unread: seq<byte>, id: nat, request: Request, e: ResponseEnvelope)
    requires ReadOne(unread).Whole? && u.decodeResponse(ReadOne(unread).payload) == Some(e)
    requires e.id != id || e.version != u.version
    ensures !Judged(u, unread, id, request).Complete()
  {
  }

  /** Nothing keeps the request from going out whole. */
  predicate GoesOut(fate: Fate, payload: seq<byte>) {
    && HostBeforeRequestWrite !in fate.faults && Sendable(payload)
    && fate.dropped != Some(WritingRequest) && fate.room >= |Encode(payload)| && fate.flushes
  }

  /** Nothing keeps the first frame of the peer from being judged. */
  predicate ComesBack(fate: Fate, judged: CallResult) {
    && HostAfterRequestWrite !in fate.faults && HostBeforeResponseRead !in fate.faults
    && fate.dropped != Some(ReadingResponse)
    && (HostAfterResponseRead !in fate.faults || judged.PeerClosed? || judged.ReadFailed? || judged.Undecodable?)
  }

  /** What gets out of a call's frame. */
  function SentBytes(fate: Fate, payload: seq<byte>): seq<byte> {
    if HostBeforeRequestWrite in fate.faults || !Sendable(payload) then []
    else if fate.room < |Encode(payload)| then Encode(payload)[..fate.room]
    else Encode(payload)
  }

  /** How a call ends before its frame is out, if it does. */
  function SendResult(fate: Fate, payload: seq<byte>): Option<CallResult> {
    if HostBeforeRequestWrite in fate.faults then Some(Faulted(HostBeforeRequestWrite))
    else if !Sendable(payload) then Some(WriteFailed)
    else if fate.dropped == Some(WritingRequest) then Some(Dropped)
    else if fate.room < |Encode(payload)| || !fate.flushes then Some(WriteFailed)
    else None
  }

  /** How it ends after that. */
  function ReceiveResult(u: Setup, fate: Fate, unread: seq<byte>, id: nat, request: Request): CallResult {
    var judged := Judged(u, unread, id, request);
    if HostAfterRequestWrite in fate.faults then Faulted(HostAfterRequestWrite)
    else if HostBeforeResponseRead in fate.faults then Faulted(HostBeforeResponseRead)
    else if fate.dropped == Some(ReadingResponse) then Dropped
    else if HostAfterResponseRead in fate.faults && !judged.PeerClosed? && !judged.ReadFailed? && !judged.Undecodable?
    then Faulted(HostAfterResponseRead)
    else judged
  }

  function ResultOf(u: Setup, fate: Fate, unread: seq<byte>, id: nat, request: Request): CallResult {
    match SendResult(fate, u.encodeRequest(RequestEnvelope(u.version, id, request)))
    case Some(r) => r
    case None => ReceiveResult(u, fate, unread, id, request)
  }

  datatype ShutdownEnd = ShutDown | PeerAlreadyGone | Broken

  datatype CloseResult = Closed | ShutdownFault | ShutdownFailed

  class ClientConnection {
    const u: Setup
    const wellFormed: Request -> bool
    const advertised: set<Operation>
    var stream: ByteStream?
    var nextRequestId: nat
    var poisoned: bool
    var closed: bool

    /** A stream is held exactly until the connection is poisoned, and closing poisons. */
    ghost predicate Valid()
      reads this
    {
      && (poisoned <==> stream == null)
      && (closed ==> poisoned)
      && 1 <= nextRequestId <= LAST_ID
    }

    constructor (u: Setup, wellFormed: Request -> bool, advertised: set<Operation>, stream: ByteStream)
      ensures Valid() && !poisoned && !closed && nextRequestId == 1
      ensures this.stream == stream && this.u == u && this.wellFormed == wellFormed && this.advertised == advertised
    {
      this.u, this.wellFormed, this.advertised := u, wellFormed, advertised;
      this.stream, nextRequestId, poisoned, closed := stream, 1, false, false;
    }

    function Payload(id: nat, request: Request): seq<byte> {
      u.encodeRequest(RequestEnvelope(u.version, id, request))
    }

    method PoisonAndRelease()
      modifies this`poisoned, this`stream
      ensures poisoned && stream == null
    {
      poisoned := true;
      stream := null;
    }

    /** From the fault check before the write to the end of the write. */
    method SendRequest(id: nat, request: Request, fate: Fate) returns (r: Option<CallResult>)
      requires Valid() && !poisoned
      modifies this`poisoned, this`stream, stream`written
      ensures r == SendResult(fate, Payload(id, request)) && (r.None? <==> GoesOut(fate, Payload(id, request)))
      ensures old(stream).written == old(stream.written) + SentBytes(fate, Payload(id, request))
      ensures r.None? ==> Valid() && !poisoned && stream == old(stream)
      // what got out is a prefix of this call's own frame, the whole of it when it went well
      ensures old(stream.written) <= old(stream).written <= old(stream.written) + Encode(Payload(id, request))
      ensures r.None? ==> old(stream).written == old(stream.written) + Encode(Payload(id, request))
      ensures HostBeforeRequestWrite in fate.faults ==> old(stream).written == old(stream.written)
    {
      if HostBeforeRequestWrite in fate.faults {
        PoisonAndRelease();
        return Some(Faulted(HostBeforeRequestWrite));
      }
      if stream == null {
        assert false;
      }
      var payload := Payload(id, request);
      if Sendable(payload) && fate.dropped == Some(WritingRequest) {
        var part := if fate.room < |Encode(payload)| then fate.room else |Encode(payload)|;
        stream.written := stream.written + Encode(payload)[..part];
        assert Encode(payload)[..|Encode(payload)|] == Encode(payload);
        return Some(Dropped);
      }
      var end := stream.WriteFrame(payload, fate.room, fate.flushes);
      if !end.Written? {
        PoisonAndRelease();
        return Some(WriteFailed);
      }
      return None;
    }

    /** From the fault check after the write to a judged response; `completed` is the guard's flag. */
    method ReceiveResponse(id: nat, request: Request, fate: Fate) returns (r: CallResult, completed: bool)
      requires Valid() && !poisoned
      modifies this`poisoned, this`stream, stream`unread
      ensures completed ==> Valid() && !poisoned && stream == old(stream)
      ensures completed <==> r.Complete()
      ensures completed ==> ReadOne(old(stream.unread)).Whole? && stream.unread == ReadOne(old(stream.unread)).rest
      ensures r == ReceiveResult(u, fate, old(stream.unread), id, request)
    {
      completed := false;
      if HostAfterRequestWrite in fate.faults {
        PoisonAndRelease();
        return Faulted(HostAfterRequestWrite), completed;
      }
      if HostBeforeResponseRead in fate.faults {
        PoisonAndRelease();
        return Faulted(HostBeforeResponseRead), completed;
      }
      if stream == null {
        assert false;
      }
      if fate.dropped == Some(ReadingResponse) { return Dropped, completed; }
      var read := stream.ReadFrame();
      if read.NoBytes? { PoisonAndRelease(); return PeerClosed, completed; }
      if !read.Whole? { PoisonAndRelease(); return ReadFailed, completed; }
      var decoded := u.decodeResponse(read.payload);
      if decoded.None? { PoisonAndRelease(); return Undecodable, completed; }
      if HostAfterResponseRead in fate.faults {
        PoisonAndRelease();
        return Faulted(HostAfterResponseRead), completed;
      }
      r, completed := ActOn(decoded.value, id, request);
    }

    /** A decoded response: correlated, validated and matched with its request, or the connection is given up. */
    method ActOn(e: ResponseEnvelope, id: nat, request: Request) returns (r: CallResult, completed: bool)
      requires Valid() && !poisoned
      modifies this`poisoned, this`stream
      ensures r == JudgedEnvelope(u, e, id, request) && (completed <==> r.Complete())
      ensures completed ==> Valid() && !poisoned && stream == old(stream)
    {
      completed := false;
      if e.version != u.version || e.id != id { PoisonAndRelease(); return Uncorrelated, completed; }
      match e.outcome {
        case Succeeded(response) =>
          if !u.admissible(response) { PoisonAndRelease(); return Inadmissible, completed; }
          if !u.fits(request, response) { PoisonAndRelease(); return Misfit, completed; }
          r := Success(response);
        case Failed(error) => r := GuestError(error);
      }
      completed := true;
    }

    /** `call`: the guard poisons on every exit at which the exchange is not complete. */
    method CallOnce(request: Request, fate: Fate) returns (r: CallResult)
      requires Valid()
      modifies this`poisoned, this`stream, this`nextRequestId, stream
      ensures Valid()
      // refused calls: nothing moves
      ensures r.NotAllowed? <==> !Allowed(wellFormed, advertised, request)
      ensures r.NotAllowed? ==> stream == old(stream) && nextRequestId == old(nextRequestId)
      ensures r.NotAllowed? && stream != null ==> stream.written == old(stream.written) && stream.unread == old(stream.unread)
      ensures old(poisoned) && !r.NotAllowed? ==>
                && r == (if closed then AlreadyClosed else AlreadyPoisoned)
                && nextRequestId == old(nextRequestId)
      ensures poisoned <== old(poisoned)
      // a live connection survives exactly the complete, correlated responses
      ensures !old(poisoned) && !r.NotAllowed? ==> (!poisoned <==> r.Complete())
      ensures !old(poisoned) && !r.NotAllowed? ==>
                && (r.IdsExhausted? <==> old(nextRequestId) == LAST_ID)
                && (!r.IdsExhausted? ==> nextRequestId == old(nextRequestId) + 1)
                && (r.IdsExhausted? ==> nextRequestId == LAST_ID && old(stream).written == old(stream.written))
      // and then its frame is out whole and one frame came back, the answer to it
      ensures r.Complete() ==>
                && !old(poisoned) && stream == old(stream) && stream != null
                && stream.written == old(stream.written) + Encode(Payload(old(nextRequestId), request))
                && r == Judged(u, old(stream.unread), old(nextRequestId), request)
                && ReadOne(old(stream.unread)).Whole? && stream.unread == ReadOne(old(stream.unread)).rest
      // in every case no byte is out that is not a prefix of its frame
      ensures !old(poisoned) ==>
                old(stream).written <= old(stream.written) + Encode(Payload(old(nextRequestId), request))
      // how it ends and what is out, whatever its fate
      ensures !old(poisoned) && !r.NotAllowed? && !r.IdsExhausted? ==>
                && r == ResultOf(u, fate, old(stream.unread), old(nextRequestId), request)
                && old(stream).written == old(stream.written) + SentBytes(fate, Payload(old(nextRequestId), request))
      // it succeeds whenever nothing interferes and the peer's first frame is its answer
      ensures !old(poisoned) && !r.NotAllowed? && !r.IdsExhausted? ==>
                var judged := Judged(u, old(stream.unread), old(nextRequestId), request);
                (r.Complete() <==> judged.Complete() && ComesBack(fate, judged)
                                   && GoesOut(fate, Payload(old(nextRequestId), request)))
    {
      if !wellFormed(request) { return NotAllowed; }
      if request.operation !in advertised { return NotAllowed; }
      if closed { PoisonAndRelease(); return AlreadyClosed; }
      if poisoned { PoisonAndRelease(); return AlreadyPoisoned; }
      var id := nextRequestId;
      if id == LAST_ID { PoisonAndRelease(); return IdsExhausted; }
      nextRequestId := id + 1;
      var failed := SendRequest(id, request, fate);
      if failed.Some? { PoisonAndRelease(); return failed.value; }
      var completed;
      r, completed := ReceiveResponse(id, request, fate);
      if !completed { PoisonAndRelease(); }
    }

    /** `close`: idempotent, and final whatever the shutdown does. */
    method CloseOnce(faultBefore: bool, shutdown: ShutdownEnd, faultAfter: bool) returns (r: CloseResult)
      requires Valid()
      modifies this`poisoned, this`closed, this`stream
      ensures Valid() && closed && poisoned
      ensures r.Closed? <==> old(poisoned) || (!faultBefore && !shutdown.Broken? && !faultAfter)
      ensures r.ShutdownFailed? <==> !old(poisoned) && !faultBefore && shutdown.Broken?
    {
      if closed { return Closed; }
      closed, poisoned := true, true;
      var taken := stream;
      stream := null;
      if taken == null { return Closed; }
      if faultBefore { return ShutdownFault; }
      if shutdown.Broken? { return ShutdownFailed; }
      return if faultAfter then ShutdownFault else Closed;
    }
  }
}
