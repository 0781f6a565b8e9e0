/**
 The guest's serve loop on any inbound byte stream, how its end is classified, and the armed
 qualification fault (crates/agent-protocol/src/server.rs, crates/agent/src/lib.rs,
 crates/agent/src/transport_qualification.rs).
 */
module Serve {
  import opened Bytes
  import opened Model
  import opened Session
  import opened Wire

  datatype ErrorCode = Unavailable | InvalidArgument | ResourceExhausted | FailedPrecondition | OtherCode

  /** The `operation` string an error carries. */
  datatype Site =
    | ReadHeader | ReadPayload | WriteHeader | WritePayload | Flush  // the five transport I/O sites
    | ReadLength | DecodeFrame | EncodeFrame | AgentProtocol | QualificationFault | RunGuestAgent | OtherSite

  datatype Error = Error(code: ErrorCode, site: Site, retryable: bool)

  datatype Result = Ok | Err(error: Error)

  function IoError(site: Site): Error {
    Error(Unavailable, site, true)
  }

  const FAULT := Error(Unavailable, QualificationFault, true)

  predicate IsCleanHostDisconnect(e: Error) {
    e.code.Unavailable? && e.retryable &&
    (e.site.ReadHeader? || e.site.ReadPayload? || e.site.WriteHeader? || e.site.WritePayload? || e.site.Flush?)
  }

  predicate ShouldReconnect(r: Result) {
    r.Ok? || IsCleanHostDisconnect(r.error)
  }

  function FinishGuestSession(serve: Result, cleanup: Result): Result {
    match (serve, cleanup)
    case (Ok, Ok) => Ok
    case (Err(e), Ok) => if IsCleanHostDisconnect(e) then Ok else Err(e)
    case (Ok, Err(c)) => Err(c)
    case (Err(e), Err(_)) => Err(Error(e.code, RunGuestAgent, e.retryable))
  }

  /** The one transition a qualification run arms; production runs arm none. */
  datatype Armed = Nothing | Armed(operation: Operation, stage: Stage, operationId: Text)

  /** A request of the armed operation and identity; an identity-free observation needs none. */
  predicate Meets(armed: Armed, version: nat, request: Request) {
    && armed.Armed? && armed.operation == request.operation
    && (request.operationId == Some(armed.operationId) ||
        (request.operationId.None? && !RequiresOperationId(request.operation, version)))
  }

  predicate Matches(armed: Armed, version: nat, request: Request, stage: Stage) {
    Meets(armed, version, request) && armed.stage == stage
  }

  /** How the transport takes one response: this many bytes, and whether it then flushes. */
  datatype Sink = Sink(room: nat, flushes: bool)

  /** Everything around one serve loop; index `k` is the frame being served. */
  datatype Surroundings = Surroundings(
    u: Setup, armed: Armed, service: nat -> Outcome, sink: nat -> Sink,
    reset: bool)  // the transport fails, rather than ends, after the inbound bytes

  datatype Verdict = GoOn | Stop(error: Error)

  function WriteVerdict(payload: seq<byte>, sink: Sink): Verdict {
    if !Sendable(payload) then Stop(Error(ResourceExhausted, EncodeFrame, false))
    else if sink.room < 4 then Stop(IoError(WriteHeader))
    else if sink.room < |Encode(payload)| then Stop(IoError(WritePayload))
    else if !sink.flushes then Stop(IoError(Flush))
    else GoOn
  }

  predicate Terminal(u: Setup, e: RequestEnvelope) {
    e.version != u.version || e.id == 0
  }

  function ValidationError(u: Setup, e: RequestEnvelope): Error {
    if e.version != u.version then Error(FailedPrecondition, AgentProtocol, false)
    else Error(InvalidArgument, AgentProtocol, false)
  }

  function Rejection(u: Setup, e: RequestEnvelope): seq<byte> {
    ReplyPayload(u, e.id, Failed(u.rejection(e.request)))
  }

  /** The bytes of a response that get out. */
  function Taken(payload: seq<byte>, sink: Sink): seq<byte> {
    if !Sendable(payload) then []
    else if sink.room < |Encode(payload)| then Encode(payload)[..sink.room]
    else Encode(payload)
  }

  /** What serving one frame does: whether the loop goes on, the bytes sent, the request run. */
  datatype Turn = Turn(verdict: Verdict, sent: seq<byte>, ran: seq<Request>)

  function ValidatedTurn(x: Surroundings, e: RequestEnvelope, k: nat): Turn {
    var stage := if Meets(x.armed, x.u.version, e.request) then Some(x.armed.stage) else None;
    var reply := ReplyPayload(x.u, e.id, Vetted(x.u, x.service(k)));
    if stage == Some(GuestAfterRequestRead) || stage == Some(GuestBeforeDispatch) then Turn(Stop(FAULT), [], [])
    else if stage == Some(GuestAfterDispatch) || stage == Some(GuestBeforeResponseWrite)
    then Turn(Stop(FAULT), [], [e.request])
    else
      var written := WriteVerdict(reply, x.sink(k));
      Turn(if written.GoOn? && stage == Some(GuestAfterResponseWrite) then Stop(FAULT) else written,
           Taken(reply, x.sink(k)), [e.request])
  }

  function TurnOf(x: Surroundings, payload: seq<byte>, k: nat): Turn {
    match x.u.decodeRequest(payload)
    case None => Turn(Stop(Error(InvalidArgument, DecodeFrame, false)), [], [])
    case Some(e) =>
      if Validated(x.u, e) then ValidatedTurn(x, e, k)
      else
        var written := WriteVerdict(Rejection(x.u, e), x.sink(k));
        Turn(if written.GoOn? && Terminal(x.u, e) then Stop(ValidationError(x.u, e)) else written,
             Taken(Rejection(x.u, e), x.sink(k)), [])
  }

  /** All that is sent, and all that is run, while serving the first `n` frames. */
  function SentBy(x: Surroundings, frames: seq<seq<byte>>, n: nat): seq<byte>
    requires n <= |frames|
  {
    if n == 0 then [] else SentBy(x, frames, n - 1) + TurnOf(x, frames[n - 1], n - 1).sent
  }

  function RanBy(x: Surroundings, frames: seq<seq<byte>>, n: nat): seq<Request>
    requires n <= |frames|
  {
    if n == 0 then [] else RanBy(x, frames, n - 1) + TurnOf(x, frames[n - 1], n - 1).ran
  }

  /** No earlier frame stops the loop. */
  ghost predicate GoesOn(x: Surroundings, frames: seq<seq<byte>>, n: nat)
    requires n <= |frames|
  {
    forall j :: 0 <= j < n ==> TurnOf(x, frames[j], j).verdict.GoOn?
  }

  /** What the end of the inbound bytes does. */
  function AtEnd(x: Surroundings, ending: FrameRead): Result {
    match ending
    case NoBytes => if x.reset then Err(IoError(ReadHeader)) else Ok
    case ShortHeader => Err(IoError(ReadHeader))
    case ShortPayload => Err(IoError(ReadPayload))
    case _ => Err(Error(ResourceExhausted, ReadLength, false))
  }

  /** The armed injector's counters. */
  class FaultCounter {
    var crossings: nat
    var protocolVersion: nat

    constructor ()
      ensures crossings == 0 && protocolVersion == 0
    {
      crossings, protocolVersion := 0, 0;
    }

    /** `check_operation`: the first crossing of the armed transition fails, no other does. */
    method CheckOperation(armed: Armed, version: nat, request: Request, stage: Stage) returns (fails: bool)
      modifies this
      ensures fails <==> Matches(armed, version, request, stage) && old(crossings) == 0
      ensures Matches(armed, version, request, stage) ==> crossings == old(crossings) + 1 && protocolVersion == version
      ensures !Matches(armed, version, request, stage) ==> crossings == old(crossings) && protocolVersion == old(protocolVersion)
    {
      if !Matches(armed, version, request, stage) { return false; }
      protocolVersion := version;
      crossings := crossings + 1;
      fails := crossings == 1;
    }
  }

  function WriteError(end: WriteEnd): Error
    requires !end.Written?
  {
    match end
    case TooLarge => Error(ResourceExhausted, EncodeFrame, false)
    case HeaderFailed => IoError(WriteHeader)
    case PayloadFailed => IoError(WritePayload)
    case FlushFailed => IoError(Flush)
  }

  /** One validated request: the five checks around dispatch and response. */
  method ServeValidated(stream: ByteStream, x: Surroundings, counter: FaultCounter, e: RequestEnvelope, k: nat)
    returns (verdict: Verdict, ran: seq<Request>)
    requires counter.crossings == 0
    modifies counter, stream`written
    ensures ValidatedTurn(x, e, k).verdict == verdict && ValidatedTurn(x, e, k).ran == ran
    ensures stream.written == old(stream.written) + ValidatedTurn(x, e, k).sent
    ensures counter.crossings == if verdict == Stop(FAULT) then 1 else 0
    ensures verdict == Stop(FAULT) ==> counter.protocolVersion == x.u.version
  {
    ran := [];
    var fails := counter.CheckOperation(x.armed, x.u.version, e.request, GuestAfterRequestRead);
    if fails { return Stop(FAULT), ran; }
    fails := counter.CheckOperation(x.armed, x.u.version, e.request, GuestBeforeDispatch);
    if fails { return Stop(FAULT), ran; }
    var result := x.service(k);
    ran := [e.request];
    fails := counter.CheckOperation(x.armed, x.u.version, e.request, GuestAfterDispatch);
    if fails { return Stop(FAULT), ran; }
    var payload := ReplyPayload(x.u, e.id, Vetted(x.u, result));
    fails := counter.CheckOperation(x.armed, x.u.version, e.request, GuestBeforeResponseWrite);
    if fails { return Stop(FAULT), ran; }
    var end := stream.WriteFrame(payload, x.sink(k).room, x.sink(k).flushes);
    if !end.Written? { return Stop(WriteError(end)), ran; }
    fails := counter.CheckOperation(x.armed, x.u.version, e.request, GuestAfterResponseWrite);
    if fails { return Stop(FAULT), ran; }
    return GoOn, ran;
  }

  /** One frame; the armed injector ignores the two checks around a rejection. */
  method ServeFrame(stream: ByteStream, x: Surroundings, counter: FaultCounter, payload: seq<byte>, k: nat)
    returns (verdict: Verdict, ran: seq<Request>)
    requires counter.crossings == 0
    modifies counter, stream`written
    ensures TurnOf(x, payload, k).verdict == verdict && TurnOf(x, payload, k).ran == ran
    ensures stream.written == old(stream.written) + TurnOf(x, payload, k).sent
    ensures counter.crossings == if verdict == Stop(FAULT) then 1 else 0
    ensures verdict == Stop(FAULT) ==> counter.protocolVersion == x.u.version
  {
    var decoded := x.u.decodeRequest(payload);
    if decoded.None? {
      return Stop(Error(InvalidArgument, DecodeFrame, false)), [];
    }
    var e := decoded.value;
    if Validated(x.u, e) {
      verdict, ran := ServeValidated(stream, x, counter, e, k);
      return;
    }
    var end := stream.WriteFrame(Rejection(x.u, e), x.sink(k).room, x.sink(k).flushes);
    if !end.Written? {
      return Stop(WriteError(end)), [];
    }
    return if Terminal(x.u, e) then Stop(ValidationError(x.u, e)) else GoOn, [];
  }

  /** The loop after the hello: frame after frame until one stops it or no whole frame is left. */
  method ServeFrames(stream: ByteStream, x: Surroundings, counter: FaultCounter)
    returns (n: nat, last: Verdict, ending: FrameRead, ran: seq<Request>)
    requires counter.crossings == 0
    modifies counter, stream
    ensures n <= |ReadAll(old(stream.unread)).frames|
    ensures stream.written == old(stream.written) + SentBy(x, ReadAll(old(stream.unread)).frames, n)
    ensures ran == RanBy(x, ReadAll(old(stream.unread)).frames, n)
    ensures EndsAt(x, ReadAll(old(stream.unread)), n, last, ending)
    ensures counter.crossings == if last == Stop(FAULT) then 1 else 0
    ensures last == Stop(FAULT) ==> counter.protocolVersion == x.u.version
  {
    n, last, ran := 0, GoOn, [];
    ghost var all, left := ReadAll(stream.unread), stream.unread;
    ending := stream.ReadFrame();
    while ending.Whole? && last.GoOn?
      invariant n <= |all.frames|
      invariant last.GoOn? ==>
                  && ReadAll(left) == Reading(all.frames[n..], all.ending) && ending == ReadOne(left)
                  && (ending.Whole? ==> stream.unread == ending.rest)
                  && GoesOn(x, all.frames, n)
      invariant last.Stop? ==> n > 0 && GoesOn(x, all.frames, n - 1) && TurnOf(x, all.frames[n - 1], n - 1).verdict == last
      invariant stream.written == old(stream.written) + SentBy(x, all.frames, n)
      invariant ran == RanBy(x, all.frames, n)
      invariant counter.crossings == if last == Stop(FAULT) then 1 else 0
      invariant last == Stop(FAULT) ==> counter.protocolVersion == x.u.version
      decreases last.GoOn?, |left|
    {
      FirstFrame(left, all.frames, n);
      var more;
      ghost var sent := SentBy(x, all.frames, n);
      last, more := ServeFrame(stream, x, counter, ending.payload, n);
      Associative(old(stream.written), sent, TurnOf(x, all.frames[n], n).sent);
      ran, n := ran + more, n + 1;
      if last.GoOn? {
        left := stream.unread;
        ending := stream.ReadFrame();
      }
    }
  }

  lemma FirstFrame(left: seq<byte>, frames: seq<seq<byte>>, n: nat)
    requires n <= |frames| && ReadAll(left).frames == frames[n..] && ReadOne(left).Whole?
    ensures n < |frames| && frames[n] == ReadOne(left).payload
    ensures ReadAll(ReadOne(left).rest) == Reading(frames[n + 1..], ReadAll(left).ending)
  {
    assert frames[n + 1..] == frames[n..][1..];
  }

  /** The first stopping frame ends the loop; otherwise it runs to the end of the stream. */
  ghost predicate EndsAt(x: Surroundings, all: Reading, n: nat, last: Verdict, ending: FrameRead)
    requires n <= |all.frames|
  {
    if last.GoOn? then n == |all.frames| && GoesOn(x, all.frames, n) && ending == all.ending
    else n > 0 && GoesOn(x, all.frames, n - 1) && TurnOf(x, all.frames[n - 1], n - 1).verdict == last
  }

  /** What the loop returns. */
  function ServeResult(x: Surroundings, last: Verdict, ending: FrameRead): Result {
    if last.Stop? then Err(last.error) else AtEnd(x, ending)
  }

  // ---------------------------------------------------------------- how a session ends

  /** A frame the loop gets past, were every response to be written. */
  predicate Acceptable(u: Setup, payload: seq<byte>) {
    u.decodeRequest(payload).Some? && !Terminal(u, u.decodeRequest(payload).value)
  }

  /** The transport, not the protocol, fails while frame `k` is being answered. */
  predicate AnswerLost(x: Surroundings, payload: seq<byte>, k: nat) {
    x.u.decodeRequest(payload).Some? &&
    var e := x.u.decodeRequest(payload).value;
    var reply := if Validated(x.u, e) then ReplyPayload(x.u, e.id, Vetted(x.u, x.service(k))) else Rejection(x.u, e);
    Sendable(reply) && (x.sink(k).room < |Encode(reply)| || !x.sink(k).flushes)
  }

  lemma StoppingTurn(x: Surroundings, payload: seq<byte>, k: nat)
    requires x.armed.Nothing? && TurnOf(x, payload, k).verdict.Stop?
    ensures IsCleanHostDisconnect(TurnOf(x, payload, k).verdict.error) <==> AnswerLost(x, payload, k)
  {
  }

  /** Even a request of the wrong version leads to a reconnect when its rejection cannot be written. */
  lemma WrongVersionCanReconnect(x: Surroundings, payload: seq<byte>, k: nat)
    requires x.armed.Nothing? && x.u.decodeRequest(payload).Some?
    requires var e := x.u.decodeRequest(payload).value;
             e.version != x.u.version && Sendable(Rejection(x.u, e)) && x.sink(k).room == 0
    ensures TurnOf(x, payload, k).verdict == Stop(IoError(WriteHeader)) && !Acceptable(x.u, payload)
    ensures ShouldReconnect(Err(IoError(WriteHeader)))
  {
  }

  /** The first frame from the `n`th on that stops the loop. */
  function StopAt(x: Surroundings, frames: seq<seq<byte>>, n: nat): (r: Option<nat>)
    requires n <= |frames|
    ensures r.Some? ==> n <= r.value < |frames| && TurnOf(x, frames[r.value], r.value).verdict.Stop?
    ensures forall j :: n <= j < (if r.Some? then r.value else |frames|) ==> TurnOf(x, frames[j], j).verdict.GoOn?
    decreases |frames| - n
  {
    if n == |frames| then None
    else if TurnOf(x, frames[n], n).verdict.Stop? then Some(n)
    else StopAt(x, frames, n + 1)
  }

  /** What serving an inbound byte stream returns. */
  function SessionResult(x: Surroundings, stream: seq<byte>): Result {
    var all := ReadAll(stream);
    match StopAt(x, all.frames, 0)
    case Some(k) => Err(TurnOf(x, all.frames[k], k).verdict.error)
    case None => AtEnd(x, all.ending)
  }

  lemma EndIsDecided(x: Surroundings, stream: seq<byte>, n: nat, last: Verdict, ending: FrameRead)
    requires n <= |ReadAll(stream).frames| && EndsAt(x, ReadAll(stream), n, last, ending)
    ensures ServeResult(x, last, ending) == SessionResult(x, stream)
  {
    var stop := StopAt(x, ReadAll(stream).frames, 0);
    if last.Stop? {
      assert stop.Some? && stop.value == n - 1;
    } else {
      assert stop.None?;
    }
  }

  /**
   The transport, and not the protocol, ended the session: it lost the answer to the frame the loop
   stopped at, or the stream ended, was reset or was torn, but not with a bad length.
   */
  predicate EndedByTransport(x: Surroundings, stream: seq<byte>) {
    var all := ReadAll(stream);
    match StopAt(x, all.frames, 0)
    case Some(k) => AnswerLost(x, all.frames[k], k)
    case None => !all.ending.BadLength?
  }

  /**
   In production, for every inbound byte stream: the session reconnects exactly when the transport
   ended it, be the frame it stopped at acceptable or not; it finishes cleanly exactly when it would
   reconnect and cleanup succeeded; every frame it got past was decodable, of this version and
   numbered.
   */
  lemma SessionClassification(x: Surroundings, stream: seq<byte>)
    requires x.armed.Nothing?
    ensures ShouldReconnect(SessionResult(x, stream)) <==> EndedByTransport(x, stream)
    ensures forall cleanup :: FinishGuestSession(SessionResult(x, stream), cleanup) == Ok <==>
                              EndedByTransport(x, stream) && cleanup.Ok?
    ensures var frames := ReadAll(stream).frames;
            var stop := StopAt(x, frames, 0);
            forall j :: 0 <= j < (if stop.Some? then stop.value else |frames|) ==> Acceptable(x.u, frames[j])
  {
    var frames := ReadAll(stream).frames;
    var stop := StopAt(x, frames, 0);
    if stop.Some? { StoppingTurn(x, frames[stop.value], stop.value); }
    forall j | 0 <= j < (if stop.Some? then stop.value else |frames|) ensures Acceptable(x.u, frames[j]) {
      assert TurnOf(x, frames[j], j).verdict.GoOn?;
    }
  }

  /** Frames that the loop gets past, then no further frame: what follows instead decides. */
  lemma StreamRunsOut(x: Surroundings, payloads: seq<seq<byte>>, tail: seq<byte>)
    requires AllSendable(payloads) && GoesOn(x, payloads, |payloads|) && !ReadOne(tail).Whole?
    ensures SessionResult(x, EncodeAll(payloads) + tail) == AtEnd(x, ReadOne(tail))
  {
    ReadsBackFrames(payloads, tail);
    NothingBehind(payloads);
    AllPassed(x, EncodeAll(payloads) + tail, Reading(payloads, ReadOne(tail)));
  }

  lemma AllPassed(x: Surroundings, stream: seq<byte>, all: Reading)
    requires ReadAll(stream) == all && GoesOn(x, all.frames, |all.frames|)
    ensures SessionResult(x, stream) == AtEnd(x, all.ending)
  {
    assert StopAt(x, all.frames, 0).None?;
  }

  /**
   Frames that the loop gets past, then a refused length: the session ends in an exhausted-resource
   error, is not served again and does not finish cleanly, whatever follows.
   */
  lemma RefusedLengthEnds(x: Surroundings, payloads: seq<seq<byte>>, n: nat, rest: seq<byte>, cleanup: Result)
    requires AllSendable(payloads) && GoesOn(x, payloads, |payloads|)
    requires n < 0x1_0000_0000 && (n == 0 || n > 67_108_864)
    ensures var result := SessionResult(x, EncodeAll(payloads) + (BigEndian(n, 4) + rest));
            && result.Err? && result.error.code.ResourceExhausted? && !result.error.retryable
            && !ShouldReconnect(result) && FinishGuestSession(result, cleanup).Err?
  {
    LengthDecides(n, rest);
    StreamRunsOut(x, payloads, BigEndian(n, 4) + rest);
  }

  /** Frames that the loop gets past, then a clean or a torn end: the session is served again, a clean one without error. */
  lemma EndedStreamReconnects(x: Surroundings, payloads: seq<seq<byte>>, next: seq<byte>, arrived: nat)
    requires AllSendable(payloads) && GoesOn(x, payloads, |payloads|) && Sendable(next) && arrived < |Encode(next)|
    ensures var result := SessionResult(x, EncodeAll(payloads) + Encode(next)[..arrived]);
            && ShouldReconnect(result) && FinishGuestSession(result, Ok) == Ok
            && (result == Ok <==> arrived == 0 && !x.reset)
  {
    TornFrame(next, arrived);
    StreamRunsOut(x, payloads, Encode(next)[..arrived]);
  }

  /** What the last frame of a stream does to its session, if the loop gets past the others. */
  lemma LastFrameEnds(x: Surroundings, payloads: seq<seq<byte>>, last: seq<byte>, rest: seq<byte>)
    requires AllSendable(payloads) && GoesOn(x, payloads, |payloads|) && Sendable(last)
    requires TurnOf(x, last, |payloads|).verdict.Stop?
    ensures SessionResult(x, EncodeAll(payloads) + (Encode(last) + rest)) == Err(TurnOf(x, last, |payloads|).verdict.error)
  {
    var stream := EncodeAll(payloads) + (Encode(last) + rest);
    ReadsBackFrame(last, rest);
    ReadsBackFrames(payloads, Encode(last) + rest);
    var frames := ReadAll(stream).frames;
    assert frames[|payloads|] == last && forall j :: 0 <= j < |payloads| ==> frames[j] == payloads[j];
    var stop := StopAt(x, frames, 0);
    assert stop.Some? && stop.value == |payloads|;
  }

  /** What such a frame does in its turn. */
  ghost predicate TerminalTurn(x: Surroundings, last: seq<byte>, turn: Turn) {
    var decoded := x.u.decodeRequest(last);
    && turn.verdict.Stop? && !turn.verdict.error.retryable && turn.ran == []
    && turn.verdict.error.code == (if decoded.Some? && decoded.value.version != x.u.version then FailedPrecondition
                                   else InvalidArgument)
    && turn.sent == if decoded.Some? then Encode(Rejection(x.u, decoded.value)) else []
  }

  lemma TerminalFrameStops(x: Surroundings, last: seq<byte>, k: nat)
    requires !Acceptable(x.u, last) && !AnswerLost(x, last, k)
    requires x.u.decodeRequest(last).Some? ==> Sendable(Rejection(x.u, x.u.decodeRequest(last).value))
    ensures TerminalTurn(x, last, TurnOf(x, last, k))
  {
  }

  /**
   A request of another version or with ID zero is answered, never dispatched, and ends the session for
   good with an error that tells the two apart; one that cannot be decoded ends it unanswered.
   */
  lemma TerminalFrameEnds(x: Surroundings, payloads: seq<seq<byte>>, last: seq<byte>, rest: seq<byte>)
    requires AllSendable(payloads) && GoesOn(x, payloads, |payloads|) && Sendable(last) && !Acceptable(x.u, last)
    requires !AnswerLost(x, last, |payloads|)
    requires x.u.decodeRequest(last).Some? ==> Sendable(Rejection(x.u, x.u.decodeRequest(last).value))
    ensures var result, turn := SessionResult(x, EncodeAll(payloads) + (Encode(last) + rest)), TurnOf(x, last, |payloads|);
            TerminalTurn(x, last, turn) && result == Err(turn.verdict.error) && !ShouldReconnect(result)
  {
    TerminalFrameStops(x, last, |payloads|);
    LastFrameEnds(x, payloads, last, rest);
  }

  /** One connection, served from its first frame on. */
  method ServeSession(inbound: seq<byte>, x: Surroundings) returns (result: Result)
    ensures result == SessionResult(x, inbound)
  {
    var stream := new ByteStream(inbound);
    var counter := new FaultCounter();
    var n, verdict, ending, ran := ServeFrames(stream, x, counter);
    EndIsDecided(x, inbound, n, verdict, ending);
    result := ServeResult(x, verdict, ending);
  }

  /**
   The reconnect loop of `run_linux`: connections are served one after another, and the first that
   the transport did not end is the last.
   */
  method ServeWithReconnect(inbound: seq<seq<byte>>, xs: seq<Surroundings>) returns (last: Option<nat>, result: Result)
    requires |inbound| == |xs| && forall k :: 0 <= k < |xs| ==> xs[k].armed.Nothing?
    ensures forall j :: 0 <= j < (if last.Some? then last.value else |xs|) ==>
              0 <= j < |xs| && EndedByTransport(xs[j], inbound[j])
    ensures last.Some? ==>
              && last.value < |xs| && !EndedByTransport(xs[last.value], inbound[last.value])
              && result == SessionResult(xs[last.value], inbound[last.value])
  {
    result := Ok;
    for k := 0 to |xs|
      invariant forall j :: 0 <= j < k ==> EndedByTransport(xs[j], inbound[j])
    {
      result := ServeSession(inbound[k], xs[k]);
      SessionClassification(xs[k], inbound[k]);
      if !ShouldReconnect(result) { return Some(k), result; }
    }
    return None, result;
  }

  // ---------------------------------------------------------------- the armed fault

  /** `finish`: evidence is emitted only for a run that ended in the armed fault and cleaned up. */
  function Finish(serve: Result, cleanup: Result, crossings: nat, protocolVersion: nat): Result {
    if cleanup.Err? then
      (match serve
       case Ok => cleanup
       case Err(e) => Err(Error(e.code, RunGuestAgent, e.retryable)))
    else if serve.Ok? then Err(Error(FailedPrecondition, RunGuestAgent, false))
    else
      var e := serve.error;
      if !e.code.Unavailable? || !e.retryable || !e.site.QualificationFault? || crossings != 1 then serve
      else if protocolVersion == 0 then Err(Error(FailedPrecondition, RunGuestAgent, false))
      else Ok
  }

  /** A clean clean-up leaves the reason a run did not qualify; the armed fault, met once, qualifies it. */
  lemma FinishReports(serve: Result, crossings: nat, protocolVersion: nat)
    ensures var result := Finish(serve, Ok, crossings, protocolVersion);
            && (result == Ok <==> serve == Err(FAULT) && crossings == 1 && protocolVersion > 0)
            && (serve == Ok ==> result == Err(Error(FailedPrecondition, RunGuestAgent, false)))
            && (serve.Err? && (serve != Err(FAULT) || crossings != 1) ==> result == serve)
  {
  }

  /** The armed request is met by its operation alone, with its own identity, or with none if that is an observation. */
  lemma MeetsExactly(armed: Armed, version: nat, request: Request)
    ensures armed.Nothing? || (armed.Armed? && request.operation != armed.operation) ==> !Meets(armed, version, request)
    ensures armed.Armed? && request.operation == armed.operation && request.operationId.Some? ==>
              (Meets(armed, version, request) <==> request.operationId.value == armed.operationId)
    ensures armed.Armed? && request.operation == armed.operation && request.operationId.None? ==>
              (Meets(armed, version, request) <==>
                 || request.operation in {State, Wait, WaitProcess, Processes, Stats, ReadOutput, AcknowledgeOperations}
                 || (version < 8 && request.operation in {WriteStdin, CloseStdin, Resize}))
  {
  }

  predicate IsGuestStage(stage: Stage) {
    stage.GuestAfterRequestRead? || stage.GuestBeforeDispatch? || stage.GuestAfterDispatch? ||
    stage.GuestBeforeResponseWrite? || stage.GuestAfterResponseWrite?
  }

  /** Frame `k` carries a validated request of the armed operation and identity. */
  predicate MeetsAt(x: Surroundings, payload: seq<byte>) {
    x.u.decodeRequest(payload).Some? &&
    var e := x.u.decodeRequest(payload).value;
    Validated(x.u, e) && Meets(x.armed, x.u.version, e.request)
  }

  /** The armed stage lies before the response, or the response got out whole. */
  predicate ReachesStage(x: Surroundings, payload: seq<byte>, k: nat)
    requires MeetsAt(x, payload)
  {
    var e := x.u.decodeRequest(payload).value;
    x.armed.stage.GuestAfterResponseWrite? ==>
      WriteVerdict(ReplyPayload(x.u, e.id, Vetted(x.u, x.service(k))), x.sink(k)).GoOn?
  }

  /** The armed fault stops the loop at the first frame that meets it, and at no other. */
  lemma FaultedTurn(x: Surroundings, payload: seq<byte>, k: nat)
    requires x.armed.Armed? && IsGuestStage(x.armed.stage)
    ensures TurnOf(x, payload, k).verdict == Stop(FAULT) <==> MeetsAt(x, payload) && ReachesStage(x, payload, k)
    ensures TurnOf(x, payload, k).verdict.GoOn? ==> !MeetsAt(x, payload)
  {
  }

  /**
   A whole qualification run on any inbound bytes: the armed transition is crossed at most once,
   exactly when the run ends at a frame that meets it and at which its stage is reached, all
   earlier frames having met nothing; the run succeeds exactly when that happened and cleanup did.
   */
  method Qualify(stream: ByteStream, x: Surroundings, cleanup: Result)
    returns (result: Result, n: nat, crossings: nat)
    requires x.armed.Armed? && IsGuestStage(x.armed.stage) && x.u.version >= 1
    modifies stream
    ensures crossings <= 1
    ensures var frames := ReadAll(old(stream.unread)).frames;
            && n <= |frames|
            && (crossings == 1 <==>
                  n > 0 && MeetsAt(x, frames[n - 1]) && ReachesStage(x, frames[n - 1], n - 1))
            && forall j :: 0 <= j < n - 1 ==> !MeetsAt(x, frames[j])
    ensures result == Ok <==> crossings == 1 && cleanup.Ok?
  {
    var counter := new FaultCounter();
    var last, ending, ran;
    ghost var frames := ReadAll(stream.unread).frames;
    n, last, ending, ran := ServeFrames(stream, x, counter);
    crossings := counter.crossings;
    result := Finish(ServeResult(x, last, ending), cleanup, counter.crossings, counter.protocolVersion);
    forall j | 0 <= j < n
      ensures TurnOf(x, frames[j], j).verdict == Stop(FAULT) <==> MeetsAt(x, frames[j]) && ReachesStage(x, frames[j], j)
      ensures TurnOf(x, frames[j], j).verdict.GoOn? ==> !MeetsAt(x, frames[j])
    {
      FaultedTurn(x, frames[j], j);
    }
  }
}
