/**
 One host-to-guest agent session as a step system over two byte channels
 (crates/agent-protocol/src/client.rs, crates/agent-protocol/src/server.rs).

 Any number of client clones share one connection behind a lock; a call is the stretch from
 taking the lock to releasing it. The steps below cut that stretch, and the server's loop, at
 every point where the other side, a cancellation, a fault or an I/O error can get in between.
 The JSON codec, the validators and the guest service are parameters.
 */
module Session {
  import opened Bytes
  import opened Model
  import opened Wire

  const LAST_ID: nat := U64_LIMIT - 1  // u64::MAX, which is never handed out

  /** What the protocol is instantiated with, after negotiation. */
  datatype Setup = Setup(
    version: nat,
    accepts: Request -> bool,          // the guest's request validation at this version
    producible: Response -> bool,      // the guest's validation of its own service's response
    admissible: Response -> bool,      // the host's validation of a response at this version
    fits: (Request, Response) -> bool,     // the host's check of a response against its request
    rejection: Request -> Text,        // the error the guest answers a rejected request with
    complaint: Response -> Text,       // the error it sends in place of an invalid service response
    encodeRequest: RequestEnvelope -> seq<byte>,
    decodeRequest: seq<byte> -> Option<RequestEnvelope>,
    encodeResponse: ResponseEnvelope -> seq<byte>,
    decodeResponse: seq<byte> -> Option<ResponseEnvelope>)

  /** What a 16-bit version and a 64-bit ID can hold. */
  predicate Representable(version: nat, id: nat) {
    version < U16_LIMIT && id < U64_LIMIT
  }

  /** The only thing asked of the codec: decoding undoes encoding, where versions and IDs have their width. */
  ghost predicate Lawful(u: Setup) {
    && u.version < U16_LIMIT
    && (forall e: RequestEnvelope :: Representable(e.version, e.id) ==> u.decodeRequest(u.encodeRequest(e)) == Some(e))
    && (forall e: ResponseEnvelope :: Representable(e.version, e.id) ==> u.decodeResponse(u.encodeResponse(e)) == Some(e))
  }

  datatype CallEnd =
    | Pending
    | Returned(response: Response)       // the call returned this success response
    | GuestFailed(error: Text)       // a correlated guest failure; the connection stays usable
    | Broke                          // any other error: the connection was poisoned
    | Cancelled                      // the call's future was dropped while it held the lock

  datatype Host =
    | Idle                           // the lock is free
    | Ready                          // ID allocated, nothing written
    | Writing(sent: nat)             // this many bytes of the request frame are out
    | Sent                           // the whole frame is out
    | Awaiting                       // reading the response
    | Got(envelope: ResponseEnvelope)

  datatype Guest =
    | Listening
    | Checking(envelope: RequestEnvelope)
    | Admitted(envelope: RequestEnvelope)
    | Dispatched(envelope: RequestEnvelope, result: Outcome)
    | Replying(envelope: RequestEnvelope, reply: Outcome, admitted: bool, sent: nat)
    | Replied(envelope: RequestEnvelope, admitted: bool)
    | Gone                           // the serve loop returned and dropped its stream

  datatype Dispatch = Dispatch(id: nat, request: Request, result: Outcome)

  datatype World = World(
    // the shared client connection
    stream: bool, poisoned: bool, closed: bool, nextId: nat,
    // where the lock holder and the serve loop stand, and the unread bytes between them
    host: Host, guest: Guest, toGuest: seq<byte>, toHost: seq<byte>,
    // history: call `id` asked for requests[id - 1] and ended as ends[id - 1]
    requests: seq<Request>, ends: seq<CallEnd>,
    dispatches: seq<Dispatch>, replies: map<nat, Outcome>, faults: set<(Stage, nat)>,
    lastRead: nat, lastGot: nat, bytesWritten: nat)

  function Init(): World {
    World(true, false, false, 1, Idle, Listening, [], [], [], [], [], map[], {}, 0, 0, 0)
  }

  datatype Step =
    // the host, one lock holder at a time
    | Begin(request: Request) | Exhaust | StartWrite | WriteSome(bytes: nat) | AwaitReply | TakeReply | Finish
    | HostFault(stage: Stage) | HostIo | Cancel | Close
    // the guest
    | TakeRequest | Check | Run(result: Outcome) | Prepare | ReplySome(bytes: nat) | Next
    | GuestFault(stage: Stage) | GuestIo
    // a transport whose sender is gone may lose the end of what was sent
    | LoseRequest(kept: nat) | LoseReply(kept: nat)

  // ---------------------------------------------------------------- frames

  /** The frame body of call `id`. */
  function RequestPayload(u: Setup, requests: seq<Request>, id: nat): seq<byte>
    requires 1 <= id <= |requests|
  {
    u.encodeRequest(RequestEnvelope(u.version, id, requests[id - 1]))
  }

  /** The call that holds, or last held, the lock: IDs are handed out from 1 on. */
  function Cur(s: World): nat {
    |s.requests|
  }

  function ReplyPayload(u: Setup, id: nat, outcome: Outcome): seq<byte> {
    u.encodeResponse(ResponseEnvelope(u.version, id, outcome))
  }

  /** A service response that does not validate is replaced by a failure. */
  function Vetted(u: Setup, result: Outcome): Outcome {
    if result.Succeeded? && !u.producible(result.response) then Failed(u.complaint(result.response)) else result
  }

  // ---------------------------------------------------------------- the steps

  /** Release the lock with the stream dropped: `poison_and_release`, by whichever path. */
  function Poison(s: World, end: CallEnd): World
    requires 1 <= |s.ends|
  {
    s.(stream := false, poisoned := true, host := Idle, ends := s.ends[|s.ends| - 1 := end])
  }

  function Complete(s: World, end: CallEnd): World
    requires 1 <= |s.ends|
  {
    s.(host := Idle, ends := s.ends[|s.ends| - 1 := end])
  }

  function HostStages(h: Host): set<Stage> {
    match h
    case Ready => {HostBeforeRequestWrite}
    case Sent => {HostAfterRequestWrite, HostBeforeResponseRead}
    case Got(_) => {HostAfterResponseRead}
    case _ => {}
  }

  function GuestStages(g: Guest): set<Stage> {
    match g
    case Admitted(_) => {GuestAfterRequestRead, GuestBeforeDispatch}
    case Dispatched(_, _) => {GuestAfterDispatch}
    case Replying(_, _, _, sent) => if sent == 0 then {GuestBeforeResponseWrite} else {}
    case Replied(_, _) => {GuestAfterResponseWrite}
    case _ => {}
  }

  function Validated(u: Setup, e: RequestEnvelope): bool {
    e.version == u.version && e.id != 0 && u.accepts(e.request)
  }

  /** A step may be taken; the first two conjuncts hold in every run. */
  ghost predicate Can(u: Setup, s: World, step: Step) {
    && |s.requests| == |s.ends|
    && (!s.host.Idle? ==> Cur(s) >= 1)
    && match step
       case Begin(_) => s.host.Idle? && !s.poisoned && s.nextId < LAST_ID
       case Exhaust => s.host.Idle? && !s.poisoned && s.nextId == LAST_ID
       case StartWrite => s.host.Ready?
       case WriteSome(n) => CanPush(u, s, n)
       case AwaitReply => s.host.Sent?
       case TakeReply => s.host.Awaiting? && Arrived(s.toHost, s.guest.Gone?)
       case Finish => s.host.Got?
       case HostFault(stage) => stage in HostStages(s.host)
       case HostIo => s.host.Writing? || s.host.Awaiting?
       case Cancel => !s.host.Idle?
       case Close => s.host.Idle?
       case TakeRequest => s.guest.Listening? && Arrived(s.toGuest, !s.stream)
       case Check => s.guest.Checking?
       case Run(_) => s.guest.Admitted?
       case Prepare => s.guest.Dispatched?
       case ReplySome(n) => CanReply(u, s, n)
       case Next => s.guest.Replied?
       case GuestFault(stage) => stage in GuestStages(s.guest)
       case GuestIo => s.guest.Listening? || s.guest.Replying?
       case LoseRequest(kept) => !s.stream && kept <= |s.toGuest|
       case LoseReply(kept) => s.guest.Gone? && kept <= |s.toHost|
  }

  ghost function Do(u: Setup, s: World, step: Step): World
    requires Can(u, s, step)
  {
    match step
    case Begin(request) => Opened(s, request)
    case Exhaust => s.(stream := false, poisoned := true)
    case StartWrite => Started(u, s)
    case WriteSome(n) => Pushed(u, s, n)
    case AwaitReply => s.(host := Awaiting)
    case TakeReply => ReplyTaken(u, s)
    case Finish => Finished(u, s)
    case HostFault(stage) => HostFaulted(s, stage)
    case HostIo => Poison(s, Broke)
    case Cancel => Poison(s, Cancelled)
    case Close => s.(stream := false, poisoned := true, closed := true)
    case TakeRequest => RequestTaken(u, s)
    case Check => Checked(u, s)
    case Run(result) => Ran(s, result)
    case Prepare => Prepared(u, s)
    case ReplySome(n) => ReplyPushed(u, s, n)
    case Next => Turned(u, s)
    case GuestFault(stage) => s.(guest := Gone, faults := s.faults + {(stage, s.guest.envelope.id)})
    case GuestIo => s.(guest := Gone)
    case LoseRequest(kept) => s.(toGuest := s.toGuest[..kept])
    case LoseReply(kept) => s.(toHost := s.toHost[..kept])
  }

  /** A read can finish: a frame is there, or its length is refused, or no more can come. */
  predicate Arrived(unread: seq<byte>, senderGone: bool) {
    ReadOne(unread).Whole? || ReadOne(unread).BadLength? || senderGone
  }

  function Opened(s: World, request: Request): World {
    s.(host := Ready, nextId := s.nextId + 1, requests := s.requests + [request], ends := s.ends + [Pending])
  }

  /** A request too large for a frame fails before a byte is written. */
  function Started(u: Setup, s: World): World
    requires 1 <= Cur(s) == |s.ends|
  {
    if Sendable(RequestPayload(u, s.requests, Cur(s))) then s.(host := Writing(0)) else Poison(s, Broke)
  }

  predicate CanPush(u: Setup, s: World, n: nat) {
    && 1 <= Cur(s) && s.host.Writing?
    && 0 < n <= |Encode(RequestPayload(u, s.requests, Cur(s)))| - s.host.sent
  }

  function Pushed(u: Setup, s: World, n: nat): World
    requires CanPush(u, s, n)
  {
    var frame, sent := Encode(RequestPayload(u, s.requests, Cur(s))), s.host.sent + n;
    s.(toGuest := s.toGuest + frame[s.host.sent..sent], bytesWritten := s.bytesWritten + n,
       host := if sent == |frame| then Sent else Writing(sent))
  }

  function ReplyTaken(u: Setup, s: World): World
    requires 1 <= Cur(s) == |s.ends|
  {
    match ReadOne(s.toHost)
    case Whole(payload, rest) =>
      (match u.decodeResponse(payload)
       case Some(e) => s.(host := Got(e), toHost := rest, lastGot := Cur(s))
       case None => Poison(s, Broke))
    case _ => Poison(s, Broke)
  }

  function Finished(u: Setup, s: World): World
    requires 1 <= Cur(s) == |s.ends| && s.host.Got?
  {
    var e := s.host.envelope;
    if e.version != u.version || e.id != Cur(s) then Poison(s, Broke)
    else if e.outcome.Failed? then Complete(s, GuestFailed(e.outcome.error))
    else if !u.admissible(e.outcome.response) || !u.fits(s.requests[Cur(s) - 1], e.outcome.response)
    then Poison(s, Broke)
    else Complete(s, Returned(e.outcome.response))
  }

  function HostFaulted(s: World, stage: Stage): World
    requires 1 <= Cur(s) == |s.ends|
  {
    Poison(s, Broke).(faults := s.faults + {(stage, Cur(s))})
  }

  function RequestTaken(u: Setup, s: World): World {
    match ReadOne(s.toGuest)
    case Whole(payload, rest) =>
      (match u.decodeRequest(payload)
       case Some(e) => s.(guest := Checking(e), toGuest := rest, lastRead := e.id)
       case None => s.(guest := Gone))
    case _ => s.(guest := Gone)
  }

  /** A request that does not validate is answered, not dispatched. */
  function Checked(u: Setup, s: World): World
    requires s.guest.Checking?
  {
    var e := s.guest.envelope;
    if Validated(u, e) then s.(guest := Admitted(e))
    else
      var reply := Failed(u.rejection(e.request));
      s.(guest := Replying(e, reply, false, 0), replies := s.replies[e.id := reply])
  }

  function Ran(s: World, result: Outcome): World
    requires s.guest.Admitted?
  {
    var e := s.guest.envelope;
    s.(guest := Dispatched(e, result), dispatches := s.dispatches + [Dispatch(e.id, e.request, result)])
  }

  function Prepared(u: Setup, s: World): World
    requires s.guest.Dispatched?
  {
    var e, reply := s.guest.envelope, Vetted(u, s.guest.result);
    s.(guest := Replying(e, reply, true, 0), replies := s.replies[e.id := reply])
  }

  predicate CanReply(u: Setup, s: World, n: nat) {
    s.guest.Replying? &&
    var payload := ReplyPayload(u, s.guest.envelope.id, s.guest.reply);
    Sendable(payload) ==> 0 < n <= |Encode(payload)| - s.guest.sent
  }

  /** A reply too large for a frame ends the serve loop. */
  function ReplyPushed(u: Setup, s: World, n: nat): World
    requires CanReply(u, s, n)
  {
    var e, reply, admitted := s.guest.envelope, s.guest.reply, s.guest.admitted;
    var payload := ReplyPayload(u, e.id, reply);
    if !Sendable(payload) then s.(guest := Gone)
    else
      var frame, sent := Encode(payload), s.guest.sent + n;
      s.(toHost := s.toHost + frame[s.guest.sent..sent],
         guest := if sent == |frame| then Replied(e, admitted) else Replying(e, reply, admitted, sent))
  }

  /** After a reply the loop reads on, unless the request was of another version or had ID zero. */
  function Turned(u: Setup, s: World): World
    requires s.guest.Replied?
  {
    var e := s.guest.envelope;
    var terminal := e.version != u.version || e.id == 0;
    s.(guest := if !s.guest.admitted && terminal then Gone else Listening)
  }

  // ---------------------------------------------------------------- runs

  ghost predicate Legal(u: Setup, s: World, steps: seq<Step>)
    decreases |steps|
  {
    steps == [] || (Can(u, s, steps[0]) && Legal(u, Do(u, s, steps[0]), steps[1..]))
  }

  /** The state after a legal list of steps; every interleaving is such a list. */
  ghost function After(u: Setup, s: World, steps: seq<Step>): World
    requires Legal(u, s, steps)
    decreases |steps|
  {
    if steps == [] then s else After(u, Do(u, s, steps[0]), steps[1..])
  }

  /** How often the service was called for a request ID. */
  function Dispatches(log: seq<Dispatch>, id: nat): nat {
    if log == [] then 0
    else Dispatches(log[..|log| - 1], id) + if log[|log| - 1].id == id then 1 else 0
  }
}
