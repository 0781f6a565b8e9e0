/** What every run of a session keeps, and the safety results that follow. */
module SessionSafety {
  import opened Bytes
  import opened Model
  import opened Wire
  import opened Session
  import opened Runs

  // ---------------------------------------------------------------- the alignment invariant

  /** The connection's flags and counters, and which calls are still open. */
  ghost predicate Bookkeeping(s: World) {
    && s.nextId == Cur(s) + 1 <= LAST_ID && |s.ends| == Cur(s)
    && (s.poisoned <==> !s.stream)
    && (s.closed ==> s.poisoned)
    && (!s.host.Idle? ==> s.stream && Cur(s) >= 1)
    && (forall i :: 0 <= i < |s.ends| ==> (s.ends[i].Pending? <==> !s.host.Idle? && i == |s.ends| - 1))
    && Positions(s.host, Cur(s), s.lastRead, s.lastGot)
    && (s.stream && s.host.Idle? ==> s.lastGot == Cur(s))
  }

  /** How far the guest has read and the host has been answered, given where the host stands. */
  ghost predicate Positions(host: Host, cur: nat, lastRead: nat, lastGot: nat) {
    && lastGot <= lastRead <= cur <= lastGot + 1
    && (host.Ready? || host.Writing? ==> lastRead == cur - 1)
    && (host.Sent? || host.Awaiting? ==> lastGot == cur - 1)
    && (host.Got? ==> lastGot == cur)
  }

  /** Unread request bytes are a prefix of the current request's frame, as long as the host got. */
  ghost predicate RequestChannel(u: Setup, requests: seq<Request>, host: Host, toGuest: seq<byte>, lastRead: nat) {
    if lastRead >= |requests| then toGuest == []
    else
      var payload := RequestPayload(u, requests, |requests|);
      && toGuest <= Encode(payload)
      && (host.Ready? ==> toGuest == [])
      && (host.Writing? ==> |toGuest| == host.sent < |Encode(payload)|)
      && (host.Sent? || host.Awaiting? ==> toGuest == Encode(payload))
      && (toGuest != [] || host.Writing? ==> Sendable(payload))
  }

  ghost predicate Holding(g: Guest) {
    !g.Listening? && !g.Gone?
  }

  /** The highest ID dispatched so far; the log is in rising order. */
  ghost function LastDispatch(log: seq<Dispatch>): nat {
    if log == [] then 0 else log[|log| - 1].id
  }

  /** The serve loop only ever holds the frame it read last, and stands in step with the logs. */
  ghost predicate GuestPlace(u: Setup, requests: seq<Request>, guest: Guest, dispatches: seq<Dispatch>,
                             replies: map<nat, Outcome>, lastRead: nat, lastGot: nat) {
    && (Holding(guest) ==>
          && 1 <= lastRead <= |requests|
          && guest.envelope == RequestEnvelope(u.version, lastRead, requests[lastRead - 1]))
    && (guest.Checking? || guest.Admitted? || guest.Dispatched? ==> lastRead !in replies)
    && (guest.Checking? || guest.Admitted? ==> LastDispatch(dispatches) < lastRead)
    && (guest.Admitted? ==> u.accepts(guest.envelope.request))
    && (guest.Dispatched? ==>
          |dispatches| > 0 && dispatches[|dispatches| - 1] == Dispatch(lastRead, guest.envelope.request, guest.result))
    && (guest.Replying? ==> lastRead in replies && replies[lastRead] == guest.reply)
    && (guest.Replied? || (guest.Listening? && lastRead >= 1) ==> lastRead in replies)
    && (guest.Replying? || guest.Replied? ==> guest.admitted == u.accepts(guest.envelope.request))
    && (Holding(guest) && !guest.Replied? ==> lastRead == |requests| == lastGot + 1)
  }

  /** Unread response bytes belong to the current call's own reply. */
  ghost predicate ReplyChannel(u: Setup, stream: bool, cur: nat, guest: Guest, toHost: seq<byte>,
                               replies: map<nat, Outcome>, lastRead: nat, lastGot: nat) {
    stream ==>
      if lastGot == cur || lastRead != cur || cur !in replies then toHost == []
      else
        var payload := ReplyPayload(u, cur, replies[cur]);
        && toHost <= Encode(payload)
        && (guest.Replying? ==> |toHost| == guest.sent < |Encode(payload)|)
        && (guest.Replied? || guest.Listening? ==> toHost == Encode(payload))
        && (toHost != [] ==> Sendable(payload))
  }

  /** Each entry of the dispatch log is a request some call made, in strictly rising ID order. */
  ghost predicate DispatchLog(u: Setup, requests: seq<Request>, dispatches: seq<Dispatch>, lastRead: nat)
    requires lastRead <= |requests|
  {
    && (forall k :: 0 <= k < |dispatches| ==>
          var d := dispatches[k];
          1 <= d.id <= lastRead && d.request == requests[d.id - 1] && u.accepts(d.request))
    && (forall j, k :: 0 <= j < k < |dispatches| ==> dispatches[j].id < dispatches[k].id)
  }

  /** `reply` is what the dispatch of `id` produced. */
  ghost predicate FromDispatch(u: Setup, dispatches: seq<Dispatch>, id: nat, reply: Outcome) {
    exists k :: 0 <= k < |dispatches| && dispatches[k].id == id && reply == Vetted(u, dispatches[k].result)
  }

  ghost predicate ReplyLog(u: Setup, requests: seq<Request>, dispatches: seq<Dispatch>,
                           replies: map<nat, Outcome>, lastRead: nat)
    requires lastRead <= |requests|
  {
    forall id :: id in replies ==>
      && 1 <= id <= lastRead
      && if u.accepts(requests[id - 1]) then FromDispatch(u, dispatches, id, replies[id])
         else replies[id] == Failed(u.rejection(requests[id - 1]))
  }

  /** What the host has just read is the reply to its own request. */
  ghost predicate GotOwn(u: Setup, host: Host, cur: nat, replies: map<nat, Outcome>) {
    host.Got? ==> cur in replies && host.envelope == ResponseEnvelope(u.version, cur, replies[cur])
  }

  /** What a finished call returned is the reply to the same ID. */
  ghost predicate Ended(u: Setup, requests: seq<Request>, ends: seq<CallEnd>, replies: map<nat, Outcome>, lastGot: nat)
    requires |ends| == |requests|
  {
    forall i :: 0 <= i < |ends| ==>
      match ends[i]
      case Returned(response) =>
        && i + 1 <= lastGot && i + 1 in replies
        && replies[i + 1] == Succeeded(response) && u.admissible(response) && u.fits(requests[i], response)
      case GuestFailed(error) => i + 1 <= lastGot && i + 1 in replies && replies[i + 1] == Failed(error)
      case _ => true
  }

  /** The host can never receive a response for this ID. */
  ghost predicate Unanswered(s: World, id: nat) {
    s.stream ==> id == Cur(s) == s.lastGot + 1 && s.toHost == []
  }

  /** What a fault at each stage has left behind. */
  ghost predicate FaultMark(s: World, stage: Stage, id: nat) {
    && 1 <= id <= |s.ends|
    && (!stage.GuestAfterResponseWrite? ==> !s.ends[id - 1].Returned?)
    && match stage
       case HostBeforeRequestWrite => id == Cur(s) && s.lastRead < id && s.toGuest == [] && !s.stream
       case HostAfterRequestWrite | HostBeforeResponseRead => id == Cur(s) && !s.stream
       case HostAfterResponseRead => id == Cur(s) && !s.stream && id in s.replies
       case GuestAfterRequestRead | GuestBeforeDispatch =>
         s.guest.Gone? && id == s.lastRead && id !in s.replies && LastDispatch(s.dispatches) < id && Unanswered(s, id)
       case GuestAfterDispatch =>
         s.guest.Gone? && id == s.lastRead && id !in s.replies && LastDispatch(s.dispatches) == id && Unanswered(s, id)
       case GuestBeforeResponseWrite => s.guest.Gone? && id == s.lastRead && id in s.replies && Unanswered(s, id)
       case GuestAfterResponseWrite => s.guest.Gone? && id == s.lastRead && id in s.replies
  }

  ghost predicate Faults(s: World) {
    forall f :: f in s.faults ==> FaultMark(s, f.0, f.1)
  }

  ghost predicate Aligned(u: Setup, s: World) {
    && Bookkeeping(s)
    && RequestChannel(u, s.requests, s.host, s.toGuest, s.lastRead)
    && GuestPlace(u, s.requests, s.guest, s.dispatches, s.replies, s.lastRead, s.lastGot)
    && ReplyChannel(u, s.stream, Cur(s), s.guest, s.toHost, s.replies, s.lastRead, s.lastGot)
    && DispatchLog(u, s.requests, s.dispatches, s.lastRead)
    && ReplyLog(u, s.requests, s.dispatches, s.replies, s.lastRead)
    && GotOwn(u, s.host, Cur(s), s.replies)
    && Ended(u, s.requests, s.ends, s.replies, s.lastGot)
  }

  ghost predicate Inv(u: Setup, s: World) {
    Aligned(u, s) && Faults(s)
  }

  // ---------------------------------------------------------------- every step keeps it

  lemma BeginKeepsInv(u: Setup, s: World, request: Request)
    requires Inv(u, s) && s.host.Idle? && !s.poisoned && s.nextId < LAST_ID
    ensures Inv(u, Opened(s, request))
  {
  }

  /** Steps that poison the connection, at whatever point of the call. */
  lemma PoisonKeepsInv(u: Setup, s: World, end: CallEnd)
    requires Inv(u, s) && !s.host.Idle? && (end.Broke? || end.Cancelled?)
    ensures Inv(u, Poison(s, end))
  {
  }

  /** Recording a fault changes nothing else. */
  lemma AddFault(u: Setup, s: World, stage: Stage, id: nat)
    requires Inv(u, s) && FaultMark(s, stage, id)
    ensures Inv(u, s.(faults := s.faults + {(stage, id)}))
  {
    assert Bookkeeping(s.(faults := s.faults + {(stage, id)}));
  }

  lemma HostFaultMarked(u: Setup, s: World, stage: Stage)
    requires Bookkeeping(s) && RequestChannel(u, s.requests, s.host, s.toGuest, s.lastRead)
    requires GotOwn(u, s.host, Cur(s), s.replies) && stage in HostStages(s.host)
    ensures FaultMark(Poison(s, Broke), stage, Cur(s))
  {
  }

  lemma HostFaultKeepsInv(u: Setup, s: World, stage: Stage)
    requires Inv(u, s) && stage in HostStages(s.host)
    ensures Inv(u, HostFaulted(s, stage))
  {
    HostFaultMarked(u, s, stage);
    PoisonKeepsInv(u, s, Broke);
    AddFault(u, Poison(s, Broke), stage, Cur(s));
  }

  lemma CloseKeepsInv(u: Setup, s: World, closed: bool)
    requires Inv(u, s) && s.host.Idle? && (s.closed ==> closed)
    ensures Inv(u, s.(stream := false, poisoned := true, closed := closed))
  {
  }

  lemma StartWriteKeepsInv(u: Setup, s: World)
    requires Inv(u, s) && s.host.Ready?
    ensures Inv(u, Started(u, s))
  {
    PoisonKeepsInv(u, s, Broke);
  }

  lemma WriteKeepsInv(u: Setup, s: World, n: nat)
    requires Inv(u, s) && CanPush(u, s, n)
    ensures Inv(u, Pushed(u, s, n))
  {
    var frame, sent := Encode(RequestPayload(u, s.requests, Cur(s))), s.host.sent;
    assert s.toGuest == frame[..sent];
    assert frame[..sent] + frame[sent..sent + n] == frame[..sent + n];
  }

  lemma AwaitKeepsInv(u: Setup, s: World)
    requires Inv(u, s) && s.host.Sent?
    ensures Inv(u, s.(host := Awaiting))
  {
  }

  /** Bytes that are a prefix of one frame read as that frame or as nothing yet. */
  lemma PrefixReads(payload: seq<byte>, arrived: seq<byte>)
    requires arrived <= Encode(payload) && (arrived != [] ==> Sendable(payload))
    ensures if arrived == Encode(payload) then ReadOne(arrived) == Whole(payload, [])
            else ReadOne(arrived) in {NoBytes, ShortHeader, ShortPayload}
  {
    assert |Encode(payload)| >= 4;
    if arrived == Encode(payload) {
      ReadsBackFrame(payload, []);
      assert Encode(payload) + [] == arrived;
    } else if arrived != [] {
      TornFrame(payload, |arrived|);
      assert arrived == Encode(payload)[..|arrived|];
    }
  }

  lemma TakeReplyKeepsInv(u: Setup, s: World)
    requires Lawful(u) && Inv(u, s) && s.host.Awaiting?
    ensures Inv(u, ReplyTaken(u, s))
  {
    PoisonKeepsInv(u, s, Broke);
    if ReadOne(s.toHost).Whole? {
      PrefixReads(ReplyPayload(u, Cur(s), s.replies[Cur(s)]), s.toHost);
    }
  }

  /** The reply to the current call, as the call hands it on. */
  ghost predicate EndsAs(u: Setup, s: World, end: CallEnd)
    requires Cur(s) in s.replies && 1 <= Cur(s)
  {
    match end
    case Returned(response) =>
      s.replies[Cur(s)] == Succeeded(response) && u.admissible(response) && u.fits(s.requests[Cur(s) - 1], response)
    case GuestFailed(error) => s.replies[Cur(s)] == Failed(error)
    case _ => false
  }

  lemma CompleteKeepsInv(u: Setup, s: World, end: CallEnd)
    requires Inv(u, s) && s.host.Got? && EndsAs(u, s, end)
    ensures Inv(u, Complete(s, end))
  {
    var t := Complete(s, end);
    assert Bookkeeping(t) && Ended(u, t.requests, t.ends, t.replies, t.lastGot);
    forall f | f in t.faults ensures FaultMark(t, f.0, f.1) {
      assert FaultMark(s, f.0, f.1);
    }
  }

  lemma FinishKeepsInv(u: Setup, s: World)
    requires Inv(u, s) && s.host.Got?
    ensures Inv(u, Finished(u, s))
  {
    var outcome := s.host.envelope.outcome;
    if outcome.Failed? {
      CompleteKeepsInv(u, s, GuestFailed(outcome.error));
    } else if u.admissible(outcome.response) && u.fits(s.requests[Cur(s) - 1], outcome.response) {
      CompleteKeepsInv(u, s, Returned(outcome.response));
    } else {
      PoisonKeepsInv(u, s, Broke);
    }
  }

  /** While the loop is not gone, only the host's faults are on record. */
  lemma GuestMovesKeepFaults(s: World, t: World)
    requires Faults(s) && !s.guest.Gone? && t.faults == s.faults
    requires t.ends == s.ends && t.requests == s.requests && t.stream == s.stream && s.replies.Keys <= t.replies.Keys
    requires s.stream || (t.lastRead == s.lastRead && t.toGuest == s.toGuest) || s.toGuest != []
    ensures Faults(t)
  {
    forall f | f in t.faults ensures FaultMark(t, f.0, f.1) {
      assert FaultMark(s, f.0, f.1);
    }
  }

  /** The guest reading on takes nothing from the logs. */
  lemma LogsLast(u: Setup, requests: seq<Request>, dispatches: seq<Dispatch>, replies: map<nat, Outcome>, lastRead: nat, more: nat)
    requires lastRead <= more <= |requests|
    requires DispatchLog(u, requests, dispatches, lastRead) && ReplyLog(u, requests, dispatches, replies, lastRead)
    ensures DispatchLog(u, requests, dispatches, more) && ReplyLog(u, requests, dispatches, replies, more)
  {
  }

  /** A refusal on record is the reply to a request that is not accepted. */
  lemma RefusalLogged(u: Setup, requests: seq<Request>, dispatches: seq<Dispatch>, replies: map<nat, Outcome>, lastRead: nat)
    requires 1 <= lastRead <= |requests| && ReplyLog(u, requests, dispatches, replies, lastRead)
    requires !u.accepts(requests[lastRead - 1])
    ensures ReplyLog(u, requests, dispatches, replies[lastRead := Failed(u.rejection(requests[lastRead - 1]))], lastRead)
  {
  }

  /** A whole frame before the guest is the current call's, and the host is waiting for its answer. */
  lemma WholeRequestIsCurrent(u: Setup, s: World)
    requires Lawful(u) && Aligned(u, s) && s.guest.Listening? && ReadOne(s.toGuest).Whole?
    ensures s.lastRead == Cur(s) - 1 && s.lastGot == s.lastRead && !s.host.Ready? && !s.host.Writing?
    ensures RequestTaken(u, s) == s.(guest := Checking(RequestEnvelope(u.version, Cur(s), s.requests[Cur(s) - 1])),
                                     toGuest := [], lastRead := Cur(s))
  {
    PrefixReads(RequestPayload(u, s.requests, Cur(s)), s.toGuest);
  }

  lemma WholeRequestKeepsAligned(u: Setup, s: World)
    requires Lawful(u) && Aligned(u, s) && s.guest.Listening? && ReadOne(s.toGuest).Whole?
    ensures Aligned(u, RequestTaken(u, s))
  {
    var t := RequestTaken(u, s);
    WholeRequestIsCurrent(u, s);
    LogsLast(u, s.requests, s.dispatches, s.replies, s.lastRead, Cur(s));
    assert Bookkeeping(t) && RequestChannel(u, t.requests, t.host, t.toGuest, t.lastRead);
    assert ReplyChannel(u, t.stream, Cur(t), t.guest, t.toHost, t.replies, t.lastRead, t.lastGot);
  }

  lemma TakeRequestKeepsInv(u: Setup, s: World)
    requires Lawful(u) && Inv(u, s) && s.guest.Listening?
    ensures Inv(u, RequestTaken(u, s))
  {
    if ReadOne(s.toGuest).Whole? {
      WholeRequestIsCurrent(u, s);
      WholeRequestKeepsAligned(u, s);
      GuestMovesKeepFaults(s, RequestTaken(u, s));
    } else {
      GuestIoKeepsInv(u, s);
    }
  }

  lemma AdmitKeepsInv(u: Setup, s: World)
    requires Inv(u, s) && s.guest.Checking? && Validated(u, s.guest.envelope)
    ensures Inv(u, Checked(u, s))
  {
    GuestMovesKeepFaults(s, Checked(u, s));
  }

  /** The host writes its own version and a positive ID, so only the request itself can be refused. */
  lemma RejectKeepsInv(u: Setup, s: World)
    requires Inv(u, s) && s.guest.Checking? && !Validated(u, s.guest.envelope)
    ensures Inv(u, Checked(u, s))
  {
    var t := Checked(u, s);
    GuestMovesKeepFaults(s, t);
    RefusalLogged(u, s.requests, s.dispatches, s.replies, s.lastRead);
  }

  lemma RunKeepsInv(u: Setup, s: World, result: Outcome)
    requires Inv(u, s) && s.guest.Admitted?
    ensures Inv(u, Ran(s, result))
  {
    var e := s.guest.envelope;
    GuestMovesKeepFaults(s, Ran(s, result));
    LoggedOneMore(u, s.requests, s.dispatches, Dispatch(e.id, e.request, result), s.replies, s.lastRead);
  }

  /** One more dispatch behind the others leaves the replies accounted for. */
  lemma LoggedOneMore(u: Setup, requests: seq<Request>, dispatches: seq<Dispatch>, d: Dispatch,
                      replies: map<nat, Outcome>, lastRead: nat)
    requires 1 <= lastRead <= |requests| && LastDispatch(dispatches) < d.id == lastRead
    requires d.request == requests[lastRead - 1] && u.accepts(d.request)
    requires DispatchLog(u, requests, dispatches, lastRead) && ReplyLog(u, requests, dispatches, replies, lastRead)
    ensures DispatchLog(u, requests, dispatches + [d], lastRead) && ReplyLog(u, requests, dispatches + [d], replies, lastRead)
  {
    forall id | id in replies && u.accepts(requests[id - 1])
      ensures FromDispatch(u, dispatches + [d], id, replies[id])
    {
      var k :| 0 <= k < |dispatches| && dispatches[k].id == id && replies[id] == Vetted(u, dispatches[k].result);
      assert (dispatches + [d])[k] == dispatches[k];
    }
  }

  lemma PrepareKeepsInv(u: Setup, s: World)
    requires Inv(u, s) && s.guest.Dispatched?
    ensures Inv(u, Prepared(u, s))
  {
    assert s.dispatches[|s.dispatches| - 1].id == s.lastRead;
    GuestMovesKeepFaults(s, Prepared(u, s));
  }

  lemma ReplyKeepsInv(u: Setup, s: World, n: nat)
    requires Inv(u, s) && CanReply(u, s, n)
    ensures Inv(u, ReplyPushed(u, s, n))
  {
    GuestIoKeepsInv(u, s);
    GuestMovesKeepFaults(s, s.(guest := Listening));
    var payload, sent := ReplyPayload(u, s.lastRead, s.guest.reply), s.guest.sent;
    if s.stream && Sendable(payload) {
      assert s.toHost == Encode(payload)[..sent];
      assert Encode(payload)[..sent] + Encode(payload)[sent..sent + n] == Encode(payload)[..sent + n];
    }
  }

  lemma TurnKeepsInv(u: Setup, s: World)
    requires Inv(u, s) && s.guest.Replied?
    ensures Inv(u, Turned(u, s))
  {
  }

  lemma GuestIoKeepsInv(u: Setup, s: World)
    requires Inv(u, s)
    ensures Inv(u, s.(guest := Gone))
  {
  }

  lemma GuestFaultKeepsInv(u: Setup, s: World, stage: Stage)
    requires Inv(u, s) && stage in GuestStages(s.guest)
    ensures Inv(u, s.(guest := Gone, faults := s.faults + {(stage, s.guest.envelope.id)}))
  {
    GuestIoKeepsInv(u, s);
    AddFault(u, s.(guest := Gone), stage, s.guest.envelope.id);
  }

  lemma RequestLossKeepsInv(u: Setup, s: World, kept: nat)
    requires Inv(u, s) && !s.stream && kept <= |s.toGuest|
    ensures Inv(u, s.(toGuest := s.toGuest[..kept]))
  {
  }

  lemma ReplyLossKeepsInv(u: Setup, s: World, kept: nat)
    requires Inv(u, s) && s.guest.Gone? && kept <= |s.toHost|
    ensures Inv(u, s.(toHost := s.toHost[..kept]))
  {
  }

  lemma StepKeepsInv(u: Setup, s: World, step: Step)
    requires Lawful(u) && Inv(u, s) && Can(u, s, step)
    ensures Inv(u, Do(u, s, step))
  {
    match step
    case Begin(request) => BeginKeepsInv(u, s, request);
    case Exhaust => CloseKeepsInv(u, s, s.closed);
    case StartWrite => StartWriteKeepsInv(u, s);
    case WriteSome(n) => WriteKeepsInv(u, s, n);
    case AwaitReply => AwaitKeepsInv(u, s);
    case TakeReply => TakeReplyKeepsInv(u, s);
    case Finish => FinishKeepsInv(u, s);
    case HostFault(stage) => HostFaultKeepsInv(u, s, stage);
    case HostIo => PoisonKeepsInv(u, s, Broke);
    case Cancel => PoisonKeepsInv(u, s, Cancelled);
    case Close => CloseKeepsInv(u, s, true);
    case TakeRequest => TakeRequestKeepsInv(u, s);
    case Check => if Validated(u, s.guest.envelope) { AdmitKeepsInv(u, s); } else { RejectKeepsInv(u, s); }
    case Run(result) => RunKeepsInv(u, s, result);
    case Prepare => PrepareKeepsInv(u, s);
    case ReplySome(n) => ReplyKeepsInv(u, s, n);
    case Next => TurnKeepsInv(u, s);
    case GuestFault(stage) => GuestFaultKeepsInv(u, s, stage);
    case GuestIo => GuestIoKeepsInv(u, s);
    case LoseRequest(kept) => RequestLossKeepsInv(u, s, kept);
    case LoseReply(kept) => ReplyLossKeepsInv(u, s, kept);
  }

  lemma {:induction false} RunKeepsInvFrom(u: Setup, s: World, steps: seq<Step>)
    requires Lawful(u) && Inv(u, s) && Legal(u, s, steps)
    ensures Inv(u, After(u, s, steps))
    decreases |steps|
  {
    if steps != [] {
      StepKeepsInv(u, s, steps[0]);
      RunKeepsInvFrom(u, Do(u, s, steps[0]), steps[1..]);
    }
  }

  /** Every state that any interleaving can reach is aligned. */
  lemma Reachable(u: Setup, steps: seq<Step>)
    requires Lawful(u) && Legal(u, Init(), steps)
    ensures Inv(u, After(u, Init(), steps))
  {
    RunKeepsInvFrom(u, Init(), steps);
  }

  // ---------------------------------------------------------------- correlation

  ghost predicate Rising(log: seq<Dispatch>) {
    forall j, k :: 0 <= j < k < |log| ==> log[j].id < log[k].id
  }

  /** In a rising log an ID occurs once or not at all. */
  lemma {:induction false} CountInLog(log: seq<Dispatch>, id: nat)
    requires Rising(log)
    ensures Dispatches(log, id) == if exists k :: 0 <= k < |log| && log[k].id == id then 1 else 0
  {
    if log != [] {
      var front := log[..|log| - 1];
      CountInLog(front, id);
      if exists k :: 0 <= k < |log| && log[k].id == id {
        var k :| 0 <= k < |log| && log[k].id == id;
        assert k < |front| ==> front[k].id == id;
        assert forall j :: 0 <= j < |front| && front[j].id == id ==> j == k;
      }
    }
  }

  /** Where the reply to `id` comes from: its refusal, or what its one dispatch gave and the guest's check lets through. */
  ghost predicate Accounted(u: Setup, request: Request, dispatches: seq<Dispatch>, id: nat, reply: Outcome) {
    if u.accepts(request)
    then exists k :: 0 <= k < |dispatches| && dispatches[k].id == id && dispatches[k].request == request
                     && RepliesWith(u, dispatches[k].result, reply)
    else reply == Failed(u.rejection(request))
  }

  /** Every reply on record is accounted for, so a success on record is one the guest may produce. */
  lemma AccountedState(u: Setup, s: World, id: nat)
    requires Inv(u, s) && id in s.replies
    ensures 1 <= id <= |s.requests| && Accounted(u, s.requests[id - 1], s.dispatches, id, s.replies[id])
    ensures s.replies[id].Succeeded? ==> u.producible(s.replies[id].response)
  {
    if u.accepts(s.requests[id - 1]) {
      var k :| 0 <= k < |s.dispatches| && s.dispatches[k].id == id && s.replies[id] == Vetted(u, s.dispatches[k].result);
      assert RepliesWith(u, s.dispatches[k].result, s.replies[id]);
    }
  }

  /** How a call that has ended came by its end. */
  ghost predicate EndExplained(u: Setup, s: World, id: nat)
    requires 1 <= id <= |s.requests| == |s.ends|
  {
    var request := s.requests[id - 1];
    match s.ends[id - 1]
    case Returned(response) =>
      && Dispatches(s.dispatches, id) == 1 && Dispatch(id, request, Succeeded(response)) in s.dispatches
      && u.accepts(request) && u.producible(response) && u.admissible(response) && u.fits(request, response)
    case GuestFailed(error) =>
      && Dispatches(s.dispatches, id) == (if u.accepts(request) then 1 else 0)
      && Accounted(u, request, s.dispatches, id, Failed(error))
    case _ => true
  }

  lemma CorrelatedState(u: Setup, s: World, id: nat)
    requires Inv(u, s) && 1 <= id <= |s.requests|
    ensures Dispatches(s.dispatches, id) <= 1 && EndExplained(u, s, id)
  {
    CountInLog(s.dispatches, id);
    if s.ends[id - 1].Returned? || s.ends[id - 1].GuestFailed? { AccountedState(u, s, id); }
  }

  /**
   Correlation. However calls, cancellations, faults, losses and closes of any number of clones
   interleave: no request is dispatched twice; the service only ever sees requests that a call
   made and the guest accepts, under that call's ID; a call that returns a success response returns
   the result of the single dispatch of its own request, one that the guest's own check and both of the
   host's let through; and a call that the guest failed was refused undispatched, or the service failed
   it, or the guest's check did not let the service's result through.
   */
  lemma CorrelationSafety(u: Setup, steps: seq<Step>, id: nat)
    requires Lawful(u) && Legal(u, Init(), steps)
    requires 1 <= id <= |After(u, Init(), steps).requests|
    ensures var s := After(u, Init(), steps);
            && |s.ends| == |s.requests|
            && Dispatches(s.dispatches, id) <= 1
            && (forall d :: d in s.dispatches ==>
                  1 <= d.id <= |s.requests| && d.request == s.requests[d.id - 1] && u.accepts(d.request))
            && EndExplained(u, s, id)
  {
    Reachable(u, steps);
    CorrelatedState(u, After(u, Init(), steps), id);
  }

  /** No success that the guest's own check refuses is ever on record as a reply, nor is any reply unaccounted for. */
  lemma RepliesAccounted(u: Setup, steps: seq<Step>, id: nat)
    requires Lawful(u) && Legal(u, Init(), steps) && id in After(u, Init(), steps).replies
    ensures var s := After(u, Init(), steps);
            && 1 <= id <= |s.requests| && Accounted(u, s.requests[id - 1], s.dispatches, id, s.replies[id])
            && (s.replies[id].Succeeded? ==> u.producible(s.replies[id].response))
  {
    Reachable(u, steps);
    AccountedState(u, After(u, Init(), steps), id);
  }

  /**
   Fault stages and dispatches, in every state after the fault: none for a fault before the
   dispatch; one for a fault right after it; for a fault around the response, one exactly when
   the guest's validation accepts the request, else none; at most one when the host faults with
   the request under way. A faulted call returns success only if the response was already written.
   */
  lemma FaultStageDispatches(u: Setup, steps: seq<Step>, stage: Stage, id: nat)
    requires Lawful(u) && Legal(u, Init(), steps)
    requires (stage, id) in After(u, Init(), steps).faults
    ensures var s := After(u, Init(), steps);
            && 1 <= id <= |s.requests| == |s.ends|
            && (s.ends[id - 1].Returned? ==> stage == GuestAfterResponseWrite)
            && match stage
               case HostBeforeRequestWrite | GuestAfterRequestRead | GuestBeforeDispatch =>
                 Dispatches(s.dispatches, id) == 0
               case GuestAfterDispatch => Dispatches(s.dispatches, id) == 1
               case GuestBeforeResponseWrite | GuestAfterResponseWrite | HostAfterResponseRead =>
                 Dispatches(s.dispatches, id) == if u.accepts(s.requests[id - 1]) then 1 else 0
               case HostAfterRequestWrite | HostBeforeResponseRead => Dispatches(s.dispatches, id) <= 1
  {
    Reachable(u, steps);
    var s := After(u, Init(), steps);
    CountInLog(s.dispatches, id);
    assert FaultMark(s, (stage, id).0, (stage, id).1);
    if id in s.replies && u.accepts(s.requests[id - 1]) {
      assert FromDispatch(u, s.dispatches, id, s.replies[id]);
    }
  }

  // ---------------------------------------------------------------- fail-closed

  /**
   With the lock free, the stream is gone exactly when the connection is poisoned, and a closed
   connection is poisoned; while a call holds the lock the stream is there, so neither
   "lost its transport" branch can be taken.
   */
  lemma FailClosed(u: Setup, steps: seq<Step>)
    requires Lawful(u) && Legal(u, Init(), steps)
    ensures var s := After(u, Init(), steps);
            && (s.host.Idle? ==> (s.poisoned <==> !s.stream))
            && (s.closed ==> s.poisoned)
            && (!s.host.Idle? ==> s.stream && !s.poisoned)
            && (forall i :: 0 <= i < |s.ends| ==> (s.ends[i].Pending? <==> !s.host.Idle? && i == |s.ends| - 1))
  {
    Reachable(u, steps);
  }

  /** Poisoning is for ever: no later step writes a byte, opens a call or changes how one ended. */
  lemma {:induction false} PoisonIsAbsorbing(u: Setup, s: World, steps: seq<Step>)
    requires s.poisoned && s.host.Idle? && Legal(u, s, steps)
    ensures var t := After(u, s, steps);
            && t.poisoned && t.host.Idle? && (s.closed ==> t.closed)
            && t.bytesWritten == s.bytesWritten && t.requests == s.requests && t.ends == s.ends
    decreases |steps|
  {
    if steps != [] {
      var t := Do(u, s, steps[0]);
      assert t.poisoned && t.host.Idle? && (s.closed ==> t.closed);
      PoisonIsAbsorbing(u, t, steps[1..]);
    }
  }

  /** After a close, whatever else happens, the connection is closed and nothing is written or begun. */
  lemma CloseIsFinal(u: Setup, before: seq<Step>, later: seq<Step>)
    requires Lawful(u) && Legal(u, Init(), before) && After(u, Init(), before).host.Idle?
    requires var s := After(u, Init(), before); Can(u, s, Close) ==> Legal(u, Do(u, s, Close), later)
    ensures var s := After(u, Init(), before);
            Can(u, s, Close) &&
            var t := After(u, Do(u, s, Close), later);
            && t.closed && t.poisoned && !Do(u, s, Close).stream
            && t.bytesWritten == s.bytesWritten && t.requests == s.requests && t.ends == s.ends
  {
    Reachable(u, before);
    PoisonIsAbsorbing(u, Do(u, After(u, Init(), before), Close), later);
  }

  /** The last ID is never handed out: with it next, no call can begin, and the attempt ends the connection. */
  lemma IdsRunOut(u: Setup, before: seq<Step>, request: Request)
    requires Lawful(u) && Legal(u, Init(), before)
    ensures var s := After(u, Init(), before);
            && |s.requests| < LAST_ID == U64_LIMIT - 1 && s.nextId == |s.requests| + 1
            && (s.host.Idle? && !s.poisoned && s.nextId == LAST_ID ==>
                  && !Can(u, s, Begin(request)) && Can(u, s, Exhaust)
                  && Do(u, s, Exhaust).poisoned && !Do(u, s, Exhaust).stream)
  {
    Reachable(u, before);
  }

  /** The last request is cut short for good. */
  ghost predicate CutShort(u: Setup, s: World) {
    && s.host.Idle? && s.poisoned && !s.stream && Cur(s) >= 1
    && s.lastRead < Cur(s) && |s.toGuest| < |Encode(RequestPayload(u, s.requests, Cur(s)))|
  }

  lemma CutShortStep(u: Setup, s: World, step: Step)
    requires Inv(u, s) && CutShort(u, s) && Can(u, s, step)
    ensures CutShort(u, Do(u, s, step)) && Do(u, s, step).requests == s.requests
  {
    PrefixReads(RequestPayload(u, s.requests, Cur(s)), s.toGuest);
  }

  lemma {:induction false} CutShortStays(u: Setup, s: World, steps: seq<Step>)
    requires Lawful(u) && Inv(u, s) && CutShort(u, s) && Legal(u, s, steps)
    ensures CutShort(u, After(u, s, steps)) && After(u, s, steps).requests == s.requests
    decreases |steps|
  {
    if steps != [] {
      StepKeepsInv(u, s, steps[0]);
      CutShortStep(u, s, steps[0]);
      CutShortStays(u, Do(u, s, steps[0]), steps[1..]);
    }
  }

  /** A request abandoned half-written, by cancellation or an I/O error, is never dispatched. */
  lemma HalfWrittenNeverDispatched(u: Setup, before: seq<Step>, end: Step, later: seq<Step>)
    requires Lawful(u) && Legal(u, Init(), before) && After(u, Init(), before).host.Writing?
    requires end.Cancel? || end.HostIo?
    requires Can(u, After(u, Init(), before), end) && Legal(u, Do(u, After(u, Init(), before), end), later)
    ensures var s := After(u, Init(), before);
            Dispatches(After(u, Do(u, s, end), later).dispatches, Cur(s)) == 0
  {
    Reachable(u, before);
    var s := After(u, Init(), before);
    var t := Do(u, s, end);
    StepKeepsInv(u, s, end);
    CutShortStays(u, t, later);
    RunKeepsInvFrom(u, t, later);
    CountInLog(After(u, t, later).dispatches, Cur(s));
  }

  /**
   A correlated guest failure, a refused request included, leaves both channels empty and the
   connection open for the next call.
   */
  lemma GuestFailureKeepsConnection(u: Setup, steps: seq<Step>, request: Request)
    requires Lawful(u) && Legal(u, Init(), steps)
    requires var s := After(u, Init(), steps);
             s.host.Got? && s.host.envelope.outcome.Failed? && s.nextId < LAST_ID
    ensures var s := After(u, Init(), steps);
            Can(u, s, Finish) &&
            var t := Do(u, s, Finish);
            && t.ends[|t.ends| - 1] == GuestFailed(s.host.envelope.outcome.error)
            && t.toGuest == [] && t.toHost == [] && t.stream && !t.poisoned
            && Can(u, t, Begin(request))
  {
    Reachable(u, steps);
    StepKeepsInv(u, After(u, Init(), steps), Finish);
  }

  // ---------------------------------------------------------------- runs that show the bounds are met

  /** With the lock free and the connection open both channels are empty and the guest is between requests. */
  lemma IdleIsQuiet(u: Setup, s: World)
    requires Inv(u, s) && s.host.Idle? && !s.poisoned
    ensures |s.requests| == |s.ends| && s.stream && s.toGuest == [] && s.toHost == []
    ensures s.guest.Gone? || s.guest.Listening? || (s.guest.Replied? && s.guest.envelope.version == u.version && s.guest.envelope.id != 0)
  {
  }

  /**
   From every reachable state with the lock free, the connection open and the guest still there,
   a further call can be made and can return any response that the validators let through.
   */
  lemma NextCallCanSucceed(u: Setup, before: seq<Step>, request: Request, response: Response)
    returns (steps: seq<Step>, t: World)
    requires Lawful(u) && Legal(u, Init(), before)
    requires var s := After(u, Init(), before);
             && s.host.Idle? && !s.poisoned && !s.guest.Gone? && s.nextId < LAST_ID
             && Sendable(u.encodeRequest(NextEnvelope(u, s, request)))
             && Sendable(ReplyPayload(u, Cur(s) + 1, Succeeded(response)))
    requires u.accepts(request) && u.producible(response) && u.admissible(response) && u.fits(request, response)
    ensures var s := After(u, Init(), before);
            && Leads(u, s, steps, t)
            && t.requests == s.requests + [request] && t.ends == s.ends + [Returned(response)]
            && t.host.Idle? && !t.poisoned && t.toGuest == [] && t.toHost == []
  {
    Reachable(u, before);
    var s := After(u, Init(), before);
    IdleIsQuiet(u, s);
    var first, m := Listen(u, s);
    steps, t := Exchange(u, m, request, response);
    Concat(u, s, first, m, steps, t);
    steps := first + steps;
  }

  /**
   From every such state, a further call whose service result the guest's own check refuses can be made:
   it ends in the guest's complaint, after one dispatch, and the connection stays open.
   */
  lemma UnproducibleResultFails(u: Setup, before: seq<Step>, request: Request, response: Response)
    returns (steps: seq<Step>, t: World)
    requires Lawful(u) && Legal(u, Init(), before)
    requires var s := After(u, Init(), before);
             && s.host.Idle? && !s.poisoned && !s.guest.Gone? && s.nextId < LAST_ID
             && Sendable(u.encodeRequest(NextEnvelope(u, s, request)))
             && Sendable(ReplyPayload(u, Cur(s) + 1, Failed(u.complaint(response))))
    requires u.accepts(request) && !u.producible(response)
    ensures var s := After(u, Init(), before);
            && Leads(u, s, steps, t)
            && t.requests == s.requests + [request] && t.ends == s.ends + [GuestFailed(u.complaint(response))]
            && t.dispatches == s.dispatches + [Dispatch(Cur(s) + 1, request, Succeeded(response))]
            && t.host.Idle? && !t.poisoned && t.toGuest == [] && t.toHost == []
  {
    Reachable(u, before);
    var s := After(u, Init(), before);
    IdleIsQuiet(u, s);
    var first, m := Listen(u, s);
    steps, t := FailedExchange(u, m, request, Succeeded(response), u.complaint(response));
    Concat(u, s, first, m, steps, t);
    steps := first + steps;
  }

  /** A fault at the response of a refused request is met with no dispatch at all. */
  lemma RefusedRequestFaultsUndispatched(u: Setup, request: Request) returns (steps: seq<Step>)
    requires Lawful(u) && !u.accepts(request)
    requires Sendable(u.encodeRequest(RequestEnvelope(u.version, 1, request)))
    ensures Legal(u, Init(), steps)
    ensures var s := After(u, Init(), steps);
            && s.requests == [request] && (GuestBeforeResponseWrite, 1) in s.faults
            && Dispatches(s.dispatches, 1) == 0
  {
    assert Init().requests + [request] == [request];
    var first, m := Deliver(u, Init(), request);
    var second, t := RefuseAndFault(u, m);
    Concat(u, Init(), first, m, second, t);
    steps := first + second;
  }
}
