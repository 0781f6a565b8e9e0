/** Runs of a session put together from steps: sending, serving and receiving, up to one whole exchange. */
module Runs {
  import opened Bytes
  import opened Model
  import opened Wire
  import opened Session

  ghost predicate Leads(u: Setup, s: World, steps: seq<Step>, t: World) {
    Legal(u, s, steps) && After(u, s, steps) == t
  }

  lemma {:induction false} Concat(u: Setup, s: World, first: seq<Step>, m: World, second: seq<Step>, t: World)
    requires Leads(u, s, first, m) && Leads(u, m, second, t)
    ensures Leads(u, s, first + second, t)
    decreases |first|
  {
    if first == [] {
      assert first + second == second;
    } else {
      Concat(u, Do(u, s, first[0]), first[1..], m, second, t);
      assert (first + second)[1..] == first[1..] + second;
    }
  }

  lemma OneStep(u: Setup, s: World, step: Step)
    requires Can(u, s, step)
    ensures Leads(u, s, [step], Do(u, s, step))
  {
    var steps, t := [step], Do(u, s, step);
    var rest := steps[1..];
    assert rest == [];
    assert Legal(u, t, rest);
    assert After(u, t, rest) == t;
    assert After(u, s, steps) == After(u, t, rest);
  }

  lemma Extend(u: Setup, s: World, steps: seq<Step>, m: World, step: Step)
    requires Leads(u, s, steps, m) && Can(u, m, step)
    ensures Leads(u, s, steps + [step], Do(u, m, step))
  {
    OneStep(u, m, step);
    Concat(u, s, steps, m, [step], Do(u, m, step));
  }

  ghost predicate Steady(s: World) {
    1 <= Cur(s) == |s.ends|
  }

  function NextEnvelope(u: Setup, s: World, request: Request): RequestEnvelope {
    RequestEnvelope(u.version, Cur(s) + 1, request)
  }

  /** The lock is free, the connection open and the channel to the guest empty. */
  ghost predicate Open(s: World) {
    && |s.requests| == |s.ends| && s.host.Idle? && s.stream && !s.poisoned && s.toGuest == []
    && s.nextId == Cur(s) + 1 < LAST_ID
  }

  /** An open session can write a whole request. */
  lemma Send(u: Setup, s: World, request: Request) returns (steps: seq<Step>, t: World)
    requires Open(s) && Sendable(u.encodeRequest(NextEnvelope(u, s, request)))
    ensures Leads(u, s, steps, t)
    ensures var frame := Encode(u.encodeRequest(NextEnvelope(u, s, request)));
            t == Opened(s, request).(host := Sent, toGuest := frame, bytesWritten := s.bytesWritten + |frame|)
  {
    var frame := Encode(u.encodeRequest(NextEnvelope(u, s, request)));
    OneStep(u, s, Begin(request));
    steps, t := [Begin(request)], Opened(s, request);
    Extend(u, s, steps, t, StartWrite);
    steps, t := steps + [StartWrite], t.(host := Writing(0));
    Extend(u, s, steps, t, WriteSome(|frame|));
    assert [] + frame[0..|frame|] == frame;
    steps, t := steps + [WriteSome(|frame|)], Pushed(u, t, |frame|);
  }

  /** A whole request frame can be read while the host waits. */
  lemma Receive(u: Setup, s: World, e: RequestEnvelope) returns (steps: seq<Step>, t: World)
    requires Lawful(u) && Steady(s) && s.host.Sent? && s.guest.Listening?
    requires Representable(e.version, e.id) && Sendable(u.encodeRequest(e)) && s.toGuest == Encode(u.encodeRequest(e))
    ensures Leads(u, s, steps, t)
    ensures t == s.(host := Awaiting, guest := Checking(e), toGuest := [], lastRead := e.id)
  {
    ReadsBackFrame(u.encodeRequest(e), []);
    assert s.toGuest + [] == s.toGuest;
    OneStep(u, s, AwaitReply);
    steps, t := [AwaitReply], s.(host := Awaiting);
    Extend(u, s, steps, t, TakeRequest);
    steps, t := steps + [TakeRequest], RequestTaken(u, t);
  }

  /** A request can be carried whole from an open session to a listening guest. */
  lemma Deliver(u: Setup, s: World, request: Request) returns (steps: seq<Step>, t: World)
    requires Lawful(u) && Open(s) && s.guest.Listening? && Sendable(u.encodeRequest(NextEnvelope(u, s, request)))
    ensures Leads(u, s, steps, t) && Steady(t)
    ensures var e := NextEnvelope(u, s, request);
            t == Opened(s, request).(host := Awaiting, guest := Checking(e), toGuest := [], lastRead := e.id,
                                     bytesWritten := t.bytesWritten)
  {
    var m, more;
    steps, m := Send(u, s, request);
    more, t := Receive(u, m, NextEnvelope(u, s, request));
    Concat(u, s, steps, m, more, t);
    steps := steps + more;
  }

  /** An admitted request can be run with any result. */
  lemma RunAndPrepare(u: Setup, s: World, result: Outcome) returns (steps: seq<Step>, t: World)
    requires Steady(s) && s.guest.Admitted?
    ensures Leads(u, s, steps, t)
    ensures var e, reply := s.guest.envelope, Vetted(u, result);
            t == s.(guest := Replying(e, reply, true, 0), replies := s.replies[e.id := reply],
                    dispatches := s.dispatches + [Dispatch(e.id, e.request, result)])
  {
    OneStep(u, s, Run(result));
    steps, t := [Run(result)], Ran(s, result);
    Extend(u, s, steps, t, Prepare);
    steps, t := steps + [Prepare], Prepared(u, t);
  }

  /** What the guest makes of a service's result: one that its own check refuses becomes that check's complaint. */
  ghost predicate RepliesWith(u: Setup, result: Outcome, reply: Outcome) {
    match result
    case Failed(_) => reply == result
    case Succeeded(response) => reply == if u.producible(response) then result else Failed(u.complaint(response))
  }

  /** A guest that holds an accepted request can run it with any result and write the whole reply. */
  lemma Answer(u: Setup, s: World, result: Outcome, reply: Outcome) returns (steps: seq<Step>, t: World)
    requires Steady(s) && s.guest.Checking? && Validated(u, s.guest.envelope) && s.toHost == []
    requires RepliesWith(u, result, reply) && Sendable(ReplyPayload(u, s.guest.envelope.id, reply))
    ensures Leads(u, s, steps, t)
    ensures var e := s.guest.envelope;
            t == s.(guest := Replied(e, true), replies := s.replies[e.id := reply],
                    dispatches := s.dispatches + [Dispatch(e.id, e.request, result)],
                    toHost := Encode(ReplyPayload(u, e.id, reply)))
  {
    var m, more;
    OneStep(u, s, Check);
    more, m := RunAndPrepare(u, Checked(u, s), result);
    Concat(u, s, [Check], Checked(u, s), more, m);
    steps := [Check] + more;
    var frame := Encode(ReplyPayload(u, s.guest.envelope.id, reply));
    Extend(u, s, steps, m, ReplySome(|frame|));
    assert [] + frame[0..|frame|] == frame;
    steps, t := steps + [ReplySome(|frame|)], ReplyPushed(u, m, |frame|);
  }

  /** A host that finds the whole reply to its request returns it. */
  lemma Return(u: Setup, s: World, response: Response) returns (steps: seq<Step>, t: World)
    requires Lawful(u) && Steady(s) && s.host.Awaiting? && u.admissible(response)
    requires u.fits(s.requests[Cur(s) - 1], response) && Sendable(ReplyPayload(u, Cur(s), Succeeded(response)))
    requires Cur(s) < U64_LIMIT && s.toHost == Encode(ReplyPayload(u, Cur(s), Succeeded(response)))
    ensures Leads(u, s, steps, t)
    ensures t == s.(host := Idle, toHost := [], lastGot := Cur(s), ends := s.ends[Cur(s) - 1 := Returned(response)])
  {
    ReadsBackFrame(ReplyPayload(u, Cur(s), Succeeded(response)), []);
    assert s.toHost + [] == s.toHost;
    OneStep(u, s, TakeReply);
    steps, t := [TakeReply], ReplyTaken(u, s);
    Extend(u, s, steps, t, Finish);
    steps, t := steps + [Finish], Finished(u, t);
  }

  /** A guest that holds a request it refuses can write the whole refusal, with no dispatch. */
  lemma Refuse(u: Setup, s: World) returns (steps: seq<Step>, t: World)
    requires Steady(s) && s.guest.Checking? && !Validated(u, s.guest.envelope) && s.toHost == []
    requires var e := s.guest.envelope; Sendable(ReplyPayload(u, e.id, Failed(u.rejection(e.request))))
    ensures Leads(u, s, steps, t)
    ensures var e := s.guest.envelope;
            var reply := Failed(u.rejection(e.request));
            t == s.(guest := Replied(e, false), replies := s.replies[e.id := reply],
                    toHost := Encode(ReplyPayload(u, e.id, reply)))
  {
    var e := s.guest.envelope;
    var frame := Encode(ReplyPayload(u, e.id, Failed(u.rejection(e.request))));
    OneStep(u, s, Check);
    steps, t := [Check], Checked(u, s);
    Extend(u, s, steps, t, ReplySome(|frame|));
    assert [] + frame[0..|frame|] == frame;
    steps, t := steps + [ReplySome(|frame|)], ReplyPushed(u, t, |frame|);
  }

  /** A host that finds a whole failure for its request ends the call with it and keeps the connection. */
  lemma ReturnFailure(u: Setup, s: World, error: Text) returns (steps: seq<Step>, t: World)
    requires Lawful(u) && Steady(s) && s.host.Awaiting? && Sendable(ReplyPayload(u, Cur(s), Failed(error)))
    requires Cur(s) < U64_LIMIT && s.toHost == Encode(ReplyPayload(u, Cur(s), Failed(error)))
    ensures Leads(u, s, steps, t)
    ensures t == s.(host := Idle, toHost := [], lastGot := Cur(s), ends := s.ends[Cur(s) - 1 := GuestFailed(error)])
  {
    ReadsBackFrame(ReplyPayload(u, Cur(s), Failed(error)), []);
    assert s.toHost + [] == s.toHost;
    OneStep(u, s, TakeReply);
    steps, t := [TakeReply], ReplyTaken(u, s);
    Extend(u, s, steps, t, Finish);
    steps, t := steps + [Finish], Finished(u, t);
  }

  /** One whole exchange. */
  lemma Exchange(u: Setup, s: World, request: Request, response: Response) returns (steps: seq<Step>, t: World)
    requires Lawful(u) && Open(s) && s.guest.Listening? && s.toHost == []
    requires Sendable(u.encodeRequest(NextEnvelope(u, s, request)))
    requires Sendable(ReplyPayload(u, Cur(s) + 1, Succeeded(response)))
    requires u.accepts(request) && u.producible(response) && u.admissible(response) && u.fits(request, response)
    ensures Leads(u, s, steps, t)
    ensures t.requests == s.requests + [request] && t.ends == s.ends + [Returned(response)]
    ensures t.host.Idle? && t.stream && !t.poisoned && t.toGuest == [] && t.toHost == []
  {
    var m, more, m';
    steps, m := Deliver(u, s, request);
    more, m' := Answer(u, m, Succeeded(response), Succeeded(response));
    Concat(u, s, steps, m, more, m');
    steps := steps + more;
    more, t := Return(u, m', response);
    Concat(u, s, steps, m', more, t);
    steps := steps + more;
  }

  /** One whole exchange that the service, or the guest's check of its result, lets fail. */
  lemma FailedExchange(u: Setup, s: World, request: Request, result: Outcome, error: Text)
    returns (steps: seq<Step>, t: World)
    requires Lawful(u) && Open(s) && s.guest.Listening? && s.toHost == []
    requires Sendable(u.encodeRequest(NextEnvelope(u, s, request)))
    requires u.accepts(request) && RepliesWith(u, result, Failed(error))
    requires Sendable(ReplyPayload(u, Cur(s) + 1, Failed(error)))
    ensures Leads(u, s, steps, t)
    ensures t.requests == s.requests + [request] && t.ends == s.ends + [GuestFailed(error)]
    ensures t.dispatches == s.dispatches + [Dispatch(Cur(s) + 1, request, result)]
    ensures t.host.Idle? && t.stream && !t.poisoned && t.toGuest == [] && t.toHost == []
  {
    var m, more, m';
    steps, m := Deliver(u, s, request);
    more, m' := Answer(u, m, result, Failed(error));
    Concat(u, s, steps, m, more, m');
    steps := steps + more;
    more, t := ReturnFailure(u, m', error);
    Concat(u, s, steps, m', more, t);
    steps := steps + more;
  }

  /** A guest that has replied to a request of this version is listening again after one step. */
  lemma Listen(u: Setup, s: World) returns (steps: seq<Step>, t: World)
    requires |s.requests| == |s.ends| && s.host.Idle? && (s.guest.Listening? || s.guest.Replied?)
    requires s.guest.Replied? ==> s.guest.envelope.version == u.version && s.guest.envelope.id != 0
    ensures Leads(u, s, steps, t)
    ensures t == s.(guest := Listening)
  {
    steps, t := [], s.(guest := Listening);
    if s.guest.Replied? {
      OneStep(u, s, Next);
      steps := [Next];
    }
  }

  /** A refused request can meet a fault at its response without a dispatch. */
  lemma RefuseAndFault(u: Setup, s: World) returns (steps: seq<Step>, t: World)
    requires s.guest.Checking? && !Validated(u, s.guest.envelope) && Steady(s)
    ensures Leads(u, s, steps, t) && t.requests == s.requests && t.dispatches == s.dispatches
    ensures (GuestBeforeResponseWrite, s.guest.envelope.id) in t.faults
  {
    var stage := GuestBeforeResponseWrite;
    OneStep(u, s, Check);
    steps, t := [Check], Checked(u, s);
    Extend(u, s, steps, t, GuestFault(stage));
    steps, t := steps + [GuestFault(stage)], Do(u, t, GuestFault(stage));
  }
}
