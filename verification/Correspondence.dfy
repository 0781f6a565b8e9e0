/**
 The session's step system against the imperative code: what the client does in a call, and what the
 serve loop does with a frame and with a whole stream, are runs of the step system with the same bytes,
 the same dispatches and the same outcome.
 */
module Correspondence {
  import opened Bytes
  import opened Model
  import opened Wire
  import opened Session
  import opened Runs
  import Client
  import Serve
  import Texts

  // ---------------------------------------------------------------- the client

  /** How a call with this result ends. */
  function EndOf(result: Client.CallResult): CallEnd {
    match result
    case Success(response) => Returned(response)
    case GuestError(error) => GuestFailed(error)
    case Dropped => Cancelled
    case _ => Broke
  }

  /** The faults on record after a call with this result. */
  function FaultsAfter(faults: set<(Stage, nat)>, result: Client.CallResult, id: nat): set<(Stage, nat)> {
    if result.Faulted? then faults + {(result.stage, id)} else faults
  }

  /** The call that `before` opened is over, with this result. */
  ghost predicate Over(before: World, t: World, result: Client.CallResult)
    requires Steady(before)
  {
    && t.host.Idle? && t.requests == before.requests && t.ends == before.ends[Cur(before) - 1 := EndOf(result)]
    && (t.poisoned <==> !result.Complete()) && (t.stream <==> result.Complete())
    && t.faults == FaultsAfter(before.faults, result, Cur(before))
  }

  lemma FinishAgrees(u: Setup, s: World)
    requires s.host.Got? && 1 <= Cur(s) == |s.ends| && s.stream && !s.poisoned
    ensures var judged := Client.JudgedEnvelope(u, s.host.envelope, Cur(s), s.requests[Cur(s) - 1]);
            Finished(u, s) == if judged.Complete() then Complete(s, EndOf(judged)) else Poison(s, Broke)
  {
  }

  /** A request is ready to go out. */
  ghost predicate ReadyToSend(s: World) {
    Steady(s) && s.host.Ready? && s.stream && !s.poisoned
  }

  /** The part of a frame that gets out before anything else happens. */
  lemma PartAgrees(u: Setup, s: World, fate: Client.Fate) returns (steps: seq<Step>, t: World)
    requires ReadyToSend(s) && HostBeforeRequestWrite !in fate.faults
    requires Sendable(RequestPayload(u, s.requests, Cur(s)))
    ensures Leads(u, s, steps, t)
    ensures var payload := RequestPayload(u, s.requests, Cur(s));
            var out := Client.SentBytes(fate, payload);
            && t == s.(host := t.host, toGuest := s.toGuest + out, bytesWritten := s.bytesWritten + |out|)
            && t.host == (if fate.room < |Encode(payload)| then Writing(fate.room) else Sent)
  {
    var frame := Encode(RequestPayload(u, s.requests, Cur(s)));
    var n := if fate.room < |frame| then fate.room else |frame|;
    OneStep(u, s, StartWrite);
    steps, t := [StartWrite], s.(host := Writing(0));
    assert frame[..0] == [] && s.toGuest + [] == s.toGuest && frame[..|frame|] == frame;
    if n > 0 {
      Extend(u, s, steps, t, WriteSome(n));
      assert frame[0..n] == frame[..n];
      steps, t := steps + [WriteSome(n)], Pushed(u, t, n);
    }
  }

  /** A call that is given up at this point. */
  lemma GivenUp(u: Setup, s: World, dropped: bool) returns (steps: seq<Step>, t: World)
    requires Steady(s) && (s.host.Writing? || s.host.Sent?)
    ensures Leads(u, s, steps, t) && t == Poison(s, if dropped then Cancelled else Broke)
  {
    if dropped {
      OneStep(u, s, Cancel);
      steps, t := [Cancel], Poison(s, Cancelled);
    } else if s.host.Writing? {
      OneStep(u, s, HostIo);
      steps, t := [HostIo], Poison(s, Broke);
    } else {
      OneStep(u, s, AwaitReply);
      Extend(u, s, [AwaitReply], s.(host := Awaiting), HostIo);
      steps, t := [AwaitReply] + [HostIo], Poison(s.(host := Awaiting), Broke);
    }
  }

  /** `SendRequest` under every fate: the same bytes go out, and the call ends or goes on alike. */
  lemma SendAgrees(u: Setup, s: World, fate: Client.Fate) returns (steps: seq<Step>, t: World)
    requires ReadyToSend(s)
    ensures Leads(u, s, steps, t)
    ensures var payload := RequestPayload(u, s.requests, Cur(s));
            var out, result := Client.SentBytes(fate, payload), Client.SendResult(fate, payload);
            && t.toGuest == s.toGuest + out && t.toHost == s.toHost && t.guest == s.guest
            && (result.Some? ==> Over(s, t, result.value))
            && (result.None? ==> t == s.(host := Sent, toGuest := s.toGuest + out, bytesWritten := s.bytesWritten + |out|))
  {
    var payload := RequestPayload(u, s.requests, Cur(s));
    assert s.toGuest + [] == s.toGuest;
    if HostBeforeRequestWrite in fate.faults {
      OneStep(u, s, HostFault(HostBeforeRequestWrite));
      steps, t := [HostFault(HostBeforeRequestWrite)], HostFaulted(s, HostBeforeRequestWrite);
    } else if !Sendable(payload) {
      OneStep(u, s, StartWrite);
      steps, t := [StartWrite], Poison(s, Broke);
    } else {
      steps, t := PartAgrees(u, s, fate);
      var result := Client.SendResult(fate, payload);
      if result.Some? {
        var m, more := t, steps;
        more, t := GivenUp(u, m, result.value.Dropped?);
        Concat(u, s, steps, m, more, t);
        steps := steps + more;
      }
    }
  }

  /** Acting on a response that was read, with or without a fault. */
  lemma ActAgrees(u: Setup, s: World, fault: bool) returns (steps: seq<Step>, t: World)
    requires Steady(s) && s.host.Got? && s.stream && !s.poisoned
    ensures Leads(u, s, steps, t) && t.toHost == s.toHost
    ensures var judged := Client.JudgedEnvelope(u, s.host.envelope, Cur(s), s.requests[Cur(s) - 1]);
            Over(s, t, if fault then Client.Faulted(HostAfterResponseRead) else judged)
  {
    if fault {
      OneStep(u, s, HostFault(HostAfterResponseRead));
      steps, t := [HostFault(HostAfterResponseRead)], HostFaulted(s, HostAfterResponseRead);
    } else {
      FinishAgrees(u, s);
      OneStep(u, s, Finish);
      steps, t := [Finish], Finished(u, s);
    }
  }

  /** Reading, judging and ending, from the moment the host waits. */
  lemma JudgeAgrees(u: Setup, s: World, fate: Client.Fate) returns (steps: seq<Step>, t: World)
    requires Steady(s) && s.host.Awaiting? && s.stream && !s.poisoned && Arrived(s.toHost, s.guest.Gone?)
    requires HostAfterRequestWrite !in fate.faults && HostBeforeResponseRead !in fate.faults
    requires fate.dropped != Some(Client.ReadingResponse)
    ensures Leads(u, s, steps, t)
    ensures var result := Client.ReceiveResult(u, fate, s.toHost, Cur(s), s.requests[Cur(s) - 1]);
            Over(s, t, result) && (result.Complete() ==> ReadOne(s.toHost).Whole? && t.toHost == ReadOne(s.toHost).rest)
  {
    OneStep(u, s, TakeReply);
    steps, t := [TakeReply], ReplyTaken(u, s);
    if t.host.Got? {
      var m, more := t, steps;
      more, t := ActAgrees(u, m, HostAfterResponseRead in fate.faults);
      Concat(u, s, steps, m, more, t);
      steps := steps + more;
    }
  }

  /** The call is faulted or dropped behind its request, whether or not a reply is there. */
  predicate EndsWithoutReply(fate: Client.Fate) {
    || HostAfterRequestWrite in fate.faults || HostBeforeResponseRead in fate.faults
    || fate.dropped == Some(Client.ReadingResponse)
  }

  lemma EndsEarlyAgrees(u: Setup, s: World, fate: Client.Fate) returns (steps: seq<Step>, t: World)
    requires Steady(s) && s.host.Sent? && s.stream && !s.poisoned && EndsWithoutReply(fate)
    ensures Leads(u, s, steps, t)
    ensures var result := Client.ReceiveResult(u, fate, s.toHost, Cur(s), s.requests[Cur(s) - 1]);
            Over(s, t, result) && !result.Complete()
  {
    if HostAfterRequestWrite in fate.faults || HostBeforeResponseRead in fate.faults {
      var stage := if HostAfterRequestWrite in fate.faults then HostAfterRequestWrite else HostBeforeResponseRead;
      OneStep(u, s, HostFault(stage));
      steps, t := [HostFault(stage)], HostFaulted(s, stage);
    } else {
      steps, t := GivenUp(u, s, true);
    }
  }

  /** `ReceiveResponse` under every fate; a read that is waited for finds a frame or the end of the stream. */
  lemma ReceiveFateAgrees(u: Setup, s: World, fate: Client.Fate) returns (steps: seq<Step>, t: World)
    requires Steady(s) && s.host.Sent? && s.stream && !s.poisoned
    requires Arrived(s.toHost, s.guest.Gone?) || EndsWithoutReply(fate)
    ensures Leads(u, s, steps, t)
    ensures var result := Client.ReceiveResult(u, fate, s.toHost, Cur(s), s.requests[Cur(s) - 1]);
            Over(s, t, result) && (result.Complete() ==> ReadOne(s.toHost).Whole? && t.toHost == ReadOne(s.toHost).rest)
  {
    if EndsWithoutReply(fate) {
      steps, t := EndsEarlyAgrees(u, s, fate);
    } else {
      var m := s.(host := Awaiting);
      OneStep(u, s, AwaitReply);
      var more;
      more, t := JudgeAgrees(u, m, fate);
      Concat(u, s, [AwaitReply], m, more, t);
      steps := [AwaitReply] + more;
    }
  }

  /** The guest and the transport move, the host does not. */
  ghost predicate HostRests(s: World, m: World) {
    m.host == s.host && m.requests == s.requests && m.ends == s.ends && m.stream == s.stream && m.poisoned == s.poisoned
  }

  /**
   A whole call that sends its request, whatever the guest then does, and under every fate: a run of
   the step system with the same result.
   */
  lemma CallAgrees(u: Setup, s: World, fate: Client.Fate, between: seq<Step>, m: World) returns (steps: seq<Step>, t: World)
    requires ReadyToSend(s) && Client.SendResult(fate, RequestPayload(u, s.requests, Cur(s))).None?
    requires var out := Client.SentBytes(fate, RequestPayload(u, s.requests, Cur(s)));
             var sent := s.(host := Sent, toGuest := s.toGuest + out, bytesWritten := s.bytesWritten + |out|);
             && Leads(u, sent, between, m) && HostRests(sent, m)
             && (Arrived(m.toHost, m.guest.Gone?) || EndsWithoutReply(fate))
    ensures Leads(u, s, steps, t)
    ensures var result := Client.ResultOf(u, fate, m.toHost, Cur(s), s.requests[Cur(s) - 1]);
            && t.host.Idle? && t.ends == s.ends[Cur(s) - 1 := EndOf(result)]
            && (t.poisoned <==> !result.Complete())
            && t.faults == FaultsAfter(m.faults, result, Cur(s))
  {
    var sent, more;
    steps, sent := SendAgrees(u, s, fate);
    Concat(u, s, steps, sent, between, m);
    steps := steps + between;
    more, t := ReceiveFateAgrees(u, m, fate);
    Concat(u, s, steps, m, more, t);
    steps := steps + more;
  }

  // ---------------------------------------------------------------- the serve loop

  /** The loop with this armed fault or none, this service result and this transport. */
  function Around(u: Setup, armed: Serve.Armed, result: Outcome, sink: Serve.Sink): Serve.Surroundings {
    Serve.Surroundings(u, armed, _ => result, _ => sink, false)
  }

  /** The bytes that get out, in one write or none. */
  lemma WriteAgrees(u: Setup, s: World, sink: Serve.Sink) returns (steps: seq<Step>, t: World)
    requires Steady(s) && s.guest.Replying? && s.guest.sent == 0
    ensures Leads(u, s, steps, t) && Steady(t)
    ensures var e, payload := s.guest.envelope, ReplyPayload(u, s.guest.envelope.id, s.guest.reply);
            && t == s.(toHost := s.toHost + Serve.Taken(payload, sink), guest := t.guest)
            && (if !Sendable(payload) then t.guest.Gone?
                else if sink.room >= |Encode(payload)| then t.guest == Replied(e, s.guest.admitted)
                else t.guest.Replying?)
  {
    var payload := ReplyPayload(u, s.guest.envelope.id, s.guest.reply);
    var frame := Encode(payload);
    var n := if !Sendable(payload) then 1 else if sink.room < |frame| then sink.room else |frame|;
    steps, t := [], s;
    if n == 0 {
      assert frame[..0] == [] && s.toHost + [] == s.toHost;
    } else {
      OneStep(u, s, ReplySome(n));
      steps, t := [ReplySome(n)], ReplyPushed(u, s, n);
      assert frame[..|frame|] == frame && s.toHost + [] == s.toHost;
      assert Sendable(payload) ==> frame[0..n] == Serve.Taken(payload, sink);
    }
  }

  /** After the write: the loop turns, or the transport's failure ends it. */
  lemma AfterWriteAgrees(u: Setup, s: World, fails: bool) returns (steps: seq<Step>, t: World)
    requires Steady(s) && (s.guest.Replied? || (fails && (s.guest.Replying? || s.guest.Gone?)))
    ensures Leads(u, s, steps, t)
    ensures t == s.(guest := t.guest)
    ensures var goesOn := !fails && (s.guest.admitted || !Serve.Terminal(u, s.guest.envelope));
            t.guest == if s.guest.Replied? && goesOn then Listening else Gone
  {
    steps, t := [], s;
    if s.guest.Replied? {
      OneStep(u, s, Next);
      steps, t := [Next], Turned(u, s);
    }
    if fails && !t.guest.Gone? {
      Extend(u, s, steps, t, GuestIo);
      steps, t := steps + [GuestIo], t.(guest := Gone);
    }
  }

  /** A fault at a stage the guest is at. */
  lemma FaultAgrees(u: Setup, s: World, stage: Stage)
    requires Steady(s) && stage in GuestStages(s.guest)
    ensures Leads(u, s, [GuestFault(stage)], s.(guest := Gone, faults := s.faults + {(stage, s.guest.envelope.id)}))
  {
    OneStep(u, s, GuestFault(stage));
  }

  /** Writing a response over any transport, with the fault behind it armed or not. */
  lemma AnswerAgrees(u: Setup, s: World, sink: Serve.Sink, armed: bool) returns (steps: seq<Step>, t: World)
    requires Steady(s) && s.guest.Replying? && s.guest.sent == 0
    ensures Leads(u, s, steps, t)
    ensures var e, payload := s.guest.envelope, ReplyPayload(u, s.guest.envelope.id, s.guest.reply);
            var written := Serve.WriteVerdict(payload, sink).GoOn?;
            && t == s.(toHost := s.toHost + Serve.Taken(payload, sink), guest := t.guest, faults := t.faults)
            && t.guest == (if written && !armed && (s.guest.admitted || !Serve.Terminal(u, e)) then Listening else Gone)
            && t.faults == (if written && armed then s.faults + {(GuestAfterResponseWrite, e.id)} else s.faults)
  {
    var e, payload := s.guest.envelope, ReplyPayload(u, s.guest.envelope.id, s.guest.reply);
    var written := Serve.WriteVerdict(payload, sink).GoOn?;
    var m, more;
    steps, m := WriteAgrees(u, s, sink);
    if written && armed {
      FaultAgrees(u, m, GuestAfterResponseWrite);
      more, t := [GuestFault(GuestAfterResponseWrite)], m.(guest := Gone, faults := m.faults + {(GuestAfterResponseWrite, e.id)});
    } else {
      more, t := AfterWriteAgrees(u, m, !written);
    }
    Concat(u, s, steps, m, more, t);
    steps := steps + more;
  }

  /** Only the guest and what it reads and writes has changed. */
  ghost predicate HostAlone(s: World, t: World) {
    t == s.(guest := t.guest, toGuest := t.toGuest, toHost := t.toHost, dispatches := t.dispatches,
            replies := t.replies, faults := t.faults, lastRead := t.lastRead)
  }

  function RequestRun(d: Dispatch): Request { d.request }

  /** The requests that were run. */
  function Asked(log: seq<Dispatch>): seq<Request> {
    Texts.Mapped(RequestRun, log)
  }

  lemma AskedOneMore(log: seq<Dispatch>, d: Dispatch)
    ensures Asked(log + [d]) == Asked(log) + [d.request] && Asked(log) == Asked(log) + []
  {
  }

  /** What a turn from `s` to `t` did, against what the loop does. */
  ghost predicate Matches(s: World, t: World, turn: Serve.Turn, stage: Option<Stage>, id: nat) {
    && HostAlone(s, t)
    && t.toHost == s.toHost + turn.sent
    && s.dispatches <= t.dispatches && Asked(t.dispatches) == Asked(s.dispatches) + turn.ran
    && t.guest == (if turn.verdict.GoOn? then Listening else Gone)
    && t.faults == if turn.verdict == Serve.Stop(Serve.FAULT) && stage.Some? then s.faults + {(stage.value, id)} else s.faults
  }

  /** The stage at which this request meets the armed fault. */
  function StageMet(u: Setup, armed: Serve.Armed, request: Request): Option<Stage> {
    if Serve.Meets(armed, u.version, request) then Some(armed.stage) else None
  }

  /** Faults before anything is written. */
  lemma FaultedTurnAgrees(u: Setup, s: World, armed: Serve.Armed, result: Outcome, sink: Serve.Sink)
    returns (steps: seq<Step>, t: World)
    requires Steady(s) && s.guest.Admitted?
    requires StageMet(u, armed, s.guest.envelope.request) in
             {Some(GuestAfterRequestRead), Some(GuestBeforeDispatch), Some(GuestAfterDispatch), Some(GuestBeforeResponseWrite)}
    ensures Leads(u, s, steps, t)
    ensures t.toGuest == s.toGuest
    ensures var e := s.guest.envelope;
            Matches(s, t, Serve.ValidatedTurn(Around(u, armed, result, sink), e, 0), StageMet(u, armed, e.request), e.id)
  {
    var e := s.guest.envelope;
    var stage := StageMet(u, armed, e.request).value;
    assert s.toHost + [] == s.toHost;
    AskedOneMore(s.dispatches, Dispatch(e.id, e.request, result));
    var m, first := s, [];
    if stage == GuestAfterDispatch {
      OneStep(u, s, Run(result));
      first, m := [Run(result)], Ran(s, result);
    } else if stage == GuestBeforeResponseWrite {
      first, m := RunAndPrepare(u, s, result);
    }
    FaultAgrees(u, m, stage);
    t := m.(guest := Gone, faults := m.faults + {(stage, e.id)});
    Concat(u, s, first, m, [GuestFault(stage)], t);
    steps := first + [GuestFault(stage)];
  }

  /** Turns that come to writing a response. */
  lemma AnsweredTurnAgrees(u: Setup, s: World, armed: Serve.Armed, result: Outcome, sink: Serve.Sink)
    returns (steps: seq<Step>, t: World)
    requires Steady(s) && s.guest.Admitted? && s.guest.envelope.version == u.version && s.guest.envelope.id != 0
    requires StageMet(u, armed, s.guest.envelope.request) !in
             {Some(GuestAfterRequestRead), Some(GuestBeforeDispatch), Some(GuestAfterDispatch), Some(GuestBeforeResponseWrite)}
    ensures Leads(u, s, steps, t)
    ensures t.toGuest == s.toGuest
    ensures var e := s.guest.envelope;
            Matches(s, t, Serve.ValidatedTurn(Around(u, armed, result, sink), e, 0), StageMet(u, armed, e.request), e.id)
  {
    var e := s.guest.envelope;
    var m, more;
    AskedOneMore(s.dispatches, Dispatch(e.id, e.request, result));
    steps, m := RunAndPrepare(u, s, result);
    more, t := AnswerAgrees(u, m, sink, StageMet(u, armed, e.request) == Some(GuestAfterResponseWrite));
    Concat(u, s, steps, m, more, t);
    steps := steps + more;
  }

  lemma ReadAndCheckAgree(u: Setup, s: World, e: RequestEnvelope) returns (steps: seq<Step>, t: World)
    requires Steady(s) && s.guest.Listening? && ReadOne(s.toGuest).Whole?
    requires u.decodeRequest(ReadOne(s.toGuest).payload) == Some(e)
    ensures Leads(u, s, steps, t) && Steady(t)
    ensures HostAlone(s, t) && t.toGuest == ReadOne(s.toGuest).rest
    ensures t.toHost == s.toHost && t.dispatches == s.dispatches && t.faults == s.faults
    ensures t.guest == if Validated(u, e) then Admitted(e) else Replying(e, Failed(u.rejection(e.request)), false, 0)
  {
    OneStep(u, s, TakeRequest);
    steps, t := [TakeRequest], RequestTaken(u, s);
    Extend(u, s, steps, t, Check);
    steps, t := steps + [Check], Checked(u, t);
  }

  /** The rest of a turn, once the frame is read and checked. */
  lemma CheckedTurnAgrees(u: Setup, s: World, e: RequestEnvelope, armed: Serve.Armed, result: Outcome, sink: Serve.Sink)
    returns (steps: seq<Step>, t: World)
    requires Steady(s)
    requires s.guest == if Validated(u, e) then Admitted(e) else Replying(e, Failed(u.rejection(e.request)), false, 0)
    ensures Leads(u, s, steps, t) && t.toGuest == s.toGuest
    ensures Validated(u, e) ==>
              Matches(s, t, Serve.ValidatedTurn(Around(u, armed, result, sink), e, 0), StageMet(u, armed, e.request), e.id)
    ensures !Validated(u, e) ==>
              var written := Serve.WriteVerdict(Serve.Rejection(u, e), sink);
              Matches(s, t, Serve.Turn(if written.GoOn? && Serve.Terminal(u, e) then Serve.Stop(Serve.ValidationError(u, e)) else written,
                                       Serve.Taken(Serve.Rejection(u, e), sink), []), None, e.id)
  {
    if !Validated(u, e) {
      assert Asked(s.dispatches) == Asked(s.dispatches) + [];
      steps, t := AnswerAgrees(u, s, sink, false);
    } else if StageMet(u, armed, e.request) in
              {Some(GuestAfterRequestRead), Some(GuestBeforeDispatch), Some(GuestAfterDispatch), Some(GuestBeforeResponseWrite)} {
      steps, t := FaultedTurnAgrees(u, s, armed, result, sink);
    } else {
      steps, t := AnsweredTurnAgrees(u, s, armed, result, sink);
    }
  }

  /** Reading and checking a frame first changes nothing that a turn is compared by. */
  lemma MatchesFromRead(s: World, m: World, t: World, turn: Serve.Turn, stage: Option<Stage>, id: nat)
    requires HostAlone(s, m) && m.toHost == s.toHost && m.dispatches == s.dispatches && m.faults == s.faults
    requires Matches(m, t, turn, stage, id)
    ensures Matches(s, t, turn, stage, id)
  {
  }

  lemma DecodedTurnAgrees(u: Setup, s: World, e: RequestEnvelope, armed: Serve.Armed, result: Outcome, sink: Serve.Sink)
    returns (steps: seq<Step>, t: World)
    requires Steady(s) && s.guest.Listening? && ReadOne(s.toGuest).Whole?
    requires u.decodeRequest(ReadOne(s.toGuest).payload) == Some(e)
    ensures Leads(u, s, steps, t) && t.toGuest == ReadOne(s.toGuest).rest
    ensures var turn := Serve.TurnOf(Around(u, armed, result, sink), ReadOne(s.toGuest).payload, 0);
            Matches(s, t, turn, if Validated(u, e) then StageMet(u, armed, e.request) else None, e.id)
  {
    var turn := Serve.TurnOf(Around(u, armed, result, sink), ReadOne(s.toGuest).payload, 0);
    var m, more;
    steps, m := ReadAndCheckAgree(u, s, e);
    more, t := CheckedTurnAgrees(u, m, e, armed, result, sink);
    MatchesFromRead(s, m, t, turn, if Validated(u, e) then StageMet(u, armed, e.request) else None, e.id);
    Concat(u, s, steps, m, more, t);
    steps := steps + more;
  }

  /**
   Every turn of the serve loop, on every frame, service result and transport and with any fault
   armed, is a run of the step system: the same bytes go out, the same request is run, the same fault
   is met, and the loop goes on in one exactly when it does in the other.
   */
  lemma TurnAgrees(u: Setup, s: World, armed: Serve.Armed, result: Outcome, sink: Serve.Sink)
    returns (steps: seq<Step>, t: World)
    requires Steady(s) && s.guest.Listening? && ReadOne(s.toGuest).Whole?
    ensures Leads(u, s, steps, t)
    ensures var payload := ReadOne(s.toGuest).payload;
            var turn := Serve.TurnOf(Around(u, armed, result, sink), payload, 0);
            && (turn.verdict.GoOn? ==> t.toGuest == ReadOne(s.toGuest).rest)
            && match u.decodeRequest(payload)
               case None => Matches(s, t, turn, None, 0)
               case Some(e) => Matches(s, t, turn, StageMet(u, armed, e.request), e.id)
  {
    var decoded := u.decodeRequest(ReadOne(s.toGuest).payload);
    if decoded.None? {
      OneStep(u, s, TakeRequest);
      steps, t := [TakeRequest], RequestTaken(u, s);
      assert s.toHost + [] == s.toHost && Asked(s.dispatches) == Asked(s.dispatches) + [];
    } else {
      steps, t := DecodedTurnAgrees(u, s, decoded.value, armed, result, sink);
    }
  }

  // ---------------------------------------------------------------- the whole loop

  /** The fault met in serving the last of the first `n` frames. */
  function FaultMet(x: Serve.Surroundings, frames: seq<seq<byte>>, n: nat): set<(Stage, nat)>
    requires n <= |frames|
  {
    if n == 0 || !x.armed.Armed? || Serve.TurnOf(x, frames[n - 1], n - 1).verdict != Serve.Stop(Serve.FAULT) then {}
    else match x.u.decodeRequest(frames[n - 1])
         case None => {}
         case Some(e) => {(x.armed.stage, e.id)}
  }

  /** What serving the first `n` frames made of the session. */
  ghost predicate Served(x: Serve.Surroundings, s: World, t: World, n: nat)
    requires n <= |ReadAll(s.toGuest).frames|
  {
    var frames := ReadAll(s.toGuest).frames;
    && HostAlone(s, t)
    && t.toHost == s.toHost + Serve.SentBy(x, frames, n)
    && s.dispatches <= t.dispatches && Asked(t.dispatches) == Asked(s.dispatches) + Serve.RanBy(x, frames, n)
    && t.faults == s.faults + FaultMet(x, frames, n)
  }

  /** A turn does not depend on the results and transports of other frames. */
  lemma TurnInPlace(x: Serve.Surroundings, payload: seq<byte>, k: nat)
    ensures Serve.TurnOf(x, payload, k) == Serve.TurnOf(Around(x.u, x.armed, x.service(k), x.sink(k)), payload, 0)
  {
  }

  /** A fault is met only by a request of the armed transition. */
  lemma FaultOfTurn(x: Serve.Surroundings, frames: seq<seq<byte>>, n: nat, stage: Option<Stage>, id: nat)
    requires 0 < n <= |frames|
    requires match x.u.decodeRequest(frames[n - 1])
             case None => stage == None
             case Some(e) => stage == StageMet(x.u, x.armed, e.request) && id == e.id
    ensures var verdict := Serve.TurnOf(x, frames[n - 1], n - 1).verdict;
            FaultMet(x, frames, n) == if verdict == Serve.Stop(Serve.FAULT) && stage.Some? then {(stage.value, id)} else {}
  {
  }

  /** One more turn, put behind the first `n - 1`. */
  lemma ServedOneMore(x: Serve.Surroundings, s: World, m: World, t: World, n: nat, stage: Option<Stage>, id: nat)
    requires 0 < n <= |ReadAll(s.toGuest).frames| && Served(x, s, m, n - 1)
    requires var frames := ReadAll(s.toGuest).frames;
             var turn := Serve.TurnOf(x, frames[n - 1], n - 1);
             && FaultMet(x, frames, n - 1) == {}
             && Matches(m, t, turn, stage, id)
             && FaultMet(x, frames, n) ==
                (if turn.verdict == Serve.Stop(Serve.FAULT) && stage.Some? then {(stage.value, id)} else {})
    ensures Served(x, s, t, n)
  {
    var frames := ReadAll(s.toGuest).frames;
    var turn := Serve.TurnOf(x, frames[n - 1], n - 1);
    Associative(s.toHost, Serve.SentBy(x, frames, n - 1), turn.sent);
    Associative(Asked(s.dispatches), Serve.RanBy(x, frames, n - 1), turn.ran);
  }

  /** The last of `n` frames, served as the only one. */
  lemma LastTurn(x: Serve.Surroundings, s: World, m: World, n: nat) returns (steps: seq<Step>, t: World)
    requires 0 < n <= |ReadAll(s.toGuest).frames| && Steady(m) && m.guest.Listening?
    requires ReadOne(m.toGuest).Whole? && ReadOne(m.toGuest).payload == ReadAll(s.toGuest).frames[n - 1]
    requires Served(x, s, m, n - 1) && FaultMet(x, ReadAll(s.toGuest).frames, n - 1) == {}
    ensures Leads(x.u, m, steps, t) && Served(x, s, t, n)
    ensures var goesOn := Serve.TurnOf(x, ReadAll(s.toGuest).frames[n - 1], n - 1).verdict.GoOn?;
            t.guest == (if goesOn then Listening else Gone) && (goesOn ==> t.toGuest == ReadOne(m.toGuest).rest)
  {
    var frames := ReadAll(s.toGuest).frames;
    TurnInPlace(x, frames[n - 1], n - 1);
    steps, t := TurnAgrees(x.u, m, x.armed, x.service(n - 1), x.sink(n - 1));
    var decoded := x.u.decodeRequest(frames[n - 1]);
    var stage := if decoded.Some? then StageMet(x.u, x.armed, decoded.value.request) else None;
    var id := if decoded.Some? then decoded.value.id else 0;
    FaultOfTurn(x, frames, n, stage, id);
    ServedOneMore(x, s, m, t, n, stage, id);
  }

  lemma {:induction false} FramesAgree(x: Serve.Surroundings, s: World, n: nat) returns (steps: seq<Step>, t: World)
    requires Steady(s) && s.guest.Listening? && n <= |ReadAll(s.toGuest).frames|
    requires n > 0 ==> Serve.GoesOn(x, ReadAll(s.toGuest).frames, n - 1)
    ensures Leads(x.u, s, steps, t) && Served(x, s, t, n)
    ensures var frames := ReadAll(s.toGuest).frames;
            var goesOn := n == 0 || Serve.TurnOf(x, frames[n - 1], n - 1).verdict.GoOn?;
            && t.guest == (if goesOn then Listening else Gone)
            && (goesOn ==> ReadAll(t.toGuest) == Reading(frames[n..], ReadAll(s.toGuest).ending))
  {
    var frames := ReadAll(s.toGuest).frames;
    if n == 0 {
      steps, t := [], s;
      assert frames[0..] == frames && s.toHost + [] == s.toHost && Asked(s.dispatches) + [] == Asked(s.dispatches);
    } else {
      var m, more;
      steps, m := FramesAgree(x, s, n - 1);
      assert ReadAll(m.toGuest).frames == frames[n - 1..] && frames[n - 1..] != [];
      Serve.FirstFrame(m.toGuest, frames, n - 1);
      more, t := LastTurn(x, s, m, n);
      Concat(x.u, s, steps, m, more, t);
      steps := steps + more;
    }
  }

  /**
   The whole serve loop, on every inbound byte stream and with any fault armed, is one run of the step
   system: where the loop stops after `n` frames with this verdict, the same bytes are out, the same
   requests have been run in the same order, the same fault was met, and the guest is gone, unless the
   stream is still open and may bring more.
   */
  lemma ServeAgrees(x: Serve.Surroundings, s: World, n: nat, last: Serve.Verdict, ending: FrameRead)
    returns (steps: seq<Step>, t: World)
    requires Steady(s) && s.guest.Listening? && n <= |ReadAll(s.toGuest).frames|
    requires Serve.EndsAt(x, ReadAll(s.toGuest), n, last, ending)
    ensures Leads(x.u, s, steps, t) && Served(x, s, t, n)
    ensures t.guest == if last.GoOn? && s.stream && !ending.BadLength? then Listening else Gone
  {
    steps, t := FramesAgree(x, s, n);
    if last.GoOn? && !(s.stream && !ending.BadLength?) {
      assert ReadAll(t.toGuest) == Reading([], ending);
      Extend(x.u, s, steps, t, TakeRequest);
      steps, t := steps + [TakeRequest], RequestTaken(x.u, t);
    }
  }
}
