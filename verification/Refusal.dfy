/**
 Requests that the client writes and the guest refuses: process input without an operation identity
 from version 8 on, and with one before (crates/agent-protocol/src/validation.rs).
 */
module Refusal {
  import opened Bytes
  import opened Model
  import opened Wire
  import opened Session
  import opened Runs
  import Client
  import Negotiation
  import Output
  import SessionSafety

  /** A write to standard input is well formed by its target's generation and its size alone. */
  predicate StdinWellFormed(generation: Option<nat>, dataBytes: nat) {
    generation.Some? && generation.value > 0 && dataBytes <= Output.MAX_IO_PAYLOAD_BYTES
  }

  /** A positive generation and at most 4 MiB. */
  lemma StdinWritesExactly(generation: nat, dataBytes: nat)
    ensures StdinWellFormed(Some(generation), dataBytes) <==> generation >= 1 && dataBytes <= 4_194_304
    ensures !StdinWellFormed(None, dataBytes)
  {
  }

  /** The checks without a version, on writes to standard input; the operation identity has no part in them. */
  ghost predicate ChecksStdin(wellFormed: Request -> bool, generation: Text -> Option<nat>, dataBytes: Text -> nat) {
    forall id: Option<Text>, body: Text ::
      wellFormed(Request(WriteStdin, id, body)) <==> StdinWellFormed(generation(body), dataBytes(body))
  }

  /** The session of a negotiated connection: the guest accepts what its version gate lets through. */
  function Negotiated(u: Setup, hello: Negotiation.Hello, wellFormed: Request -> bool): Setup {
    u.(version := hello.version, accepts := request => Negotiation.GateOpen(request, hello.version, wellFormed(request)))
  }

  function Advertised(hello: Negotiation.Hello): set<Operation> {
    set operation <- hello.capabilities.operations
  }

  /**
   Of the requests an accepted client writes, the guest refuses exactly the process input whose
   operation identity is missing from version 8 on or given before.
   */
  lemma RefusedExactly(u: Setup, requested: Negotiation.Range, hello: Negotiation.Hello, wellFormed: Request -> bool, request: Request)
    requires Negotiation.HelloAcceptable(requested, hello) && Client.Allowed(wellFormed, Advertised(hello), request)
    ensures !Negotiated(u, hello, wellFormed).accepts(request) <==>
              Negotiation.IsProcessInput(request.operation) && (request.operationId.Some? <==> hello.version < 8)
  {
    Negotiation.WrittenRequestsAreAllowed(requested, hello, request);
  }

  /** Such a request: any well-formed write to standard input without an identity, from version 8 on. */
  lemma UnnamedWriteIsRefused(u: Setup, requested: Negotiation.Range, hello: Negotiation.Hello, wellFormed: Request -> bool,
                              generation: Text -> Option<nat>, dataBytes: Text -> nat, body: Text)
    requires Negotiation.HelloAcceptable(requested, hello) && hello.version >= 8
    requires WriteStdin in hello.capabilities.operations && ChecksStdin(wellFormed, generation, dataBytes)
    requires StdinWellFormed(generation(body), dataBytes(body))
    ensures var request := Request(WriteStdin, None, body);
            Client.Allowed(wellFormed, Advertised(hello), request) && !Negotiated(u, hello, wellFormed).accepts(request)
  {
    RefusedExactly(u, requested, hello, wellFormed, Request(WriteStdin, None, body));
  }

  /** There is a connection that advertises it, at the newest version. */
  lemma UnnamedWriteCanBeAdvertised(requested: Negotiation.Range) returns (hello: Negotiation.Hello)
    requires Negotiation.ValidRange(requested) && Negotiation.Common(requested, Negotiation.VERSION_MAX)
    ensures Negotiation.HelloAcceptable(requested, hello) && hello.version >= 8
    ensures WriteStdin in hello.capabilities.operations
  {
    hello := Negotiation.Hello(Negotiation.VERSION_MAX, Negotiation.Capabilities([WriteStdin], MAX_FRAME_BYTES, true));
  }

  /**
   For every request that a negotiated client writes and the guest refuses: a run in which the guest
   faults before writing its refusal, and nothing was dispatched.
   */
  lemma RefusedCallFaultsUndispatched(u: Setup, hello: Negotiation.Hello, wellFormed: Request -> bool, request: Request)
    returns (steps: seq<Step>)
    requires var v := Negotiated(u, hello, wellFormed);
             Lawful(v) && !v.accepts(request) && Sendable(v.encodeRequest(RequestEnvelope(v.version, 1, request)))
    ensures var v := Negotiated(u, hello, wellFormed);
            Legal(v, Init(), steps) &&
            var s := After(v, Init(), steps);
            && s.requests == [request] && (GuestBeforeResponseWrite, 1) in s.faults
            && Dispatches(s.dispatches, 1) == 0
  {
    steps := SessionSafety.RefusedRequestFaultsUndispatched(Negotiated(u, hello, wellFormed), request);
  }

  /** And one in which the client is told so, nothing was dispatched, and the connection stays open. */
  lemma RefusedCallFails(u: Setup, hello: Negotiation.Hello, wellFormed: Request -> bool, request: Request)
    returns (steps: seq<Step>)
    requires var v := Negotiated(u, hello, wellFormed);
             && Lawful(v) && !v.accepts(request) && Sendable(v.encodeRequest(RequestEnvelope(v.version, 1, request)))
             && Sendable(ReplyPayload(v, 1, Failed(v.rejection(request))))
    ensures var v := Negotiated(u, hello, wellFormed);
            Legal(v, Init(), steps) &&
            var s := After(v, Init(), steps);
            && s.requests == [request] && s.ends == [GuestFailed(v.rejection(request))] && s.dispatches == []
            && s.host.Idle? && !s.poisoned && s.toGuest == [] && s.toHost == []
  {
    var v := Negotiated(u, hello, wellFormed);
    var m, more, m', t;
    steps, m := Deliver(v, Init(), request);
    more, m' := Refuse(v, m);
    Concat(v, Init(), steps, m, more, m');
    steps := steps + more;
    more, t := ReturnFailure(v, m', v.rejection(request));
    Concat(v, Init(), steps, m', more, t);
    steps := steps + more;
  }

  /** Both runs for any well-formed write to standard input without an identity, from version 8 on. */
  lemma UnnamedWriteRuns(u: Setup, requested: Negotiation.Range, hello: Negotiation.Hello, wellFormed: Request -> bool,
                         generation: Text -> Option<nat>, dataBytes: Text -> nat, body: Text)
    returns (faulted: seq<Step>, failed: seq<Step>)
    requires Negotiation.HelloAcceptable(requested, hello) && hello.version >= 8
    requires WriteStdin in hello.capabilities.operations && ChecksStdin(wellFormed, generation, dataBytes)
    requires StdinWellFormed(generation(body), dataBytes(body))
    requires var v, request := Negotiated(u, hello, wellFormed), Request(WriteStdin, None, body);
             && Lawful(v) && Sendable(v.encodeRequest(RequestEnvelope(v.version, 1, request)))
             && Sendable(ReplyPayload(v, 1, Failed(v.rejection(request))))
    ensures var v, request := Negotiated(u, hello, wellFormed), Request(WriteStdin, None, body);
            && Client.Allowed(wellFormed, Advertised(hello), request)
            && Legal(v, Init(), faulted) && (GuestBeforeResponseWrite, 1) in After(v, Init(), faulted).faults
            && Dispatches(After(v, Init(), faulted).dispatches, 1) == 0
            && Legal(v, Init(), failed) && After(v, Init(), failed).ends == [GuestFailed(v.rejection(request))]
            && After(v, Init(), failed).dispatches == [] && !After(v, Init(), failed).poisoned
  {
    var request := Request(WriteStdin, None, body);
    UnnamedWriteIsRefused(u, requested, hello, wellFormed, generation, dataBytes, body);
    faulted := RefusedCallFaultsUndispatched(u, hello, wellFormed, request);
    failed := RefusedCallFails(u, hello, wellFormed, request);
  }
}
