/**
 Protocol negotiation and version gating (crates/agent-protocol/src/validation.rs,
 crates/agent-protocol/src/model.rs, crates/agent-protocol/src/server.rs).
 */
module Negotiation {
  import opened Bytes
  import opened Model
  import opened Texts
  import opened Wire

  const VERSION_MIN: nat := 1
  const VERSION_MAX: nat := 10

  datatype Range = Range(min: nat, max: nat)

  predicate ValidRange(range: Range) { range.min != 0 && range.min <= range.max }

  predicate Common(host: Range, version: nat) {
    host.min <= version <= host.max && VERSION_MIN <= version <= VERSION_MAX
  }

  /** The highest version both sides implement, or none. */
  function Negotiate(host: Range): (r: Option<nat>)
    ensures r.Some? ==> Common(host, r.value) && forall v: nat :: Common(host, v) ==> v <= r.value
    ensures r.None? <==> !ValidRange(host) || forall v: nat :: !Common(host, v)
  {
    if !ValidRange(host) then None
    else
      var minimum := if host.min > VERSION_MIN then host.min else VERSION_MIN;
      var maximum := if host.max < VERSION_MAX then host.max else VERSION_MAX;
      if minimum > maximum then None
      else
        assert Common(host, maximum);
        Some(maximum)
  }

  // ---------------------------------------------------------------- the three version tables

  /** The registry's table, used for advertising. */
  function OperationMinimum(operation: Operation): nat {
    match operation
    case Create | State | Start | Kill | Delete => 1
    case Wait => 2
    case Exec | SignalProcess | WaitProcess => 3
    case Pause | Resume | Processes => 4
    case Update | Stats => 5
    case ReadOutput | WriteStdin | CloseStdin => 6
    case Resize => 7
    case File | Filesystem => 9
    case AcknowledgeOperations => 10
  }

  /** The request validator's own table. */
  function RequestMinimum(request: Request): nat {
    match request.operation
    case Create | State | Start | Kill | Delete => 1
    case Wait => 2
    case Exec | SignalProcess | WaitProcess => 3
    case Pause | Resume | Processes => 4
    case Update | Stats => 5
    case ReadOutput | WriteStdin | CloseStdin => 6
    case Resize => 7
    case File | Filesystem => 9
    case AcknowledgeOperations => 10
  }

  function ResponseMinimum(kind: ResponseKind): nat {
    match kind
    case StateReport | Deleted => 1
    case ExitStatus => 2
    case Process | ProcessSignaled | ProcessExit => 3
    case ProcessList => 4
    case StatsReport => 5
    case Output | StdinWritten | StdinClosed => 6
    case TerminalResized => 7
    case FileReply | FilesystemReply => 9
    case OperationsAcknowledged => 10
  }

  /** The kind of response the guest's dispatch makes for an operation. */
  function Dispatched(operation: Operation): ResponseKind {
    match operation
    case Create | State | Start | Kill | Pause | Resume | Update => StateReport
    case Delete => Deleted
    case Wait => ExitStatus
    case Exec => Process
    case SignalProcess => ProcessSignaled
    case WaitProcess => ProcessExit
    case Processes => ProcessList
    case Stats => StatsReport
    case ReadOutput => Output
    case WriteStdin => StdinWritten
    case CloseStdin => StdinClosed
    case Resize => TerminalResized
    case File => FileReply
    case Filesystem => FilesystemReply
    case AcknowledgeOperations => OperationsAcknowledged
  }

  /** The pairs the client accepts at all, before it looks at targets and states. */
  predicate KindFits(operation: Operation, kind: ResponseKind) {
    match (operation, kind)
    case (Create, StateReport) => true
    case (State, StateReport) => true
    case (Start, StateReport) => true
    case (Kill, StateReport) => true
    case (Delete, Deleted) => true
    case (Wait, ExitStatus) => true
    case (Exec, Process) => true
    case (SignalProcess, ProcessSignaled) => true
    case (WaitProcess, ProcessExit) => true
    case (Pause, StateReport) => true
    case (Resume, StateReport) => true
    case (Processes, ProcessList) => true
    case (Update, StateReport) => true
    case (Stats, StatsReport) => true
    case (ReadOutput, Output) => true
    case (WriteStdin, StdinWritten) => true
    case (CloseStdin, StdinClosed) => true
    case (Resize, TerminalResized) => true
    case (File, FileReply) => true
    case (Filesystem, FilesystemReply) => true
    case (AcknowledgeOperations, OperationsAcknowledged) => true
    case _ => false
  }

  /** The registry's table and the request validator's agree; it is the operations new in each version. */
  lemma OperationsByVersion(request: Request)
    ensures var o, v := request.operation, OperationMinimum(request.operation);
            && RequestMinimum(request) == v && 1 <= v <= 10
            && (v == 1 <==> o in {Create, State, Start, Kill, Delete})
            && (v == 2 <==> o == Wait)
            && (v == 3 <==> o in {Exec, SignalProcess, WaitProcess})
            && (v == 4 <==> o in {Pause, Resume, Processes})
            && (v == 5 <==> o in {Update, Stats})
            && (v == 6 <==> o in {ReadOutput, WriteStdin, CloseStdin})
            && (v == 7 <==> o == Resize)
            && (v == 9 <==> o in {File, Filesystem})
            && (v == 10 <==> o == AcknowledgeOperations)
  {
  }

  /** Mutations carry an operation identity, process input only from version 8 on, observations never. */
  lemma IdentifiedOperations(o: Operation, version: nat)
    ensures RequiresOperationId(o, version) <==>
            || o in {Create, Start, Kill, Delete, Exec, SignalProcess, Pause, Resume, Update, File, Filesystem}
            || (version >= 8 && o in {WriteStdin, CloseStdin, Resize})
  {
  }

  /** Seven operations are answered with a state, each other one with a kind of its own, as new as the operation. */
  lemma ResponsesByOperation(o: Operation, p: Operation)
    ensures Dispatched(o).StateReport? <==> o in {Create, State, Start, Kill, Pause, Resume, Update}
    ensures Dispatched(o) == Dispatched(p) ==> o == p || Dispatched(o).StateReport?
    ensures ResponseMinimum(Dispatched(o)) == if Dispatched(o).StateReport? then 1 else OperationMinimum(o)
    ensures Dispatched(Delete).Deleted? && Dispatched(Wait).ExitStatus? && Dispatched(Exec).Process?
    ensures Dispatched(SignalProcess).ProcessSignaled? && Dispatched(WaitProcess).ProcessExit?
    ensures Dispatched(ReadOutput).Output? && Dispatched(WriteStdin).StdinWritten? && Dispatched(CloseStdin).StdinClosed?
    ensures Dispatched(File).FileReply? && Dispatched(Filesystem).FilesystemReply?
  {
    match o {
      case Create => case State => case Start => case Kill => case Delete => case Wait => case Exec =>
      case SignalProcess => case WaitProcess => case Pause => case Resume => case Processes => case Update =>
      case Stats => case ReadOutput => case WriteStdin => case CloseStdin => case Resize => case File =>
      case Filesystem => case AcknowledgeOperations =>
    }
  }

  /** What the client waits for is what the guest makes, and an allowed request's answer is never too new. */
  lemma ExpectedResponsePasses(request: Request, kind: ResponseKind, version: nat)
    ensures KindFits(request.operation, kind) <==> kind == Dispatched(request.operation)
    ensures RequestMinimum(request) <= version && KindFits(request.operation, kind) ==> ResponseMinimum(kind) <= version
  {
    match request.operation {
      case Create => case State => case Start => case Kill => case Delete => case Wait => case Exec =>
      case SignalProcess => case WaitProcess => case Pause => case Resume => case Processes => case Update =>
      case Stats => case ReadOutput => case WriteStdin => case CloseStdin => case Resize => case File =>
      case Filesystem => case AcknowledgeOperations =>
    }
  }

  // ---------------------------------------------------------------- capabilities

  /** What a guest says of itself; `textsValid` stands for its version and architecture strings. */
  datatype Capabilities = Capabilities(operations: seq<Operation>, maxFrameBytes: nat, textsValid: bool)

  predicate WellFormed(c: Capabilities) {
    c.textsValid && Distinct(c.operations) && c.maxFrameBytes == MAX_FRAME_BYTES
  }

  predicate AllAllowed(operations: seq<Operation>, version: nat) {
    forall i :: 0 <= i < |operations| ==> OperationMinimum(operations[i]) <= version
  }

  method ValidateCapabilities(c: Capabilities) returns (ok: bool)
    ensures ok <==> WellFormed(c)
  {
    if !c.textsValid { return false; }
    for index := 0 to |c.operations|
      invariant Distinct(c.operations[..index])
    {
      if c.operations[index] in c.operations[..index] {
        var i :| 0 <= i < index && c.operations[i] == c.operations[index];
        return false;
      }
    }
    assert c.operations[..|c.operations|] == c.operations;
    return c.maxFrameBytes == MAX_FRAME_BYTES;
  }

  method ValidateForProtocol(c: Capabilities, version: nat) returns (ok: bool)
    ensures ok <==> WellFormed(c) && VERSION_MIN <= version <= VERSION_MAX && AllAllowed(c.operations, version)
  {
    ok := ValidateCapabilities(c);
    if !ok { return; }
    if !(VERSION_MIN <= version <= VERSION_MAX) { return false; }
    for i := 0 to |c.operations|
      invariant forall k :: 0 <= k < i ==> OperationMinimum(c.operations[k]) <= version
    {
      if OperationMinimum(c.operations[i]) > version { return false; }
    }
  }

  function Kept(operations: seq<Operation>, version: nat): seq<Operation> {
    if operations == [] then []
    else
      var front, last := operations[..|operations| - 1], operations[|operations| - 1];
      Kept(front, version) + (if OperationMinimum(last) <= version then [last] else [])
  }

  /** Exactly the allowed operations are kept, and duplicates cannot appear. */
  lemma {:induction false} KeptIsFilter(operations: seq<Operation>, version: nat)
    ensures AllAllowed(Kept(operations, version), version)
    ensures forall o :: o in Kept(operations, version) <==> o in operations && OperationMinimum(o) <= version
    ensures Distinct(operations) ==> Distinct(Kept(operations, version))
  {
    if operations != [] {
      var front, last := operations[..|operations| - 1], operations[|operations| - 1];
      KeptIsFilter(front, version);
      assert operations == front + [last];
      if Distinct(operations) { assert last !in front; }
    }
  }

  /** `for_protocol`: the retained operations, checked again. */
  method ForProtocol(c: Capabilities, version: nat) returns (r: Option<Capabilities>)
    ensures r.Some? ==> r.value == c.(operations := Kept(c.operations, version))
    ensures WellFormed(c) && VERSION_MIN <= version <= VERSION_MAX ==> r.Some?
    ensures r.Some? ==> WellFormed(r.value) && VERSION_MIN <= version <= VERSION_MAX
  {
    var operations: seq<Operation> := [];
    for i := 0 to |c.operations|
      invariant operations == Kept(c.operations[..i], version)
    {
      assert c.operations[..i + 1][..i] == c.operations[..i];
      if OperationMinimum(c.operations[i]) <= version { operations := operations + [c.operations[i]]; }
    }
    assert c.operations[..|c.operations|] == c.operations;
    KeptIsFilter(c.operations, version);
    var kept := c.(operations := operations);
    var ok := ValidateForProtocol(kept, version);
    return if ok then Some(kept) else None;
  }

  // ---------------------------------------------------------------- the handshake

  datatype Hello = Hello(version: nat, capabilities: Capabilities)

  datatype HelloRefusal = InvalidRange | WrongToken | InvalidService | NoCommonVersion

  datatype HelloOutcome = Accepted(hello: Hello) | Rejected(why: HelloRefusal)

  method ServerHello(host: Range, tokenMatches: bool, service: Capabilities) returns (r: HelloOutcome)
    ensures r.Accepted? <==> tokenMatches && WellFormed(service) && Negotiate(host).Some?
    ensures r == Rejected(InvalidRange) <==> !ValidRange(host)
    ensures r == Rejected(WrongToken) <==> ValidRange(host) && !tokenMatches
    ensures r == Rejected(InvalidService) <==> ValidRange(host) && tokenMatches && !WellFormed(service)
    ensures r.Accepted? ==> r.hello.version == Negotiate(host).value
                            && WellFormed(r.hello.capabilities)
                            && r.hello.capabilities.operations == Kept(service.operations, r.hello.version)
  {
    if !ValidRange(host) { return Rejected(InvalidRange); }
    if !tokenMatches { return Rejected(WrongToken); }
    var ok := ValidateCapabilities(service);
    if !ok { return Rejected(InvalidService); }
    var version := Negotiate(host);
    if version.None? { return Rejected(NoCommonVersion); }
    var capabilities := ForProtocol(service, version.value);
    if capabilities.None? {
      assert false;
    }
    return Accepted(Hello(version.value, capabilities.value));
  }

  predicate HelloAcceptable(requested: Range, hello: Hello) {
    && ValidRange(requested) && Common(requested, hello.version)
    && WellFormed(hello.capabilities) && AllAllowed(hello.capabilities.operations, hello.version)
  }

  method ClientCheck(requested: Range, hello: Hello) returns (ok: bool)
    ensures ok <==> HelloAcceptable(requested, hello)
  {
    if !ValidRange(requested) { return false; }
    if hello.version < requested.min || hello.version > requested.max
       || hello.version < VERSION_MIN || hello.version > VERSION_MAX { return false; }
    ok := ValidateForProtocol(hello.capabilities, hello.version);
  }

  /**
   Both sides of a handshake: it succeeds exactly when the token matches, the service describes
   itself properly and there is a common version. An accepted hello always passes the client's check,
   names the highest common version, and advertises exactly the service's operations of that version.
   */
  method Handshake(host: Range, tokenMatches: bool, service: Capabilities) returns (r: Option<Hello>)
    ensures r.Some? <==> tokenMatches && WellFormed(service) && 1 <= host.min <= host.max && exists v: nat :: Common(host, v)
    ensures r.Some? ==> Common(host, r.value.version) && forall v: nat :: Common(host, v) ==> v <= r.value.version
    ensures r.Some? ==> forall o :: o in r.value.capabilities.operations <==>
              o in service.operations && OperationMinimum(o) <= r.value.version
  {
    var outcome := ServerHello(host, tokenMatches, service);
    if outcome.Rejected? { return None; }
    KeptIsFilter(service.operations, outcome.hello.version);
    var ok := ClientCheck(host, outcome.hello);
    return if ok then Some(outcome.hello) else None;
  }

  // ---------------------------------------------------------------- after the handshake

  predicate IsProcessInput(operation: Operation) {
    operation.WriteStdin? || operation.CloseStdin? || operation.Resize?
  }

  /** The guest's version gate on a request; `wellFormed` stands for the checks without a version. */
  predicate GateOpen(request: Request, version: nat, wellFormed: bool) {
    && RequestMinimum(request) <= version
    && (IsProcessInput(request.operation) ==> (version >= 8 <==> request.operationId.Some?))
    && wellFormed
  }

  /** The gate refuses what is malformed, what is too new, and process input with the identity rule of another version. */
  lemma GateExactly(request: Request, version: nat, wellFormed: bool)
    ensures GateOpen(request, version, wellFormed) <==>
              && wellFormed && OperationMinimum(request.operation) <= version
              && !(request.operation in {WriteStdin, CloseStdin, Resize} && version >= 8 && request.operationId.None?)
              && !(request.operation in {WriteStdin, CloseStdin, Resize} && version < 8 && request.operationId.Some?)
  {
  }

  /**
   Whatever an accepted client writes has an operation of the negotiated version, so the guest can
   refuse a well-formed one only for a missing or premature operation identity on process input.
   */
  lemma WrittenRequestsAreAllowed(requested: Range, hello: Hello, request: Request)
    requires HelloAcceptable(requested, hello) && request.operation in hello.capabilities.operations
    ensures RequestMinimum(request) <= hello.version
    ensures GateOpen(request, hello.version, true) <==>
            (IsProcessInput(request.operation) ==> (request.operationId.Some? <==> RequiresOperationId(request.operation, hello.version)))
    ensures ResponseMinimum(Dispatched(request.operation)) <= hello.version
  {
    var i :| 0 <= i < |hello.capabilities.operations| && hello.capabilities.operations[i] == request.operation;
    assert OperationMinimum(request.operation) <= hello.version;
    ExpectedResponsePasses(request, Dispatched(request.operation), hello.version);
  }
}
