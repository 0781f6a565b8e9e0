/** The operations, requests and responses of the agent protocol (crates/agent-protocol/src/model.rs). */
module Model {
  import opened Bytes

  datatype Operation =
    | Create | State | Start | Kill | Delete | Wait | Exec | SignalProcess | WaitProcess | Pause | Resume
    | Processes | Update | Stats | ReadOutput | WriteStdin | CloseStdin | Resize | File | Filesystem
    | AcknowledgeOperations

  /** A request: its operation, the idempotency identity of its context, and everything else in it. */
  datatype Request = Request(operation: Operation, operationId: Option<Text>, body: Text)

  /** Whether a request must carry an idempotency identity at this version. */
  predicate RequiresOperationId(operation: Operation, version: nat) {
    match operation
    case State | Wait | WaitProcess | Processes | Stats | ReadOutput | AcknowledgeOperations => false
    case WriteStdin | CloseStdin | Resize => version >= 8
    case _ => true
  }

  datatype ResponseKind =
    | StateReport | Deleted | ExitStatus | Process | ProcessSignaled | ProcessExit | ProcessList | StatsReport
    | Output | StdinWritten | StdinClosed | TerminalResized | FileReply | FilesystemReply | OperationsAcknowledged

  datatype Response = Response(kind: ResponseKind, body: Text)

  datatype Outcome = Succeeded(response: Response) | Failed(error: Text)

  datatype RequestEnvelope = RequestEnvelope(version: nat, id: nat, request: Request)
  datatype ResponseEnvelope = ResponseEnvelope(version: nat, id: nat, outcome: Outcome)

  /** The nine points of one call at which a transport fault can be injected. */
  datatype Stage =
    | HostBeforeRequestWrite | HostAfterRequestWrite | HostBeforeResponseRead | HostAfterResponseRead
    | GuestAfterRequestRead | GuestBeforeDispatch | GuestAfterDispatch
    | GuestBeforeResponseWrite | GuestAfterResponseWrite
}
