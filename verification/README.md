# A model of the A3S OCI runtime's host-to-guest core

The runtime starts containers inside utility VMs. A host client and a guest agent talk over one byte
stream; the guest takes a one-time token, leaves an authenticated recovery report, and captures process
output; the containerd shim names every mutation so that retries are recognised. This project models
that core and proves what it is there for.

The main results, in the order of their difficulty:

- **Session** (`Session.dfy`, `Runs.dfy`, `SessionSafety.dfy`). Any number of client clones, the serve loop and the
  two byte channels as one step system: a step for each point at which a fault, a cancellation, an I/O
  error, a close or the other side can get in between, writes and reads byte by byte. One invariant over
  21 steps gives correlation (a success is the result of the single dispatch of the caller's own request),
  the dispatch count for a fault at each of nine stages, and the fail-closed connection. What a call returns
  has passed the guest's own check of its service, and both checks of the host.
- **Client** (`Client.dfy`), **Wire** (`Wire.dfy`) and **Serve** (`Serve.dfy`). The same code in its own
  imperative form, against arbitrary bytes from the other side: one call, close, framing, the serve loop,
  how a session's end is classified, and the armed qualification fault.
- **Correspondence** (`Correspondence.dfy`). The two forms agree: every call under every fate, and the whole
  serve loop on every inbound byte stream with any fault armed, is a run of the step system.
- **Refusal** (`Refusal.dfy`). The requests a real client writes and the guest refuses, and their runs.
- **Handoff** (`Handoff.dfy`, `HandoffSteps.dfy`, `HandoffRaces.dfy`, `HandoffPublication.dfy`,
  `HandoffAgreement.dfy`). The token and report files with failing system calls and an interfering process,
  and every interleaving of any number of consumers, publishers and an environment, with files and their
  reusable inode numbers apart; and the two forms agree process by process.
- **Output** (`Output.dfy`). The guest's retained output buffer, the envelope check and the client's
  cursor check, composed: a run of polls delivers the process's output log, unit by unit.
- **Recovery**, **Auth**, **Identity**, **Negotiation**, **Waiting**, **Manifest**, **Storage**, **Archive**:
  canonical reports, HMAC authentication, idempotency identities and retries, version negotiation, polling
  waits, VM attachment manifests with their network and storage entries, and the pinned archive.

`Bytes.dfy`, `Texts.dfy`, `Framing.dfy` and `Paths.dfy` hold bytes, the order of texts, length-framed lists
and paths, each with an independent reading of its encoding; `Model.dfy` the operations and envelopes.
Texts are sequences of integers below 256; `Auth.dfy` works on 8-bit vectors, because it takes exclusive-or.

Parameters of the model: the JSON codec (decoding undoes encoding, for 16-bit versions and 64-bit IDs, is
all that is asked of it), SHA-256 (any function with 32-byte results), the request and response validators
that do not concern versions or output, the guest service (any result for any request), clocks, which
system call fails, how many bytes a transport takes, and what another process does to a directory.
Unsigned 64-bit counters are checked against their limit wherever the code checks them.

Where the code falls short of the plain statement, the exact condition is proved:

- A fault around the response means one dispatch exactly when the guest accepts the request; a refused
  request meets the same fault with none (`FaultStageDispatches`). A real client writes such requests: of what
  it writes, the guest refuses exactly the process input whose operation identity is missing from version 8 on
  or given before (`RefusedExactly`, `UnnamedWriteRuns`).
- A session reconnects exactly when the transport ended it, which includes losing the answer to a frame of the
  wrong version or with ID zero (`SessionClassification`, `WrongVersionCanReconnect`).
- The bytes of an operation identity are injective except that an operation without a task incarnation can
  alias one with it, exactly in the way `Aliases` says (`OperationIdentity`, `LegacyAlias`).
- The identity check and the unlink of a handoff file are two system calls, and the check compares inode
  numbers. A foreign entry is removed only if the name is bound anew between the two, or by a publisher that
  failed after writing: it closes its file first, so if its entry was taken while it was at work its number may
  lead to another file. Without a binding in between, that is the exact condition; consumers are not affected
  (`ForeignRemoval`, `SwapInTheWindow`, `NumberReused`).
- A failed report that others leave alone stays behind exactly so. One that could not be made private stays if
  it could not be identified when it was opened, if its mode is not 0600, on which the clean-up insists, or if
  unlinking fails. A later failure leaves it if unlinking fails while it still has the name (`PublishReport`,
  `ReportLeftBehind`, `UnseenReportRemoved`).
- A virtio serial runs three numbers together and cuts them off at 20 digits. A file shares it with another of
  the same digit counts exactly if its own numbers have more than 20 digits together (`SerialExactness`). Uncut,
  it tells files apart whose device and raw device have as many digits (`SerialTellsApart`); across digit counts
  files can collide (`SerialsCollide`).

## Model

| member | source | states |
|---|---|---|
| `SessionSafety.CorrelationSafety` | crates/agent-protocol/src/client.rs:507-628 | In every interleaving of calls, cancellations, faults, losses and closes by any number of clones: no request is dispatched twice, the service sees only accepted requests of real calls under their own IDs; a call that returns success returns the result of the one dispatch of its own request, one that the guest's own check, the host's response check and its check against the request all let through; a call that ends in a guest failure was refused undispatched, or failed by its one dispatch, or its service result was refused by the guest's check. |
| `SessionSafety.RepliesAccounted` | crates/agent-protocol/src/server.rs:249-259 | In every reachable state every reply on record is the refusal of a refused request or what its dispatch gave; a success on record is one the guest's own check lets through. |
| `SessionSafety.UnproducibleResultFails` | crates/agent-protocol/src/server.rs:249-259 | From every reachable state with the lock free, the connection open and the guest there, a call whose service result does not validate ends in the guest's complaint, after one dispatch, with the connection open. |
| `SessionSafety.FaultStageDispatches` | crates/agent-protocol/src/server.rs:224-272 | After a fault at each of the nine stages, in every later state, how often that request was dispatched: none before dispatch, one right after it, at most one while the host waits; around the response one exactly when the guest accepts the request. Success is returned for a faulted call only at guest-after-response-write. |
| `Refusal.RefusedExactly` | crates/agent-protocol/src/validation.rs:286-308 | Of the requests a negotiated client writes, the guest refuses exactly the process input whose operation identity is missing from version 8 on or given before. |
| `Refusal.UnnamedWriteIsRefused` | crates/agent-protocol/src/validation.rs:328-343 | Any well-formed write to standard input without an identity, on a connection of version 8 or later that advertises it: the client writes it and the guest refuses it. |
| `Refusal.UnnamedWriteCanBeAdvertised` | crates/agent-protocol/src/validation.rs:537-556 | There is such a connection, at the newest version. |
| `Refusal.UnnamedWriteRuns` | crates/agent-protocol/src/server.rs:201-222 | For every such write: a run that faults before the refusal is written with nothing dispatched, so "exactly one" is false of that stage for requests real clients send; and a run that ends in the guest's failure with nothing dispatched and the connection open. |
| `Refusal.RefusedCallFaultsUndispatched` | crates/agent-protocol/src/server.rs:389-420 | The first of these runs for every refused request of a negotiated client. |
| `Refusal.RefusedCallFails` | crates/agent-protocol/src/server.rs:201-222 | The second of them. |
| `Runs.RefuseAndFault` | crates/agent-protocol/src/server.rs:389-420 | A guest holding a refused request can meet the response fault without a dispatch. |
| `SessionSafety.FailClosed` | crates/agent-protocol/src/client.rs:64-109 | In every reachable state: with the lock free, poisoned if and only if the stream is gone; closed implies poisoned; while a call is under way the stream is there, so the "lost its transport" branches are dead; only the lock holder's call is open. |
| `SessionSafety.PoisonIsAbsorbing` | crates/agent-protocol/src/client.rs:104-109 | From a poisoned connection no run writes another byte, opens a call, changes how a call ended, or undoes a close. |
| `SessionSafety.CloseIsFinal` | crates/agent-protocol/src/client.rs:192-235 | After a close in any reachable state the connection is closed for ever and nothing is written, begun or changed. |
| `SessionSafety.IdsRunOut` | crates/agent-protocol/src/client.rs:526-536 | The last 64-bit ID is never handed out: with it next no call can begin and the attempt poisons the connection. |
| `SessionSafety.HalfWrittenNeverDispatched` | crates/agent-protocol/src/client.rs:558-561 | A request abandoned by cancellation or an I/O error before its last byte is never dispatched, in any continuation. |
| `SessionSafety.CutShortStays` | crates/agent-protocol/src/wire.rs:49-87 | Once a request is cut short for good it stays so over every run. |
| `SessionSafety.GuestFailureKeepsConnection` | crates/agent-protocol/src/client.rs:610-626 | A correlated guest failure, a refused request included, leaves both channels empty, the connection open and the next call possible. |
| `SessionSafety.NextCallCanSucceed` | crates/agent-protocol/src/client.rs:507-628 | From every reachable state with the lock free, the connection open and the guest there, a further call can return any response the validators let through. |
| `Runs.Exchange` | crates/agent-protocol/src/server.rs:198-273 | From every open session with empty channels and a listening guest one whole exchange can be made, and it ends in such a session. |
| `Runs.Deliver` | crates/agent-protocol/src/wire.rs:9-39 | A request can be carried whole from an idle session to a listening guest. |
| `Runs.Answer` | crates/agent-protocol/src/server.rs:240-272 | A guest holding an accepted request can run it with any result and write the whole reply; a result that does not validate becomes its complaint. |
| `Runs.FailedExchange` | crates/agent-protocol/src/server.rs:249-259 | One whole exchange that the service, or the check of its result, lets fail; the session is open again. |
| `Runs.Return` | crates/agent-protocol/src/client.rs:585-627 | A host that finds the whole reply to its request returns it and frees the lock. |
| `Runs.Refuse` | crates/agent-protocol/src/server.rs:201-222 | A guest holding a refused request can write the whole refusal with no dispatch. |
| `Runs.ReturnFailure` | crates/agent-protocol/src/client.rs:612-627 | A host that finds a whole failure for its request ends the call with it and keeps the connection. |
| `SessionSafety.Reachable` | crates/agent-protocol/src/client.rs:507-628 | Every state of every run satisfies the alignment invariant between flags, IDs, channel bytes, serve loop, dispatch log and replies. |
| `SessionSafety.StepKeepsInv` | crates/agent-protocol/src/server.rs:198-273 | Each of the 21 steps of host, guest and transport keeps that invariant. |
| `SessionSafety.PoisonKeepsInv` | crates/agent-protocol/src/client.rs:104-109 | Poisoning with the lock held keeps it. |
| `SessionSafety.HostFaultKeepsInv` | crates/agent-protocol/src/client.rs:543-607 | A fault at a host stage keeps it and leaves the mark of its stage. |
| `SessionSafety.TakeReplyKeepsInv` | crates/agent-protocol/src/client.rs:585-600 | Reading a response keeps it: what is read is the reply to the call's own ID. |
| `SessionSafety.CompleteKeepsInv` | crates/agent-protocol/src/client.rs:612-627 | Completing a call with its own reply keeps it. |
| `SessionSafety.TakeRequestKeepsInv` | crates/agent-protocol/src/server.rs:198-200 | Reading a request keeps it: what is read is the current call's whole frame. |
| `SessionSafety.WholeRequestIsCurrent` | crates/agent-protocol/src/server.rs:198-200 | A whole frame before the guest is the frame of the current call, which is waiting for its answer. |
| `SessionSafety.RejectKeepsInv` | crates/agent-protocol/src/server.rs:201-222 | Refusing a request keeps it. |
| `SessionSafety.RunKeepsInv` | crates/agent-protocol/src/server.rs:240-248 | Dispatching keeps it: the log stays in strictly rising ID order. |
| `SessionSafety.ReplyKeepsInv` | crates/agent-protocol/src/server.rs:260-272 | Writing any part of a response keeps it. |
| `SessionSafety.GuestFaultKeepsInv` | crates/agent-protocol/src/server.rs:224-250 | A fault at a guest stage keeps it. |
| `SessionSafety.RequestLossKeepsInv` | crates/agent-protocol/src/wire.rs:49-87 | Losing the tail of an abandoned request keeps it. |
| `Correspondence.ServeAgrees` | crates/agent-protocol/src/server.rs:198-272 | The whole imperative serve loop, on every inbound byte stream and with any fault armed or none, is one run of the step system: same bytes out, same requests run in the same order, same fault met, and the guest gone exactly when the loop has returned. |
| `Correspondence.TurnAgrees` | crates/agent-protocol/src/server.rs:198-272 | Each turn of it, on every frame, service result and transport: same bytes out, same request run, same fault met, same continuation. |
| `Correspondence.CallAgrees` | crates/agent-protocol/src/client.rs:543-627 | A call that sends its request, whatever the guest then does and under every fate of faults, short writes and drops, its reply outstanding or not, is a run of the step system with the same result, poisoning and faults. Only a call that goes on to read waits until a frame or the end of the stream is there. |
| `Correspondence.SendAgrees` | crates/agent-protocol/src/client.rs:543-561 | The sending half under every fate: same bytes out, and the call ends or goes on alike. |
| `Correspondence.ReceiveFateAgrees` | crates/agent-protocol/src/client.rs:562-627 | The receiving half under every fate and for every incoming byte string; a call faulted or dropped before its read does not wait for one. |
| `Client.ClientConnection.CallOnce` | crates/agent-protocol/src/client.rs:507-628 | One call: refused calls move nothing; a live connection survives exactly the complete correlated responses; a completed call wrote its whole frame and took exactly the frame that answers its own ID; in all cases only a prefix of its frame is out; it completes if and only if nothing interferes and the first frame is its answer. |
| `Client.ClientConnection.SendRequest` | crates/agent-protocol/src/client.rs:543-561 | The frame goes out whole if and only if no fault, refusal, drop, short write or failed flush interferes; otherwise a prefix of it is out. |
| `Client.ClientConnection.ReceiveResponse` | crates/agent-protocol/src/client.rs:562-627 | The verdict on the peer's first frame, and completion exactly for a correlated success or failure. |
| `Client.ClientConnection.ActOn` | crates/agent-protocol/src/client.rs:608-627 | A decoded response is judged in order: correlation, admissibility, fit with its request; the connection is kept exactly for a success or a guest failure. |
| `Client.JudgedExactly` | crates/agent-protocol/src/client.rs:585-627 | A call succeeds with a response if and only if the peer's first whole frame decodes to it under this version and this call's ID and both checks pass; it fails with a guest error if and only if such a frame carries it. |
| `Client.ClientConnection.CloseOnce` | crates/agent-protocol/src/client.rs:192-235 | Close is idempotent and final: closed, poisoned and without stream whatever the shutdown does; when it reports success, a fault or a failure. |
| `Client.ClientConnection.PoisonAndRelease` | crates/agent-protocol/src/client.rs:104-109 | Poisoned and without stream. |
| `Client.ClientConnection.constructor` | crates/agent-protocol/src/client.rs:168-180 | A fresh connection is open and starts at ID 1. |
| `Wire.StreamRoundTrip` | crates/agent-protocol/src/wire.rs:9-87 | Reading the concatenated encodings of any sendable payloads returns that list, then a clean end. |
| `Wire.TruncatedStream` | crates/agent-protocol/src/wire.rs:49-87 | Cut anywhere, a stream yields exactly the frames that arrived whole; the end is clean if and only if the cut is on a frame boundary; never a bad length. |
| `Wire.ReadingIsExact` | crates/agent-protocol/src/wire.rs:49-87 | Any byte stream is the frames read from it plus an unread tail, and every frame read was sendable: decoder and encoder accept the same lengths. |
| `Wire.ReadsBackFrame` | crates/agent-protocol/src/wire.rs:9-87 | A whole frame is read back whatever follows it. |
| `Wire.TornFrame` | crates/agent-protocol/src/wire.rs:55-83 | A proper prefix of a frame reads as nothing, a short header or a short payload, by where it is cut. |
| `Wire.HeaderIsCanonical` | crates/agent-protocol/src/wire.rs:66-70 | A length header is the encoding of the length it decodes to. |
| `Wire.LengthDecides` | crates/agent-protocol/src/wire.rs:66-87 | For every four-byte length and whatever follows: the length is refused if and only if it is zero or above 64 MiB, and otherwise says how much of what follows is the payload. |
| `Wire.BadLengthExactly` | crates/agent-protocol/src/wire.rs:67-72 | A stream reads as a bad length if and only if it starts with the four bytes of a refused one. |
| `Wire.ReadsBackFrames` | crates/agent-protocol/src/wire.rs:49-87 | Frames and then anything: the frames are read back and what follows decides the ending. |
| `Wire.ReadOne` | crates/agent-protocol/src/wire.rs:49-87 | A frame that is read, and the rest, make up the stream. |
| `Bytes.BigEndianPlaces` | crates/agent-protocol/src/wire.rs:27-28 | The byte at each place of a big-endian number, the most significant first. |
| `Wire.ByteStream.ReadFrame` | crates/agent-protocol/src/wire.rs:49-87 | The imperative read finds what the reference function finds and leaves the rest. |
| `Wire.ByteStream.ReadExact` | crates/agent-protocol/src/wire.rs:61-83 | Fills the buffer with the next bytes, or fails having taken all there were. |
| `Wire.ByteStream.WriteFrame` | crates/agent-protocol/src/wire.rs:9-39 | Each end if and only if its cause; what got out is a prefix of the frame, all of it on success, nothing when the length is refused. |
| `Serve.SessionClassification` | crates/agent/src/lib.rs:614-656 | For every inbound byte stream: the session reconnects if and only if the transport ended it (it lost the answer to the frame the loop stopped at, or the stream ended, was reset or was torn, but not with a bad length); it finishes cleanly exactly when it would reconnect and cleanup succeeded; every frame it got past was decodable, of the right version and with a nonzero ID. |
| `Serve.RefusedLengthEnds` | crates/agent/src/lib.rs:630-656 | Frames that the loop gets past, then a refused length: the session ends in a resource error, never reconnects and never finishes cleanly, whatever follows. |
| `Serve.EndedStreamReconnects` | crates/agent/src/lib.rs:614-656 | Frames that the loop gets past, then a clean or torn end: it reconnects and finishes cleanly; without error if and only if the end is clean and no reset. |
| `Serve.TerminalFrameEnds` | crates/agent-protocol/src/server.rs:201-222 | Frames that the loop gets past, then one of another version, with ID zero or undecodable, its answer not lost: nothing is run, the rejection is sent whole or, for the undecodable, nothing, and the session ends for good with the error of that cause. |
| `Serve.LastFrameEnds` | crates/agent-protocol/src/server.rs:198-275 | The first frame that stops the loop decides the result, whatever follows it. |
| `Serve.StoppingTurn` | crates/agent/src/lib.rs:630-656 | Without an armed fault, the error of a stopping frame is a clean disconnect exactly when its answer was lost. |
| `Serve.ServeWithReconnect` | crates/agent/src/lib.rs:563-581 | Connections are served one after another from their inbound bytes; the loop goes on exactly past those the transport ended, and returns the result of the first other one. |
| `Serve.ServeSession` | crates/agent-protocol/src/server.rs:198-275 | Serving a byte stream returns the result that the first stopping frame, or else the end of the stream, decides. |
| `Serve.EndIsDecided` | crates/agent-protocol/src/server.rs:198-275 | How the loop can end on a stream is unique. |
| `Serve.WrongVersionCanReconnect` | crates/agent-protocol/src/server.rs:201-222 | A wrong-version request whose rejection cannot be written ends in a transport error and reconnects, so "never" needs the answer to be written. |
| `Serve.ServeFrames` | crates/agent-protocol/src/server.rs:198-275 | The loop serves whole frames in order up to the first that stops it; bytes sent, requests run and fault crossings are exactly those of these frames. |
| `Serve.ServeFrame` | crates/agent-protocol/src/server.rs:198-272 | One frame: verdict, bytes and dispatch. |
| `Serve.ServeValidated` | crates/agent-protocol/src/server.rs:224-272 | One validated request: the five checks around dispatch and response. |
| `Serve.FaultCounter.CheckOperation` | crates/agent/src/transport_qualification.rs:75-110 | The first crossing of the armed transition fails and no other check does; crossings are counted. |
| `Serve.FaultedTurn` | crates/agent/src/transport_qualification.rs:75-110 | The armed fault stops exactly the frames that carry a validated request of the armed operation and identity and reach the armed stage. |
| `Serve.MeetsExactly` | crates/agent/src/transport_qualification.rs:85-92 | A request meets the armed fault by its operation with the armed identity, or with none if it is an observation, or process input before version 8. |
| `Serve.FinishReports` | crates/agent/src/transport_qualification.rs:112-157 | After a clean clean-up the run qualifies if and only if it ended in the armed fault, crossed once; otherwise the reason it did not is kept. |
| `Serve.Qualify` | crates/agent/src/transport_qualification.rs:112-157 | Over every inbound stream the armed transition is crossed at most once, exactly at the frame that meets it; the run succeeds if and only if it was and cleanup succeeded. |
| `Handoff.Directory.ConsumeToken` | crates/agent/src/handoff_fs.rs:62-125 | The token is returned if and only if it was consumable and the name still led to it; then inode and entry are gone. A token that was read is emptied before its entry is touched and stays so whatever fails then; one that could not be read keeps its text. Entries, modes and inodes in every outcome; the directory is removed if and only if the token was returned, it is empty, its path still leads to it and the removal works. |
| `Handoff.Directory.PublishReport` | crates/agent/src/handoff_fs.rs:134-211 | Success if and only if created, made private, written and confirmed; then the name leads to the created inode, mode 0600, exactly the bytes. In every outcome the whole directory: a file that could not be made private, cleaned up if it was identified when opened; after a later failure, what others made of the closed file's directory, less the name if it leads to that number. The failed file stays behind, if it could not be made private, exactly if it was not identified, is not 0600 or cannot be unlinked; and otherwise, left to itself, exactly if it cannot be unlinked and still has the name. |
| `Handoff.Directory.FillReport` | crates/agent/src/handoff_fs.rs:178-210 | Write and confirm, or close and clean up: the resulting directory in every case, with other processes at work before the confirmation and after the close. |
| `Handoff.Directory.CreateReport` | crates/agent/src/handoff_fs.rs:162-176 | Exclusive creation, first look and tightening, with each of the three stats and the mode change failing or not; the whole directory then, a file that could not be made private being removed exactly if it was identified, is 0600 and can be unlinked. |
| `Handoff.ReportLeftBehind` | crates/agent/src/handoff_fs.rs:166-176 | Every report is left behind in each of three cases: shown as 0644 by the Windows backend and not tightened; private but never looked at successfully; not synced and not unlinked. |
| `Handoff.UnseenReportRemoved` | crates/agent/src/handoff_fs.rs:167-176 | A private report of which only the second look failed is removed again, and so is one that was tightened and could not be looked at then. |
| `Handoff.StaysBehind` | crates/agent/src/handoff_fs.rs:205-209 | When a private failed report stays after an undisturbed clean-up. |
| `Handoff.Directory.NormalizeFile` | crates/agent/src/handoff_fs.rs:380-409 | Accepted if and only if a regular file of the length with an allowed mode that could be looked at, tightened and looked at again; its mode in every case. |
| `Handoff.Directory.NormalizeDirectory` | crates/agent/src/handoff_fs.rs:320-343 | Accepted if and only if private or tightened under the Windows contract. |
| `Handoff.AcceptedModes` | crates/agent/src/handoff_fs.rs:320-409 | With nothing failing, exactly 0600 and 0700 are accepted, and under the Windows contract 0644 and 0755 too. |
| `Handoff.Directory.RemoveBound` | crates/agent/src/handoff_fs.rs:447-483 | Unlinks the name if and only if it leads to the expected private inode. |
| `Handoff.Directory.RemoveBoundDirectory` | crates/agent/src/handoff_fs.rs:485-510 | The directory is removed if and only if its path leads to it, it is private and empty, and the calls work. |
| `HandoffAgreement.LonePublisher` | crates/agent/src/handoff_fs.rs:134-211 | Step system against code: an undisturbed publisher, for any report, room and failing calls, publishes exactly when `FillReport` does, and the name then leads where that leaves it. |
| `HandoffAgreement.PublishesAnyReport` | crates/agent/src/handoff_fs.rs:178-203 | From every world with the name free, three steps publish any report: the name leads to the new file, which holds it. |
| `HandoffAgreement.ConfirmsReport` | crates/agent/src/handoff_fs.rs:181-203 | In whatever world others have made meanwhile, a filled file is confirmed exactly when the code confirms it. |
| `HandoffAgreement.CleansUp` | crates/agent/src/handoff_fs.rs:205-209 | In whatever world others have made meanwhile, a failed publisher takes away exactly what the code takes away. |
| `HandoffAgreement.FillsReport` | crates/agent/src/handoff_fs.rs:178-182 | What fits of the report is in the file; it goes on to confirmation exactly if all of it is, and synced. |
| `HandoffAgreement.LoneConsumer` | crates/agent/src/handoff_fs.rs:62-125 | An undisturbed consumer returns the file's text, the file emptied and the name gone, if and only if the token can be taken and no call fails; otherwise the name stays. |
| `HandoffAgreement.TakesToken` | crates/agent/src/handoff_fs.rs:75-105 | The token is in hand and its file empty exactly when the code can take it. |
| `HandoffAgreement.HandsOver` | crates/agent/src/handoff_fs.rs:106-124 | In whatever world others have made meanwhile, the token is returned exactly when the name still shows its number and no call fails. |
| `HandoffAgreement.ChangedTokenRefused` | crates/agent/src/handoff_fs.rs:87-101 | A token whose text or file has not 64 bytes when it is looked at again can only be given up, its file untouched. |
| `HandoffAgreement.EarlyFailureKeepsOpen` | crates/agent/src/handoff_fs.rs:166-176 | A publisher that fails before it writes still has its file open, so its number cannot go to another file. |
| `HandoffRaces.OneTimeToken` | crates/agent/src/handoff_fs.rs:62-125 | Over every interleaving of any number of consumers, publishers and an environment, no more consumers return a token than the name was ever bound: at most one when nobody else binds it. |
| `HandoffRaces.TokenIsGenuine` | crates/agent/src/handoff_fs.rs:80-115 | A returned token has 64 bytes that were together what its file's creation or last write had put there at one moment, be it a file of the start or of the run; unless the environment wrote into its file, one of the start is what the file held then, and the file is now empty; a file the name never led to and nobody wrote to is as it was. |
| `HandoffRaces.PutByCreationOrWrite` | crates/agent/src/handoff_fs.rs:80-115 | What is recorded as put into a file is put there by its creation or by a write, and is then all it holds. |
| `HandoffRaces.ForeignRemoval` | crates/agent/src/handoff_fs.rs:447-483 | In every run, an unlink that hits a foreign entry follows a binding in its own window or is that of a publisher misled by a reused number; without a binding in the window, exactly the latter; a consumer is never misled. |
| `HandoffRaces.AtomicRemovalIsSafe` | crates/agent/src/handoff_fs.rs:468-483 | With identity check and unlink as one step: a consumer never removes another file's entry, whatever is swapped; a publisher does so only misled by a reused number after its own entry was taken. |
| `HandoffRaces.QuietRunsRemoveOwnOrReused` | crates/agent/src/handoff_fs.rs:447-483 | The same for two steps, as long as nobody binds the name between them. |
| `HandoffRaces.PublishersLeftAlone` | crates/agent/src/handoff_fs.rs:205-209 | If moreover nobody takes the name from a publisher at work, no foreign entry is removed at all. |
| `HandoffRaces.LookFinds` | crates/agent/src/handoff_fs.rs:447-466 | A look, which compares inode numbers, finds the own file, or else the process is a failed publisher that closed its file and the number was given to a later one. |
| `HandoffRaces.ConfirmFinds` | crates/agent/src/handoff_fs.rs:447-466 | A report is confirmed only when the name leads to that very file. |
| `HandoffRaces.SwapInTheWindow` | crates/agent/src/handoff_fs.rs:468-483 | A run that loses a foreign entry renamed over the name between look and unlink. |
| `HandoffRaces.NumberReused` | crates/agent/src/handoff_fs.rs:205-209 | A run, with look and unlink as one step, in which a failed publisher that lost its entry and closed its file removes a foreign file that was given its number. |
| `HandoffRaces.StepKeepsNumbered` | crates/agent/src/handoff_fs.rs:205-209 | Every step keeps: a file whose number was given out again has neither an entry nor an open descriptor. |
| `HandoffPublication.PublishedBound` | crates/agent/src/handoff_fs.rs:134-211 | With renames, removals and consumers allowed, no more publishers succeed than one plus the times somebody else took the name away. |
| `HandoffPublication.ExclusivePublication` | crates/agent/src/handoff_fs.rs:134-211 | As long as nobody else takes the name away, at most one of any number of publishers succeeds, and the name leads to its file. |
| `HandoffPublication.PublishedIsWhole` | crates/agent/src/handoff_fs.rs:178-202 | A published report is in its file, whole, unless the environment wrote there or a consumer emptied it. |
| `HandoffPublication.StepKeepsShares` | crates/agent/src/handoff_fs.rs:134-211 | Every step keeps: publishers have files of their own, and at most as many are without the name as others took it away. |
| `HandoffRaces.StepKeepsBooks` | crates/agent/src/handoff_fs.rs:447-483 | Every step keeps: bindings = removals + 1 if bound, and returned tokens are at most the removals. |
| `HandoffRaces.StepKeepsGenuine` | crates/agent/src/handoff_fs.rs:76-115 | Every step keeps what each process knows of the files there were at the start. |
| `Output.DeliversTheLog` | crates/agent/src/executor/io.rs:690-756 | Over any run of polls that feed the cursor back, with any appends and drops in between, the units delivered are the process's output log itself from first to last cursor: no loss, repeat, reordering or change of stream. |
| `Output.ReadAlong` | crates/agent/src/executor/io.rs:586-766 | A reader polling a live buffer, with captures, ends of pipes and drops in any order: every event does what it should to log and cursor, every poll up to one that finds the reader behind is answered from the log as it stood and as far as the budget goes, every reply passes both checks, and what was collected is the log from the first cursor on. |
| `Output.TraceIsServed` | crates/agent/src/executor/io.rs:690-756 | Every such reader's polls are a run of served polls, so `DeliversTheLog` applies to them. |
| `Output.NumberedByUnits` | crates/agent-protocol/src/client.rs:854-898 | Chunks are contiguous from a cursor if and only if each is numbered by the units up to its end. |
| `Output.ChainedIsContiguous` | crates/agent-protocol/src/validation.rs:441-507 | The envelope's check is the client's contiguity check, started behind the first chunk. |
| `Output.SurvivingCursors` | crates/agent/src/executor/io.rs:672-702 | After trimming, a cursor behind some chunk survives if and only if all data behind it fits 8 MiB. |
| `Output.KeptExactly` | crates/agent/src/executor/io.rs:672-687 | A chunk is kept if and only if the data from it on fits 8 MiB. |
| `Output.CursorConservation` | crates/agent-protocol/src/client.rs:854-898 | Over any run of accepted polls, whatever the guest: final cursor = initial cursor + bytes + end marks, and bytes within the summed budgets. |
| `Output.ReplyPassesBothChecks` | crates/agent-protocol/src/validation.rs:441-507 | Every reply the guest's buffer makes within an allowed budget passes the envelope's and the client's check. |
| `Output.CheckReply` | crates/agent-protocol/src/client.rs:854-898 | Accepted if and only if contiguous from the cursor and within budget; the byte total cannot overflow on a reply that passed the envelope's check. |
| `Output.ValidateOutputChunks` | crates/agent-protocol/src/validation.rs:441-507 | Accepted if and only if numbered, shaped, chained and at most 4 MiB. |
| `Output.OutputState.PollAfter` | crates/agent/src/executor/io.rs:690-766 | Behind and ahead if and only if the cursor is. Otherwise there is a reply if and only if a unit follows and the budget allows it, end marks costing nothing; it is the log from the cursor on, cut off only before a data byte for which the budget is used up. With no reply the open streams and the error decide. |
| `Output.OutputState.Collect` | crates/agent/src/executor/io.rs:711-755 | The loop over retained chunks. |
| `Output.OutputState.Take` | crates/agent/src/executor/io.rs:713-754 | The part of one chunk behind the cursor, as far as the budget goes. |
| `Output.OutputState.Append` | crates/agent/src/executor/io.rs:646-688 | The log grows by exactly the given units, or not at all if and only if the sequence space is used up; retained chunks stay exactly the log behind the dropped part; of the old chunks and the new one the first are dropped, no more than needed for the rest to fit 8 MiB, and the oldest surviving cursor is the one behind them. |
| `Output.OutputState.Push` | crates/agent/src/executor/io.rs:646-671 | The part before the trimming: the stretch is numbered, counted and put behind the others. |
| `Output.OutputState.Trim` | crates/agent/src/executor/io.rs:672-687 | Drops the fewest whole chunks from the front for at most 8 MiB to be retained; the accounting branches that report an inconsistency are dead. |
| `Output.OutputState.Capture` | crates/agent/src/executor/io.rs:586-595 | A stretch of output is recorded and what is dropped for it is the least possible, or the terminal error is set. |
| `Output.OutputState.Finish` | crates/agent/src/executor/io.rs:597-611 | One end mark, one open stream fewer, and when the terminal error is set. |
| `Output.OutputState.constructor` | crates/agent/src/executor/io.rs:570-584 | A new buffer is valid and its log empty. |
| `Recovery.BuildSucceeds` | crates/agent-protocol/src/recovery.rs:93-101 | A report is built if and only if at most 1024 valid records with pairwise distinct keys are given; it holds them with keys rising: by ID byte by byte, and for one ID the smaller generation first. |
| `Recovery.PermutationInvariant` | crates/agent-protocol/src/recovery.rs:93-101 | Every permutation of the records gives the same report or the same refusal. |
| `Recovery.AdjacentIsGlobal` | crates/agent-protocol/src/recovery.rs:162-169 | Strict order of neighbours is strict order throughout. |
| `Recovery.Validate` | crates/agent-protocol/src/recovery.rs:139-171 | Accepted if and only if of schema 1, with at most 1024 records, all valid and their keys rising throughout; which refusal otherwise. |
| `Recovery.BeforeIsKeyPrecedes` | crates/agent-protocol/src/recovery.rs:75-80 | The key order by its meaning: the smaller byte at the first difference of the IDs or a proper prefix, then the smaller generation. |
| `Texts.LessIsPrecedes` | crates/agent-protocol/src/recovery.rs:75-80 | The recursive order of texts is the lexicographic one: a proper prefix, or the smaller byte at the first difference. |
| `Recovery.NewReport` | crates/agent-protocol/src/recovery.rs:93-101 | The constructor, with the same if-and-only-if and the same rising order. |
| `Recovery.SortSorts` | crates/agent-protocol/src/recovery.rs:94-94 | Sorting gives the same records in key order. |
| `Recovery.StrictIsUnique` | crates/agent-protocol/src/recovery.rs:162-169 | There is only one strictly ordered arrangement of given records. |
| `Recovery.BeforeIsTotal` | crates/agent-protocol/src/recovery.rs:75-80 | Keys are totally and strictly ordered. |
| `Auth.Verify` | crates/agent-protocol/src/recovery.rs:201-213 | Trusted if and only if the report is valid and carries the encoding of its own HMAC under this token; which refusal otherwise. |
| `Auth.Authenticate` | crates/agent-protocol/src/recovery.rs:129-137 | A valid report gets its one tag; an invalid one none. |
| `Auth.RoundTrip` | crates/agent-protocol/src/recovery.rs:129-213 | What the guest signs the host trusts, for every list of records that builds and every token. |
| `Auth.HmacSha256` | crates/agent-protocol/src/recovery.rs:271-290 | The two pad loops compute H(K xor opad, H(K xor ipad, text)) of section 2 of RFC 2104 over domain and message. |
| `Auth.HmacBlocks` | crates/agent-protocol/src/recovery.rs:271-290 | The two hashed inputs position by position: the zero-filled key xored with 0x36 before the text, and with 0x5c before the inner digest. |
| `Auth.TagInputs` | crates/agent-protocol/src/recovery.rs:129-137 | What a tag is, down to the bytes of both blocks, the domain and the canonical report. |
| `Auth.EncodePlaces` | crates/agent-protocol/src/recovery.rs:292-300 | Each byte is two digits, the more significant first. |
| `Auth.DecodePlaces` | crates/agent-protocol/src/recovery.rs:302-323 | Each two digits are a byte, the first sixteen times as heavy. |
| `Auth.ConstantTimeEquals` | crates/agent-protocol/src/recovery.rs:325-335 | The exclusive-or fold is equality; also the token comparison. |
| `Auth.DecodeTag` | crates/agent-protocol/src/recovery.rs:302-323 | Accepted if and only if 64 lower-case digits, and then encoding gives the text back. |
| `Auth.TokenFromHex` | crates/agent-protocol/src/model.rs:83-105 | Accepted if and only if 64 digits of either case that are not all zero; the value decoded. |
| `Auth.TokenRoundTrip` | crates/agent-protocol/src/model.rs:83-119 | Every token survives its hexadecimal form. |
| `Auth.DecodeUndoesEncode` | crates/agent-protocol/src/recovery.rs:292-323 | Decoding undoes encoding for every byte string. |
| `Auth.EncodeUndoesDecode` | crates/agent-protocol/src/recovery.rs:292-323 | Encoding undoes decoding for every lower-case text. |
| `Auth.DecodePairs` | crates/agent-protocol/src/model.rs:94-103 | The pairwise decoding loop. |
| `Identity.OperationIdentity` | crates/containerd-shim/src/identity.rs:76-108 | Two operations are hashed from the same bytes if and only if they are the same, or one reads a task incarnation where the other, without one, has an exec identity. |
| `Identity.HashedInOrder` | crates/containerd-shim/src/identity.rs:76-108 | The hashed bytes read back, frame by frame, as namespace, task, task incarnation if any, exec ID, exec incarnation unless zero, and action. |
| `Identity.ContainerHashedInOrder` | crates/containerd-shim/src/identity.rs:52-57 | A container ID is hashed from namespace, then task. |
| `Identity.ProcessHashedInOrder` | crates/containerd-shim/src/identity.rs:59-74 | An exec process's from these, the exec ID and, unless zero, its incarnation. |
| `Framing.FramedReadsBack` | crates/containerd-shim/src/identity.rs:101-108 | A framed list reads back as itself, in order. |
| `Identity.StemTexts` | crates/containerd-shim/src/adapter.rs:392-408 | The stems of the numbered actions as text. |
| `Identity.IncarnatedIdentity` | crates/containerd-shim/src/identity.rs:76-99 | For tasks with an incarnation the hashed bytes are injective in namespace, task, incarnation, exec, exec incarnation and action. |
| `Identity.ContainerIdentity` | crates/containerd-shim/src/identity.rs:52-57 | Container IDs are hashed from the same bytes if and only if namespace and task agree. |
| `Identity.ProcessIdentity` | crates/containerd-shim/src/identity.rs:59-74 | Process IDs are if and only if namespace, task, exec and exec incarnation agree; none is hashed like a container ID. |
| `Identity.LegacyAlias` | crates/containerd-shim/src/identity.rs:83-94 | A family of operations without incarnation that share the bytes of one with it. |
| `Identity.NumberedIdentity` | crates/containerd-shim/src/adapter.rs:596-753 | Sequence-numbered actions on incarnated tasks share their bytes if and only if kind, number, scope, incarnation, task and namespace agree. |
| `Identity.ActionNameIsInjective` | crates/containerd-shim/src/adapter.rs:392-408 | Sequence-numbered action names never coincide for different kinds or numbers. |
| `Identity.FeedComponents` | crates/containerd-shim/src/identity.rs:101-108 | The loop feeds the length-framed components. |
| `Identity.RetryLoop` | crates/containerd-shim/src/adapter.rs:423-448 | Every attempt carries the same identity; it stops at the first final answer or at the first retryable one past the deadline, within 201 attempts. |
| `Framing.FramedIsInjective` | crates/containerd-shim/src/identity.rs:101-108 | Different lists of components make different byte strings, whatever their number. |
| `Negotiation.Handshake` | crates/agent-protocol/src/server.rs:163-196 | Both sides: success if and only if the token matches, the service is well formed and there is a common version; then the highest one, advertising exactly the service's operations of that version, and the client's check always passes. |
| `Negotiation.Negotiate` | crates/agent-protocol/src/validation.rs:606-623 | The highest common version, or none exactly when the range is invalid or nothing is common. |
| `Negotiation.ServerHello` | crates/agent-protocol/src/server.rs:277-291 | When the server accepts and what it then says; the second rejection branch is dead. |
| `Negotiation.ClientCheck` | crates/agent-protocol/src/validation.rs:537-556 | Decides the acceptability of a hello. |
| `Negotiation.WrittenRequestsAreAllowed` | crates/agent-protocol/src/client.rs:734-744 | Whatever an accepted client writes has an operation of the negotiated version, and the answer's kind is never too new. |
| `Negotiation.ExpectedResponsePasses` | crates/agent-protocol/src/validation.rs:416-438 | The response kind the client waits for is the one dispatch makes, and an allowed request's answer passes the response gate. |
| `Negotiation.KeptIsFilter` | crates/agent-protocol/src/model.rs:512-519 | Exactly the allowed operations are kept, without duplicates. |
| `Negotiation.OperationsByVersion` | crates/agent-protocol/src/model.rs:329-341 | The registry's table and the request validator's agree; the operations new in each version. |
| `Negotiation.IdentifiedOperations` | crates/agent-protocol/src/model.rs:376-392 | Which operations carry an operation identity at which version. |
| `Negotiation.ResponsesByOperation` | crates/agent-protocol/src/server.rs:293-366 | Seven operations are answered with a state, each other one with a kind of its own that is as new as the operation. |
| `Negotiation.ForProtocol` | crates/agent-protocol/src/model.rs:512-519 | Retaining never spoils a well-formed description. |
| `Negotiation.ValidateForProtocol` | crates/agent-protocol/src/model.rs:521-540 | Accepted if and only if well formed, version supported, all operations allowed. |
| `Negotiation.ValidateCapabilities` | crates/agent-protocol/src/model.rs:492-510 | Accepted if and only if texts are valid, operations distinct and the frame size is the protocol's. |
| `Waiting.WaitLoop` | crates/agent-protocol/src/client.rs:407-443 | Every timeout sent is at most 25 ms and at most the budget left, and the longest whole such number of milliseconds; the loop ends exactly at the first poll that does not leave it running; its own deadline error needs a reached limit. |
| `Waiting.WaitTerminates` | crates/agent-protocol/src/client.rs:468-505 | With a limit and a clock that ticks per expired poll, the loop cannot run past limit / tick polls. |
| `Manifest.ValidateManifest` | crates/agent-protocol/src/vm_attachment.rs:358-489 | Accepted if and only if the header is valid, network and storage entries are in strict order throughout, share no TAP name, MAC, mount, host source, serial or block ID, and every MAC and block ID is derived from its evidence; the bundle, being a valid guest path, then lies properly below the runtime share. |
| `Manifest.HeadersExactly` | crates/agent-protocol/src/vm_attachment.rs:358-413 | Version 1 is for 1 to 256 networks alone, version 2 needs 1 to 128 storage entries; positive generation, bundle below the share, canonical digests. |
| `Manifest.FieldsOrder` | crates/agent-protocol/src/vm_attachment.rs:90-99 | The derived order of network entries: the first differing field decides, in the order of declaration. |
| `Manifest.InterfaceNamesExactly` | crates/agent-protocol/src/vm_attachment.rs:517-530 | Interface names: 1 to 15 bytes without slash, colon, NUL or white space, not dots; so a single plain path component. |
| `Manifest.EvidenceInOrder` | crates/agent-protocol/src/vm_attachment.rs:59-75 | A MAC is hashed from the domain, then the five strings in order, each behind its length. |
| `Texts.DigestText` | crates/agent-protocol/src/vm_attachment.rs:532-547 | A canonical digest is "sha256:" and 64 lower-case hexadecimal digits. |
| `Paths.BundleIsBelowShare` | crates/agent-protocol/src/model.rs:1135-1167 | A valid guest path with the share prefix leads, component by component, to a proper descendant of the share. |
| `Paths.PlainResolves` | crates/agent-protocol/src/model.rs:1156-1165 | A path without empty and dot components leads where it says. |
| `Paths.GuestPathsExactly` | crates/agent-protocol/src/model.rs:1135-1167 | A path is accepted if and only if it is the root or a slash before each of its plain components, of at most 4096 bytes without NUL or backslash. |
| `Paths.NormalExactly` | crates/agent-protocol/src/model.rs:1156-1165 | The component check passes exactly the joined lists of plain components. |
| `Paths.SplitIsExact` | crates/agent-protocol/src/model.rs:1156-1165 | Splitting loses nothing and leaves no slash. |
| `Storage.CheckStorage` | crates/agent-protocol/src/vm_attachment.rs:455-487 | Accepted if and only if each entry is sound and no two share a mount, host source, serial or block ID. |
| `Storage.SoundExactly` | crates/agent-protocol/src/vm_attachment/storage.rs:193-212 | An entry is sound if and only if its digest is canonical, its source a normalized path to a sector-aligned file, its pointer "/mounts/" and a number, and its block ID the prefix and the first 32 digits of its hash. |
| `Storage.HostSourcesExactly` | crates/agent-protocol/src/vm_attachment/storage.rs:319-335 | A host source is a normalized absolute path below the root. |
| `Storage.MountIndexExactly` | crates/agent-protocol/src/vm_attachment/storage.rs:298-317 | A pointer selects a mount if and only if it is "/mounts/" and the decimal form of its index. |
| `Storage.BlockInputInOrder` | crates/agent-protocol/src/vm_attachment/storage.rs:281-296 | Domain, then attachment digest, then identity, each behind its length. |
| `Storage.FieldsOrder` | crates/agent-protocol/src/vm_attachment/storage.rs:92-103 | The derived order of storage entries: the first differing field decides, numbers as numbers. |
| `Storage.SerialExactness` | crates/agent-protocol/src/vm_attachment/storage.rs:71-74 | A file shares its serial with another whose numbers have as many digits if and only if its three numbers have more than 20 digits together. |
| `Storage.SerialTellsApart` | crates/agent-protocol/src/vm_attachment/storage.rs:71-74 | With as many digits of device and raw device in both and at most 20 in all, serials are equal if and only if all three numbers are. |
| `Storage.CutOffCollides` | crates/agent-protocol/src/vm_attachment/storage.rs:72-73 | Beyond 20 digits the file with another last inode digit has the same serial, for every file. |
| `Storage.InodeCutOff` | crates/agent-protocol/src/vm_attachment/storage.rs:72-73 | Once device and raw device have 20 digits, every two inodes share a serial. |
| `Storage.SerialsCollide` | crates/agent-protocol/src/vm_attachment/storage.rs:72-72 | Files whose numbers have different digit counts collide besides, because nothing separates the numbers. |
| `Storage.MountIndexIsInjective` | crates/agent-protocol/src/vm_attachment/storage.rs:298-317 | Pointers that select the same mount are equal. |
| `Storage.SharedMountDisagrees` | crates/agent-protocol/src/vm_attachment.rs:461-466 | Two accepted entries on one mount expect different values there. |
| `Storage.BlockInputIsInjective` | crates/agent-protocol/src/vm_attachment/storage.rs:281-296 | Block IDs are hashed from the same bytes if and only if contract and allocation agree. |
| `Texts.NeighboursRise` | crates/agent-protocol/src/vm_attachment.rs:415-419 | Order of neighbours is global order, for network and storage entries alike. |
| `Manifest.OrderedMeansDistinct` | crates/agent-protocol/src/vm_attachment.rs:415-419 | No entry occurs twice. |
| `Texts.AllDistinct` | crates/agent-protocol/src/vm_attachment.rs:426-453 | A growing set finds exactly the lists without repetition: TAP names, MACs, mounts, host sources, serials and block IDs. |
| `Manifest.CheckEntry` | crates/agent-protocol/src/vm_attachment.rs:159-188 | Sound if and only if well shaped and with the derived MAC. |
| `Manifest.DeriveMac` | crates/agent-protocol/src/vm_attachment.rs:51-80 | The derived MAC always passes its own constructor; no address exactly for a bad digest or interface name. |
| `Manifest.DerivedMac` | crates/agent-protocol/src/vm_attachment.rs:76-79 | Nonzero, locally administered, unicast, and otherwise the digest's own bits. |
| `Manifest.EvidenceIsInjective` | crates/agent-protocol/src/vm_attachment.rs:59-75 | The hashed bytes are injective in the five strings. |
| `Manifest.UnescapeUndoesEscape` | crates/agent-protocol/src/vm_attachment.rs:550-552 | Section 4 of RFC 6901 undoes the two-pass escaping, for every text. |
| `Manifest.PointersAreDistinct` | crates/agent-protocol/src/vm_attachment.rs:166-173 | Different TAP names have different pointers. |
| `Archive.Unpack` | crates/krun/build.rs:122-159 | The loop stops at the first entry that is not a fresh pinned file. |
| `Archive.Install` | crates/krun/build.rs:97-171 | Success if and only if the archive is the pinned one and the folder matches already, or can be cleared and every entry unpacks, the names are a permutation of the distinct pinned names and the contents match; the folder then matches. When each of the first refusals comes. Once cleared, the folder holds of the pinned files exactly the entries before the first that cannot be unpacked; no other file is touched in any case. |
| `Archive.RemoveOld` | crates/krun/build.rs:108-116 | Exactly the first pinned names are gone, all of them if all can be removed; nothing else changes. |
| `Archive.Extract` | crates/krun/build.rs:118-164 | The loop and its completeness check: success if and only if every entry is a readable regular file with a safe path that can be written out and the names are a permutation of the distinct pinned ones; each is then unpacked exactly once, for every order and length. |
| `Archive.MatchDecided` | crates/krun/build.rs:165-185 | After a complete extraction the checksum comparison passes exactly when each entry holds its pinned file. |
| `Archive.Position` | crates/krun/build.rs:141-150 | The first pinned file of that name. |

## Left out

- Containers themselves: the executor's namespaces, cgroups, mounts, hooks, seccomp and process handling; the guest service is an arbitrary function.
- The durable host journal, the runtime service and the platform drivers under crates/runtime.
- The command line, vsock connection set-up, and the handling of the environment variables that carry paths.
- JSON text, SHA-256 and random generation: parameters, as above.
- The wait of a blocked output read for a change notification; a poll is modelled at the moment it looks.
- The check of a manifest against the configuration it refers to.
- The unsequenced signal and kill action names, which share a form with the sequenced ones.
- Clean-up of a guest run that fails before serving.
- The content checks of a response against its request (targets, states, digests) are one parameter of the session model; the kind check and the output check are modelled.
- Archive.Install: which of the refusals of an entry is reported, and what a failed write leaves of its own file, are not part of the contract.
- Manifest.ValidateManifest: entries are checked one by one and then for what they share, so which error comes first is not part of the contract.
