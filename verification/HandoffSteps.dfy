/**
 Any number of token consumers and report publishers of one handoff path, interleaved with each
 other and with an environment, one system call at a time (crates/agent/src/handoff_fs.rs).

 A file and its inode number are different things: a number is free again once its file has neither
 an entry nor an open descriptor. A consumer keeps its file open to the end; a publisher that failed
 after writing closes its file before it takes its entry away. The checks compare numbers. Modes and
 the parent directory are as the checks want them; any call may fail.
 */
module HandoffSteps {
  import opened Bytes
  import Handoff

  /** Where one process stands. `seen` is the file its last look found; `swapped` marks a binding since. */
  datatype Process =
    | Arriving
    // a consumer
    | Opened(file: nat)
    | HasRead(file: nat, text: Text)
    | Holds(file: nat, text: Text)        // read and re-checked: 64 bytes
    | Emptied(file: nat, text: Text)      // truncated through the descriptor
    | Looked(file: nat, text: Text, seen: nat, swapped: bool)
    | Consumed(file: nat, text: Text)     // unlinked: the token is returned
    // a publisher
    | Created(file: nat)
    | Filled(file: nat)
    | Published(file: nat)
    | Closing(file: nat)                  // failed after the write began, descriptor still open
    | Undoing(file: nat, closed: bool)    // about to take its entry away
    | LookedToUndo(file: nat, closed: bool, seen: nat, swapped: bool)
    | Failed

  datatype File = File(number: nat, content: Text)

  datatype World = World(
    entry: Option<nat>,           // the file the name leads to
    files: seq<File>,             // every file there has been, in order of creation
    elsewhere: set<nat>,          // those with another name, or open in the environment
    processes: seq<Process>,
    report: Text,                 // what the publishers publish
    // history: how often the name was bound and unbound, and unbound by others than a failed publisher
    bindings: nat, removals: nat, taken: nat,
    // history: files the name has led to, was taken from, and files written and emptied since the start
    everBound: set<nat>, ousted: set<nat>, written: set<nat>, emptied: set<nat>,
    puts: set<(nat, Text)>)       // history: what each file held once it was there, created or written to

  datatype Step =
    | Open(p: nat) | Read(p: nat) | Recheck(p: nat) | Empty(p: nat)
    | Create(p: nat, number: nat) | Fill(p: nat) | Confirm(p: nat)
    | FailEarly(p: nat)               // the new file cannot be made private: undone while still open
    | FailWrite(p: nat, kept: nat) | FailLate(p: nat) | CloseFile(p: nat)
    | Look(p: nat) | Unlink(p: nat) | GiveUp(p: nat)
    // the environment: rename a file of its own over the name or remove the name, make a file
    // elsewhere, get hold of the named file, let a file go, write into a file it holds
    | Rebind(to: Option<nat>) | Fresh(number: nat, content: Text) | Grab | Forget(file: nat)
    | Scribble(file: nat, content: Text)

  predicate IsProcessStep(step: Step) {
    !step.Rebind? && !step.Fresh? && !step.Grab? && !step.Forget? && !step.Scribble?
  }

  /** The name is bound anew by this step. */
  predicate BindsName(step: Step) { step.Create? || (step.Rebind? && step.to.Some?) }

  predicate IsPublisher(process: Process) {
    process.Created? || process.Filled? || process.Published? || process.Closing? || process.Undoing?
    || process.LookedToUndo?
  }

  predicate HasFile(process: Process) { !process.Arriving? && !process.Failed? }

  /** The process has this file open. */
  predicate Pins(process: Process, file: nat) {
    && HasFile(process) && process.file == file
    && !process.Consumed? && !process.Published?
    && (process.Undoing? || process.LookedToUndo? ==> !process.closed)
  }

  predicate Pinned(processes: seq<Process>, file: nat) {
    exists q :: 0 <= q < |processes| && Pins(processes[q], file)
  }

  /** A file with an entry or an open descriptor. */
  predicate Live(w: World, file: nat) {
    w.entry == Some(file) || file in w.elsewhere || Pinned(w.processes, file)
  }

  predicate Free(w: World, number: nat) {
    forall f :: 0 <= f < |w.files| && w.files[f].number == number ==> !Live(w, f)
  }

  predicate Watching(process: Process) { process.Looked? || process.LookedToUndo? }

  /** What a process remembers of its last look once the name is bound anew. */
  function Unsettled(process: Process): Process {
    if Watching(process) then process.(swapped := true) else process
  }

  function AllUnsettled(processes: seq<Process>): (r: seq<Process>)
    ensures |r| == |processes|
    ensures forall q :: 0 <= q < |r| ==> r[q] == Unsettled(processes[q])
  {
    seq(|processes|, q requires 0 <= q < |processes| => Unsettled(processes[q]))
  }

  /** `text` written over the start of what was there. */
  function Overwritten(before: Text, text: Text): Text {
    text + (if |before| > |text| then before[|text|..] else [])
  }

  predicate CanAct(w: World, process: Process, step: Step)
    requires IsProcessStep(step)
  {
    && (HasFile(process) ==> process.file < |w.files|)
    && match step
       case Open(_) => process.Arriving? && w.entry.Some? && w.entry.value < |w.files|
       case Read(_) => process.Opened?
       case Recheck(_) => process.HasRead? && |process.text| == Handoff.TOKEN_TEXT_BYTES
                          && |w.files[process.file].content| == Handoff.TOKEN_TEXT_BYTES
       case Empty(_) => process.Holds?
       case Create(_, number) => process.Arriving? && w.entry.None? && Free(w, number)
       case Fill(_) => process.Created?
       case Confirm(_) => process.Filled? && NameShows(w, process.file) && |w.files[process.file].content| == |w.report|
       case FailEarly(_) => process.Created?
       case FailWrite(_, kept) => process.Created? && kept <= |w.report|
       case FailLate(_) => process.Filled?
       case CloseFile(_) => process.Closing?
       case Look(_) => (process.Emptied? || process.Undoing?) && NameShows(w, process.file)
       case Unlink(_) => Watching(process) && w.entry.Some?
       case GiveUp(_) => process.Undoing? || process.LookedToUndo? || (!process.Consumed? && !IsPublisher(process))
       case _ => false
  }

  /** The name leads to a file with the number of `file`. */
  predicate NameShows(w: World, file: nat)
    requires file < |w.files|
  {
    w.entry.Some? && w.entry.value < |w.files| && w.files[w.entry.value].number == w.files[file].number
  }

  predicate Can(w: World, step: Step) {
    if IsProcessStep(step) then step.p < |w.processes| && CanAct(w, w.processes[step.p], step)
    else
      match step
      case Rebind(to) => to != w.entry && (to.Some? ==> to.value < |w.files| && to.value in w.elsewhere)
      case Fresh(number, _) => Free(w, number)
      case Grab => w.entry.Some?
      case Scribble(file, _) => file < |w.files| && file in w.elsewhere
      case _ => true
  }

  function Becomes(w: World, p: nat, process: Process): World
    requires p < |w.processes|
  {
    w.(processes := w.processes[p := process])
  }

  function WithContent(w: World, file: nat, content: Text): World
    requires file < |w.files|
  {
    w.(files := w.files[file := w.files[file].(content := content)])
  }

  /** Written to, with this content as the result. */
  function Put(w: World, file: nat, content: Text): World
    requires file < |w.files|
  {
    WithContent(w, file, content).(puts := w.puts + {(file, content)})
  }

  /** One more file. */
  function Added(w: World, number: nat, content: Text): World {
    w.(files := w.files + [File(number, content)], puts := w.puts + {(|w.files|, content)})
  }

  /** The entry is gone. */
  function Unbound(w: World, byOther: bool): World {
    if w.entry.None? then w
    else w.(entry := None, removals := w.removals + 1, ousted := w.ousted + {w.entry.value},
            taken := w.taken + (if byOther then 1 else 0))
  }

  /** The name leads to this file from now on. */
  function BoundTo(w: World, file: nat): World {
    w.(entry := Some(file), processes := AllUnsettled(w.processes), bindings := w.bindings + 1,
       everBound := w.everBound + {file})
  }

  function Do(w: World, step: Step): World
    requires Can(w, step)
  {
    if IsProcessStep(step) then Acted(w, step)
    else
      match step
      case Rebind(to) => if to.Some? then BoundTo(Unbound(w, true), to.value) else Unbound(w, true)
      case Fresh(number, content) => Added(w, number, content).(elsewhere := w.elsewhere + {|w.files|})
      case Grab => w.(elsewhere := w.elsewhere + {w.entry.value})
      case Scribble(file, content) => Put(w, file, content).(written := w.written + {file})
      case Forget(file) => w.(elsewhere := w.elsewhere - {file})
  }

  function Acted(w: World, step: Step): World
    requires IsProcessStep(step) && Can(w, step)
  {
    var p := step.p;
    var process := w.processes[p];
    match step
    case Open(_) => Becomes(w, p, Opened(w.entry.value))
    case Read(_) =>
      var content := w.files[process.file].content;
      Becomes(w, p, HasRead(process.file, if |content| > 65 then content[..65] else content))
    case Recheck(_) => Becomes(w, p, Holds(process.file, process.text))
    case Empty(_) =>
      Becomes(WithContent(w, process.file, []).(emptied := w.emptied + {process.file}), p, Emptied(process.file, process.text))
    case Create(_, number) =>
      var made := BoundTo(Added(w, number, []), |w.files|);
      Becomes(made, p, Created(|w.files|))
    case Fill(_) =>
      Becomes(Put(w, process.file, Overwritten(w.files[process.file].content, w.report)), p, Filled(process.file))
    case Confirm(_) => Becomes(w, p, Published(process.file))
    case FailEarly(_) => Becomes(w, p, Undoing(process.file, false))
    case FailWrite(_, kept) =>
      Becomes(Put(w, process.file, Overwritten(w.files[process.file].content, w.report[..kept])), p, Closing(process.file))
    case FailLate(_) => Becomes(w, p, Closing(process.file))
    case CloseFile(_) => Becomes(w, p, Undoing(process.file, true))
    case Look(_) =>
      Becomes(w, p, if process.Emptied? then Looked(process.file, process.text, w.entry.value, false)
                    else LookedToUndo(process.file, process.closed, w.entry.value, false))
    case Unlink(_) =>
      Becomes(Unbound(w, process.Looked?), p,
              if process.Looked? then Consumed(process.file, process.text) else Failed)
    case GiveUp(_) => Becomes(w, p, Failed)
  }

  predicate Legal(w: World, steps: seq<Step>)
    decreases |steps|
  {
    steps == [] || (Can(w, steps[0]) && Legal(Do(w, steps[0]), steps[1..]))
  }

  function After(w: World, steps: seq<Step>): World
    requires Legal(w, steps)
    decreases |steps|
  {
    if steps == [] then w else After(Do(w, steps[0]), steps[1..])
  }

  function PutAtStart(files: seq<File>): set<(nat, Text)> {
    set f: nat | f < |files| :: (f, files[f].content)
  }

  /** Before anyone arrives: any files with numbers of their own, the name bound to one or to none. */
  predicate Start(w: World) {
    && (forall q :: 0 <= q < |w.processes| ==> w.processes[q].Arriving?)
    && (forall f, g :: 0 <= f < g < |w.files| ==> w.files[f].number != w.files[g].number)
    && (w.entry.Some? ==> w.entry.value < |w.files|) && (forall f <- w.elsewhere :: f < |w.files|)
    && w.everBound == (if w.entry.Some? then {w.entry.value} else {})
    && w.bindings == (if w.entry.Some? then 1 else 0) && w.removals == w.taken == 0
    && w.ousted == w.written == w.emptied == {} && w.puts == PutAtStart(w.files)
  }
}
