/**
 The step system of the handoff files against the imperative code: between any moves of others, one
 process's calls lead where `ConsumeToken` and `FillReport` say, whichever of them fail
 (crates/agent/src/handoff_fs.rs).
 */
module HandoffAgreement {
  import opened Bytes
  import opened HandoffSteps
  import Handoff
  import Races = HandoffRaces

  type Failing = set<Handoff.SystemCall>

  predicate Reaches(w: World, steps: seq<Step>, t: World) { Legal(w, steps) && After(w, steps) == t }

  lemma OneStep(w: World, step: Step)
    requires Can(w, step)
    ensures Reaches(w, [step], Do(w, step))
  {
    Races.OneStep(w, step);
  }

  lemma Concat(w: World, a: seq<Step>, m: World, b: seq<Step>, t: World)
    requires Reaches(w, a, m) && Reaches(m, b, t)
    ensures Reaches(w, a + b, t)
  {
    Races.Join(w, a, m, Races.OnlyOwnRemoved(w, a), b, t, Races.OnlyOwnRemoved(m, b));
  }

  lemma Extend(w: World, a: seq<Step>, m: World, step: Step)
    requires Reaches(w, a, m) && Can(m, step)
    ensures Reaches(w, a + [step], Do(m, step))
  {
    OneStep(m, step);
    Concat(w, a, m, [step], Do(m, step));
  }

  /** The disk, as far as a process at work on `file` can tell: whether the name shows its number, and what is there. */
  predicate Depicts(w: World, file: nat, name: Text, disk: Handoff.Disk)
    requires file < |w.files|
  {
    var number := w.files[file].number;
    && (Handoff.LeadsTo(disk.entries, name, number) <==> NameShows(w, file))
    && (NameShows(w, file) ==>
          number in disk.inodes && disk.inodes[number] == PrivateFile(w.files[w.entry.value].content))
  }

  function PrivateFile(content: Text): Handoff.Inode {
    Handoff.Inode(Handoff.Regular, Handoff.PRIVATE_FILE_MODE, content)
  }

  // ---------------------------------------------------------------- what can be done at all

  /** A file is held open by its consumer until the token is returned, by its publisher until it publishes or closes. */
  lemma PinsExactly(process: Process, file: nat)
    ensures Pins(process, file) <==>
            match process
            case Opened(f) => f == file
            case HasRead(f, _) => f == file
            case Holds(f, _) => f == file
            case Emptied(f, _) => f == file
            case Looked(f, _, _, _) => f == file
            case Created(f) => f == file
            case Filled(f) => f == file
            case Closing(f) => f == file
            case Undoing(f, closed) => f == file && !closed
            case LookedToUndo(f, closed, _, _) => f == file && !closed
            case Arriving | Consumed(_, _) | Published(_) | Failed => false
  {
  }

  /** A publisher that fails before it writes keeps its file open, so its number cannot go to another file. */
  lemma EarlyFailureKeepsOpen(w: World, p: nat)
    requires Can(w, FailEarly(p))
    ensures var t := Do(w, FailEarly(p));
            && p < |t.processes| && t.processes[p].Undoing? && Pins(t.processes[p], w.processes[p].file)
            && (w.processes[p].file < |w.files| ==> !Free(t, w.files[w.processes[p].file].number))
  {
  }

  /** A token whose file has not 64 bytes when it is looked at again can only be given up. */
  lemma ChangedTokenRefused(w: World, p: nat, step: Step)
    requires p < |w.processes| && w.processes[p].HasRead? && w.processes[p].file < |w.files|
    requires |w.processes[p].text| != 64 || |w.files[w.processes[p].file].content| != 64
    requires IsProcessStep(step) && step.p == p && Can(w, step)
    ensures step.GiveUp? && Do(w, step).processes[p] == Failed && Do(w, step).files == w.files
  {
  }

  /** The environment may at any time unname, rename a file of its own over the name, or make, take, drop and write files. */
  lemma EnvironmentIsFree(w: World, file: nat, number: nat, content: Text)
    ensures Can(w, Rebind(None)) <==> w.entry.Some?
    ensures file < |w.files| && file in w.elsewhere && w.entry != Some(file) ==> Can(w, Rebind(Some(file)))
    ensures Can(w, Fresh(number, content)) <==> Free(w, number)
    ensures (Can(w, Grab) <==> w.entry.Some?) && Can(w, Forget(file))
    ensures file < |w.files| && file in w.elsewhere ==> Can(w, Scribble(file, content))
  {
  }

  // ---------------------------------------------------------------- a consumer

  /** From the open to the truncation: the token is in hand and its file empty exactly when it can be taken. */
  lemma TakesToken(w: World, p: nat, readable: Text -> bool, security: Handoff.Security, failing: Failing)
    returns (steps: seq<Step>, t: World)
    requires p < |w.processes| && w.processes[p].Arriving? && w.entry.Some? && w.entry.value < |w.files|
    ensures Reaches(w, steps, t) && t.entry == w.entry && |t.processes| == |w.processes|
    ensures var file := w.entry.value;
            var content := w.files[file].content;
            if Handoff.Takeable(PrivateFile(content), readable, security, failing)
            then t.processes[p] == Emptied(file, content) && t.files == w.files[file := w.files[file].(content := [])]
            else t.processes[p] == Failed && t.files == w.files
  {
    var file := w.entry.value;
    var content := w.files[file].content;
    if Handoff.Takeable(PrivateFile(content), readable, security, failing) {
      OneStep(w, Open(p));
      steps, t := [Open(p)], Do(w, Open(p));
      Extend(w, steps, t, Read(p));
      steps, t := steps + [Read(p)], Do(t, Read(p));
      Extend(w, steps, t, Recheck(p));
      steps, t := steps + [Recheck(p)], Do(t, Recheck(p));
      Extend(w, steps, t, Empty(p));
      steps, t := steps + [Empty(p)], Do(t, Empty(p));
    } else {
      OneStep(w, GiveUp(p));
      steps, t := [GiveUp(p)], Do(w, GiveUp(p));
    }
  }

  /** From there, in whatever world others have made of it meanwhile, to the token or the failure. */
  lemma HandsOver(w: World, p: nat, failing: Failing, name: Text, disk: Handoff.Disk)
    returns (steps: seq<Step>, t: World)
    requires p < |w.processes| && w.processes[p].Emptied? && w.processes[p].file < |w.files|
    requires Depicts(w, w.processes[p].file, name, disk)
    ensures Reaches(w, steps, t) && t.files == w.files && |t.processes| == |w.processes|
    ensures var process := w.processes[p];
            var number := w.files[process.file].number;
            if failing !! {Handoff.SyncFile, Handoff.StatDirectory, Handoff.Unlink}
               && Handoff.LeadsTo(disk.entries, name, number)
            then t.processes[p] == Consumed(process.file, process.text) && t.entry == None
                 && Depicts(t, process.file, name, disk.(entries := disk.entries - {name}))
            else t.processes[p] == Failed && t.entry == w.entry && Depicts(t, process.file, name, disk)
  {
    if failing !! {Handoff.SyncFile, Handoff.StatDirectory, Handoff.Unlink} && NameShows(w, w.processes[p].file) {
      OneStep(w, Look(p));
      steps, t := [Look(p)], Do(w, Look(p));
      Extend(w, steps, t, Unlink(p));
      steps, t := steps + [Unlink(p)], Do(t, Unlink(p));
    } else {
      OneStep(w, GiveUp(p));
      steps, t := [GiveUp(p)], Do(w, GiveUp(p));
    }
  }

  /**
   A consumer that nobody disturbs, in any world whose name leads to a file: it ends with exactly that
   file's text, the file emptied and the name gone, if the token can be taken and no call fails; and
   otherwise with nothing, the name left alone.
   */
  lemma LoneConsumer(w: World, p: nat, readable: Text -> bool, security: Handoff.Security, failing: Failing)
    returns (steps: seq<Step>, t: World)
    requires p < |w.processes| && w.processes[p].Arriving? && w.entry.Some? && w.entry.value < |w.files|
    ensures Reaches(w, steps, t)
    ensures var file := w.entry.value;
            var content := w.files[file].content;
            var taken := Handoff.Takeable(PrivateFile(content), readable, security, failing);
            && t.files == (if taken then w.files[file := w.files[file].(content := [])] else w.files)
            && if taken && failing !! {Handoff.SyncFile, Handoff.StatDirectory, Handoff.Unlink}
               then p < |t.processes| && t.processes[p] == Consumed(file, content) && t.entry == None
               else p < |t.processes| && t.processes[p] == Failed && t.entry == w.entry
  {
    steps, t := TakesToken(w, p, readable, security, failing);
    if t.processes[p].Emptied? {
      var file := w.entry.value;
      var number := t.files[file].number;
      var disk := Handoff.Disk(map[[] := number], map[number := PrivateFile([])]);
      var m, first := t, steps;
      steps, t := HandsOver(m, p, failing, [], disk);
      Concat(w, first, m, steps, t);
      steps := first + steps;
    }
  }

  // ---------------------------------------------------------------- a publisher

  lemma WrittenToEmpty(text: Text)
    ensures Overwritten([], text) == text
  {
    assert text + [] == text;
  }

  /** What fits of the report is in the new file; it stays open for confirmation exactly if all of it is, and synced. */
  lemma FillsReport(w: World, p: nat, failing: Failing, room: nat, name: Text, disk: Handoff.Disk)
    returns (steps: seq<Step>, t: World)
    requires p < |w.processes| && w.processes[p].Created? && w.processes[p].file < |w.files|
    requires var file := w.processes[p].file;
             w.files[file].content == [] && w.entry == Some(file) && Depicts(w, file, name, disk)
    ensures Reaches(w, steps, t) && t.entry == w.entry && t.report == w.report
    ensures var file := w.processes[p].file;
            var part := if room < |w.report| then room else |w.report|;
            && t.files == w.files[file := w.files[file].(content := w.report[..part])]
            && t.processes == w.processes[p := if room >= |w.report| && Handoff.SyncFile !in failing
                                               then Filled(file) else Undoing(file, true)]
            && Depicts(t, file, name, Handoff.Written(disk, w.report, failing, w.files[file].number, room, entries => entries))
  {
    WrittenToEmpty(if room < |w.report| then w.report[..room] else w.report);
    if room < |w.report| {
      OneStep(w, FailWrite(p, room));
      steps, t := [FailWrite(p, room)], Do(w, FailWrite(p, room));
    } else {
      assert w.report[..|w.report|] == w.report;
      OneStep(w, Fill(p));
      steps, t := [Fill(p)], Do(w, Fill(p));
      if Handoff.SyncFile in failing {
        Extend(w, steps, t, FailLate(p));
        steps, t := steps + [FailLate(p)], Do(t, FailLate(p));
      }
    }
    if t.processes[p].Closing? {
      Extend(w, steps, t, CloseFile(p));
      steps, t := steps + [CloseFile(p)], Do(t, CloseFile(p));
    }
  }

  /** A filled file is confirmed, in whatever world others have made of it, exactly as the code confirms it. */
  lemma ConfirmsReport(w: World, p: nat, failing: Failing, room: nat, name: Text, disk: Handoff.Disk)
    returns (steps: seq<Step>, t: World)
    requires p < |w.processes| && w.processes[p].Filled? && w.processes[p].file < |w.files|
    requires room >= |w.report| && Handoff.SyncFile !in failing
    requires |w.files[w.processes[p].file].content| == |w.report| && Depicts(w, w.processes[p].file, name, disk)
    ensures Reaches(w, steps, t)
    ensures var file := w.processes[p].file;
            var named := Handoff.LeadsTo(disk.entries, name, w.files[file].number);
            t == w.(processes := w.processes[p := if Handoff.Confirmable(w.report, failing, room, named)
                                                  then Published(file) else Undoing(file, true)])
  {
    if NameShows(w, w.processes[p].file) && failing !! {Handoff.StatDirectory, Handoff.SyncDirectory} {
      OneStep(w, Confirm(p));
      steps, t := [Confirm(p)], Do(w, Confirm(p));
    } else {
      OneStep(w, FailLate(p));
      steps, t := [FailLate(p)], Do(w, FailLate(p));
      Extend(w, steps, t, CloseFile(p));
      steps, t := steps + [CloseFile(p)], Do(t, CloseFile(p));
    }
  }

  /** A closed file's entry is taken away, in whatever world others have made of it, exactly as the code cleans up. */
  lemma CleansUp(w: World, p: nat, failing: Failing, name: Text, disk: Handoff.Disk)
    returns (steps: seq<Step>, t: World)
    requires p < |w.processes| && w.processes[p].Undoing? && w.processes[p].file < |w.files|
    requires Depicts(w, w.processes[p].file, name, disk)
    ensures Reaches(w, steps, t) && t.files == w.files && t.processes == w.processes[p := Failed]
    ensures var file := w.processes[p].file;
            var after := Handoff.CleanedUp(disk, name, w.files[file].number, failing);
            && Depicts(t, file, name, after)
            && t.entry == if after == disk then w.entry else None
  {
    if NameShows(w, w.processes[p].file) && Handoff.Unlink !in failing {
      OneStep(w, Look(p));
      steps, t := [Look(p)], Do(w, Look(p));
      Extend(w, steps, t, Unlink(p));
      steps, t := steps + [Unlink(p)], Do(t, Unlink(p));
      assert name in disk.entries && name !in disk.entries - {name};
    } else {
      OneStep(w, GiveUp(p));
      steps, t := [GiveUp(p)], Do(w, GiveUp(p));
    }
  }

  /** The new file is there, empty and under the name. */
  lemma CreatesReport(w: World, p: nat, number: nat, name: Text, disk: Handoff.Disk) returns (t: World)
    requires p < |w.processes| && w.processes[p].Arriving? && w.entry.None? && Free(w, number)
    ensures Reaches(w, [Create(p, number)], t)
    ensures var file := |w.files|;
            && t.files == w.files + [File(number, [])] && t.entry == Some(file) && t.report == w.report
            && |t.processes| == |w.processes| && t.processes[p] == Created(file)
            && Depicts(t, file, name, Handoff.Made(disk, name, number, Handoff.PRIVATE_FILE_MODE))
  {
    OneStep(w, Create(p, number));
    t := Do(w, Create(p, number));
  }

  /**
   A publisher that nobody disturbs, in any world with the name free and for any report: it publishes
   exactly when the code does, and leaves what the code leaves, the name leading to the whole report or,
   after a failure, to nothing unless unlinking fails too.
   */
  lemma LonePublisher(w: World, p: nat, number: nat, failing: Failing, room: nat, name: Text, disk: Handoff.Disk)
    returns (steps: seq<Step>, t: World)
    requires p < |w.processes| && w.processes[p].Arriving? && w.entry.None? && Free(w, number)
    ensures Reaches(w, steps, t)
    ensures var file := |w.files|;
            var made := Handoff.Made(disk, name, number, Handoff.PRIVATE_FILE_MODE);
            var written := Handoff.Written(made, w.report, failing, number, room, entries => entries);
            var ok := Handoff.Confirmable(w.report, failing, room, true);
            && |t.files| == |w.files| + 1 && t.files[file].number == number && p < |t.processes|
            && t.files[file].content == written.inodes[number].content
            && t.processes[p] == (if ok then Published(file) else Failed)
            && Depicts(t, file, name, if ok then written else Handoff.CleanedUp(written, name, number, failing))
            && t.entry == (if ok || Handoff.Unlink in failing then Some(file) else None)
  {
    var made := Handoff.Made(disk, name, number, Handoff.PRIVATE_FILE_MODE);
    var m := CreatesReport(w, p, number, name, disk);
    var more;
    more, t := FillsReport(m, p, failing, room, name, made);
    Concat(w, [Create(p, number)], m, more, t);
    steps, m := [Create(p, number)] + more, t;
    var written := Handoff.Written(made, w.report, failing, number, room, entries => entries);
    if m.processes[p].Filled? {
      more, t := ConfirmsReport(m, p, failing, room, name, written);
      Concat(w, steps, m, more, t);
      steps, m := steps + more, t;
    }
    if m.processes[p].Undoing? {
      more, t := CleansUp(m, p, failing, name, written);
      Concat(w, steps, m, more, t);
      steps := steps + more;
    }
  }

  /** With nothing failing and room enough, three steps publish any report. */
  lemma PublishesAnyReport(w: World, p: nat, number: nat)
    requires p < |w.processes| && w.processes[p].Arriving? && w.entry.None? && Free(w, number)
    ensures var steps := [Create(p, number), Fill(p), Confirm(p)];
            Legal(w, steps) &&
            var t := After(w, steps);
            && p < |t.processes| && t.processes[p] == Published(|w.files|) && t.entry == Some(|w.files|)
            && t.files == w.files + [File(number, w.report)]
  {
    WrittenToEmpty(w.report);
    OneStep(w, Create(p, number));
    var m := Do(w, Create(p, number));
    Extend(w, [Create(p, number)], m, Fill(p));
    var m' := Do(m, Fill(p));
    Extend(w, [Create(p, number)] + [Fill(p)], m', Confirm(p));
    assert [Create(p, number)] + [Fill(p)] + [Confirm(p)] == [Create(p, number), Fill(p), Confirm(p)];
    assert m'.files == w.files + [File(number, w.report)];
  }
}
