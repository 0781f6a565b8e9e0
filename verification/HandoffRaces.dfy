/** What every interleaving of consumers, publishers and environment keeps (crates/agent/src/handoff_fs.rs). */
module HandoffRaces {
  import opened Bytes
  import opened HandoffSteps
  import Handoff

  // ---------------------------------------------------------------- counting processes

  /** How many processes satisfy a condition. */
  function Count(processes: seq<Process>, which: Process -> bool): nat {
    if processes == [] then 0
    else Count(processes[..|processes| - 1], which) + (if which(processes[|processes| - 1]) then 1 else 0)
  }

  function One(b: bool): nat { if b then 1 else 0 }

  lemma {:induction false} CountAfterUpdate(processes: seq<Process>, which: Process -> bool, p: nat, process: Process)
    requires p < |processes|
    ensures Count(processes[p := process], which) + One(which(processes[p])) == Count(processes, which) + One(which(process))
  {
    var last := |processes| - 1;
    var updated := processes[p := process];
    if p == last {
      assert updated[..last] == processes[..last];
    } else {
      assert updated[..last] == processes[..last][p := process];
      CountAfterUpdate(processes[..last], which, p, process);
    }
  }

  lemma {:induction false} CountUnsettled(processes: seq<Process>, which: Process -> bool)
    requires forall process :: which(Unsettled(process)) == which(process)
    ensures Count(AllUnsettled(processes), which) == Count(processes, which)
  {
    if processes != [] {
      var last := |processes| - 1;
      assert AllUnsettled(processes)[..last] == AllUnsettled(processes[..last]);
      CountUnsettled(processes[..last], which);
    }
  }

  lemma {:induction false} CountNone(processes: seq<Process>, which: Process -> bool)
    requires forall q :: 0 <= q < |processes| ==> !which(processes[q])
    ensures Count(processes, which) == 0
  {
    if processes != [] { CountNone(processes[..|processes| - 1], which); }
  }

  lemma {:induction false} CountIsMonotone(processes: seq<Process>, some: Process -> bool, more: Process -> bool)
    requires forall process :: some(process) ==> more(process)
    ensures Count(processes, some) <= Count(processes, more)
  {
    if processes != [] { CountIsMonotone(processes[..|processes| - 1], some, more); }
  }

  lemma {:induction false} CountAtMostOne(processes: seq<Process>, which: Process -> bool)
    requires forall q, r :: 0 <= q < r < |processes| ==> !which(processes[q]) || !which(processes[r])
    ensures Count(processes, which) <= 1
  {
    if processes != [] {
      var front := processes[..|processes| - 1];
      if which(processes[|processes| - 1]) {
        assert forall q :: 0 <= q < |front| ==> !which(front[q]) by {
          assert forall q :: 0 <= q < |front| ==> front[q] == processes[q];
        }
        CountNone(front, which);
      } else {
        CountAtMostOne(front, which);
      }
    }
  }

  lemma {:induction false} CountSeesTwo(processes: seq<Process>, which: Process -> bool, q: nat, r: nat)
    requires q < r < |processes| && which(processes[q]) && which(processes[r])
    ensures Count(processes, which) >= 2
  {
    if r < |processes| - 1 {
      CountSeesTwo(processes[..|processes| - 1], which, q, r);
    } else {
      CountSeesOne(processes[..r], which, q);
    }
  }

  lemma {:induction false} CountSeesOne(processes: seq<Process>, which: Process -> bool, q: nat)
    requires q < |processes| && which(processes[q])
    ensures Count(processes, which) >= 1
  {
    if q < |processes| - 1 { CountSeesOne(processes[..|processes| - 1], which, q); }
  }

  // ---------------------------------------------------------------- at most one token per binding

  function IsConsumed(process: Process): bool { process.Consumed? }

  predicate Books(w: World) {
    && w.bindings == w.removals + One(w.entry.Some?)
    && Count(w.processes, IsConsumed) <= w.removals
  }

  /** The other processes at most lose confidence in their last look. */
  lemma OthersAfter(w: World, step: Step)
    requires Can(w, step)
    ensures var others := if BindsName(step) then AllUnsettled(w.processes) else w.processes;
            Do(w, step).processes == if IsProcessStep(step) then others[step.p := Do(w, step).processes[step.p]] else others
  {
  }

  lemma CountAfterStep(w: World, step: Step, which: Process -> bool)
    requires Can(w, step) && forall process :: which(Unsettled(process)) == which(process)
    ensures if IsProcessStep(step)
            then Count(Do(w, step).processes, which) + One(which(w.processes[step.p])) ==
                 Count(w.processes, which) + One(which(Do(w, step).processes[step.p]))
            else Count(Do(w, step).processes, which) == Count(w.processes, which)
  {
    var others := if BindsName(step) then AllUnsettled(w.processes) else w.processes;
    OthersAfter(w, step);
    CountUnsettled(w.processes, which);
    if IsProcessStep(step) { CountAfterUpdate(others, which, step.p, Do(w, step).processes[step.p]); }
  }

  lemma StepKeepsBooks(w: World, step: Step)
    requires Books(w) && Can(w, step)
    ensures Books(Do(w, step))
  {
    CountAfterStep(w, step, IsConsumed);
  }

  lemma {:induction false} RunKeepsBooks(w: World, steps: seq<Step>)
    requires Books(w) && Legal(w, steps)
    ensures Books(After(w, steps))
    decreases |steps|
  {
    if steps != [] {
      StepKeepsBooks(w, steps[0]);
      RunKeepsBooks(Do(w, steps[0]), steps[1..]);
    }
  }

  /** How often the name is bound during a run. */
  function Binds(steps: seq<Step>): nat {
    if steps == [] then 0 else One(BindsName(steps[0])) + Binds(steps[1..])
  }

  lemma {:induction false} BindingsCounted(w: World, steps: seq<Step>)
    requires Legal(w, steps)
    ensures After(w, steps).bindings == w.bindings + Binds(steps)
    decreases |steps|
  {
    if steps != [] { BindingsCounted(Do(w, steps[0]), steps[1..]); }
  }

  /**
   Over every interleaving, no more consumers return a token than the name was ever bound: at most
   one when nobody else creates the entry.
   */
  lemma OneTimeToken(w: World, steps: seq<Step>)
    requires Start(w) && Legal(w, steps)
    ensures Count(After(w, steps).processes, IsConsumed) <= One(w.entry.Some?) + Binds(steps)
  {
    CountNone(w.processes, IsConsumed);
    RunKeepsBooks(w, steps);
    BindingsCounted(w, steps);
  }

  // ---------------------------------------------------------------- files and their numbers

  /** Indices are in range, and a file whose number was given out again is dead. */
  predicate Numbered(w: World) {
    && (w.entry.Some? ==> w.entry.value < |w.files|)
    && (forall f <- w.elsewhere :: f < |w.files|)
    && (forall q :: 0 <= q < |w.processes| && HasFile(w.processes[q]) ==> w.processes[q].file < |w.files|)
    && (forall f, g :: 0 <= f < g < |w.files| && w.files[f].number == w.files[g].number ==> !Live(w, f))
  }

  /** No file comes back to life, and numbers do not change. */
  predicate OnlyDies(w: World, after: World) {
    && |w.files| <= |after.files|
    && (forall f :: 0 <= f < |w.files| ==> after.files[f].number == w.files[f].number)
    && (forall f :: 0 <= f < |w.files| && Live(after, f) ==> Live(w, f))
  }

  lemma PinnedBefore(processes: seq<Process>, after: seq<Process>, file: nat)
    requires |after| == |processes| && Pinned(after, file)
    requires forall q :: 0 <= q < |after| && Pins(after[q], file) ==> Pins(processes[q], file)
    ensures Pinned(processes, file)
  {
    var q :| 0 <= q < |after| && Pins(after[q], file);
    assert Pins(processes[q], file);
  }

  lemma ActorPins(w: World, step: Step, file: nat)
    requires Can(w, step) && IsProcessStep(step) && file < |w.files| && !(step.Open? && w.entry == Some(file))
    ensures Pins(Do(w, step).processes[step.p], file) ==> Pins(w.processes[step.p], file)
  {
  }

  lemma StepOnlyKills(w: World, step: Step)
    requires Can(w, step)
    ensures OnlyDies(w, Do(w, step))
  {
    var after := Do(w, step);
    forall f | 0 <= f < |w.files| && Live(after, f) ensures Live(w, f) {
      if Pinned(after.processes, f) && !(step.Open? && w.entry == Some(f)) {
        forall q | 0 <= q < |after.processes| && Pins(after.processes[q], f) ensures Pins(w.processes[q], f) {
          if IsProcessStep(step) && q == step.p { ActorPins(w, step, f); }
        }
        PinnedBefore(w.processes, after.processes, f);
      }
    }
  }

  lemma StepKeepsRange(w: World, step: Step)
    requires Numbered(w) && Can(w, step)
    ensures var after := Do(w, step);
            && (after.entry.Some? ==> after.entry.value < |after.files|)
            && (forall f <- after.elsewhere :: f < |after.files|) && |w.files| <= |after.files|
  {
  }

  lemma ActorInRange(w: World, step: Step)
    requires Numbered(w) && Can(w, step) && IsProcessStep(step)
    ensures HasFile(Do(w, step).processes[step.p]) ==> Do(w, step).processes[step.p].file < |Do(w, step).files|
  {
  }

  lemma ProcessesInRange(w: World, step: Step, q: nat)
    requires Numbered(w) && Can(w, step) && q < |w.processes|
    ensures HasFile(Do(w, step).processes[q]) ==> Do(w, step).processes[q].file < |Do(w, step).files|
  {
    OthersAfter(w, step);
    StepKeepsRange(w, step);
    if IsProcessStep(step) { ActorInRange(w, step); }
  }

  lemma StepKeepsNumbered(w: World, step: Step)
    requires Numbered(w) && Can(w, step)
    ensures Numbered(Do(w, step))
  {
    StepKeepsRange(w, step);
    StepOnlyKills(w, step);
    OthersAfter(w, step);
    var after := Do(w, step);
    forall q | 0 <= q < |after.processes| && HasFile(after.processes[q]) ensures after.processes[q].file < |after.files| {
      ProcessesInRange(w, step, q);
    }
    forall f, g | 0 <= f < g < |after.files| && after.files[f].number == after.files[g].number ensures !Live(after, f) {
      assert g < |w.files| || step.Create? || step.Fresh?;
      assert !Live(w, f);
    }
  }

  lemma {:induction false} RunKeepsNumbered(w: World, steps: seq<Step>)
    requires Numbered(w) && Legal(w, steps)
    ensures Numbered(After(w, steps))
    decreases |steps|
  {
    if steps != [] {
      StepKeepsNumbered(w, steps[0]);
      RunKeepsNumbered(Do(w, steps[0]), steps[1..]);
    }
  }

  /**
   A look compares numbers. It finds the process's own file, or else the process is a failed
   publisher that has closed its file, and the number has been given to a later one.
   */
  lemma LookFinds(w: World, p: nat)
    requires Numbered(w) && Can(w, Look(p))
    ensures var process := w.processes[p];
            w.entry.value == process.file || (process.Undoing? && process.closed && process.file < w.entry.value)
  {
    var process := w.processes[p];
    assert Live(w, w.entry.value);
    if process.file < w.entry.value && !(process.Undoing? && process.closed) {
      assert Pins(process, process.file);
      assert Live(w, process.file);
    }
  }

  /** So a report that is confirmed is what the name leads to. */
  lemma ConfirmFinds(w: World, p: nat)
    requires Numbered(w) && Can(w, Confirm(p))
    ensures w.entry == Some(w.processes[p].file)
  {
    var process := w.processes[p];
    assert Live(w, w.entry.value);
    assert Pins(process, process.file);
    assert Live(w, process.file);
  }

  // ---------------------------------------------------------------- whose entry is removed

  /** What the last look found is the own file, or a later one with its number, and then the own one lost its entry. */
  predicate FoundOwnOrReused(files: seq<File>, ousted: set<nat>, process: Process) {
    Watching(process) ==>
      process.seen == process.file || (
        && process.LookedToUndo? && process.closed && process.file < process.seen < |files|
        && files[process.file].number == files[process.seen].number && process.file in ousted)
  }

  predicate Fair(entry: Option<nat>, files: seq<File>, ousted: set<nat>, process: Process) {
    && FoundOwnOrReused(files, ousted, process)
    && (Watching(process) && !process.swapped ==> entry == None || entry == Some(process.seen))
    && (IsPublisher(process) ==> entry == Some(process.file) || process.file in ousted)
  }

  predicate AllFair(w: World) {
    forall q :: 0 <= q < |w.processes| ==> Fair(w.entry, w.files, w.ousted, w.processes[q])
  }

  lemma StaysFair(w: World, step: Step, q: nat)
    requires Can(w, step) && AllFair(w) && q < |w.processes| && !(IsProcessStep(step) && step.p == q)
    ensures var after := Do(w, step); Fair(after.entry, after.files, after.ousted, after.processes[q])
  {
    assert Fair(w.entry, w.files, w.ousted, w.processes[q]);
    OthersAfter(w, step);
  }

  lemma LooksFair(w: World, step: Step)
    requires Numbered(w) && Can(w, step) && step.Look? && Fair(w.entry, w.files, w.ousted, w.processes[step.p])
    ensures var after := Do(w, step); Fair(after.entry, after.files, after.ousted, after.processes[step.p])
  {
    LookFinds(w, step.p);
  }

  lemma ActsFair(w: World, step: Step)
    requires Can(w, step) && IsProcessStep(step) && !step.Look? && Fair(w.entry, w.files, w.ousted, w.processes[step.p])
    ensures var after := Do(w, step); Fair(after.entry, after.files, after.ousted, after.processes[step.p])
  {
  }

  lemma StepKeepsFair(w: World, step: Step)
    requires Numbered(w) && AllFair(w) && Can(w, step)
    ensures AllFair(Do(w, step))
  {
    var after := Do(w, step);
    forall q | 0 <= q < |after.processes| ensures Fair(after.entry, after.files, after.ousted, after.processes[q]) {
      if step.Look? && q == step.p {
        LooksFair(w, step);
      } else if IsProcessStep(step) && q == step.p {
        ActsFair(w, step);
      } else {
        StaysFair(w, step, q);
      }
    }
  }

  lemma {:induction false} RunKeepsFair(w: World, steps: seq<Step>)
    requires Numbered(w) && AllFair(w) && Legal(w, steps)
    ensures Numbered(After(w, steps)) && AllFair(After(w, steps))
    decreases |steps|
  {
    if steps != [] {
      StepKeepsNumbered(w, steps[0]);
      StepKeepsFair(w, steps[0]);
      RunKeepsFair(Do(w, steps[0]), steps[1..]);
    }
  }

  /** The step takes away an entry that leads to another file than the process's own. */
  predicate RemovesForeign(w: World, step: Step)
    requires Can(w, step)
  {
    step.Unlink? && w.entry != Some(w.processes[step.p].file)
  }

  /**
   A failed publisher closed its file, lost its entry, and then saw a later file that was given the
   same number.
   */
  predicate SawReused(w: World, p: nat)
    requires p < |w.processes|
  {
    var process := w.processes[p];
    && process.LookedToUndo? && process.closed && process.file < process.seen < |w.files|
    && w.files[process.file].number == w.files[process.seen].number && process.file in w.ousted
  }

  /**
   In every run, an unlink that hits a foreign entry follows a binding inside its own window, or is
   that of a publisher misled by a reused number; and without a binding in the window it hits a
   foreign entry exactly when the publisher was misled. A consumer is never misled.
   */
  lemma ForeignRemoval(w: World, steps: seq<Step>, p: nat)
    requires Start(w) && Legal(w, steps) && Can(After(w, steps), Unlink(p))
    ensures var after := After(w, steps);
            && (RemovesForeign(after, Unlink(p)) ==> after.processes[p].swapped || SawReused(after, p))
            && (!after.processes[p].swapped ==> (RemovesForeign(after, Unlink(p)) <==> SawReused(after, p)))
            && (after.processes[p].Looked? ==> !SawReused(after, p))
  {
    RunKeepsFair(w, steps);
    var after := After(w, steps);
    assert Fair(after.entry, after.files, after.ousted, after.processes[p]);
  }

  /** Nobody binds the name while a process is between its look and its unlink. */
  predicate QuietWindows(w: World, steps: seq<Step>)
    requires Legal(w, steps)
    decreases |steps|
  {
    steps == [] || (
      && (BindsName(steps[0]) ==> forall q :: 0 <= q < |w.processes| ==> !Watching(w.processes[q]))
      && QuietWindows(Do(w, steps[0]), steps[1..]))
  }

  /** Every removal in the run is of the process's own entry, but for publishers misled by a reused number. */
  predicate OnlyOwnOrReused(w: World, steps: seq<Step>)
    requires Legal(w, steps)
    decreases |steps|
  {
    steps == [] || (
      && (RemovesForeign(w, steps[0]) ==> SawReused(w, steps[0].p))
      && OnlyOwnOrReused(Do(w, steps[0]), steps[1..]))
  }

  predicate OnlyOwnRemoved(w: World, steps: seq<Step>)
    requires Legal(w, steps)
    decreases |steps|
  {
    steps == [] || (!RemovesForeign(w, steps[0]) && OnlyOwnRemoved(Do(w, steps[0]), steps[1..]))
  }

  predicate NoneSwapped(w: World) {
    forall q :: 0 <= q < |w.processes| && Watching(w.processes[q]) ==> !w.processes[q].swapped
  }

  lemma QuietStep(w: World, step: Step)
    requires Can(w, step) && NoneSwapped(w)
    requires BindsName(step) ==> forall q :: 0 <= q < |w.processes| ==> !Watching(w.processes[q])
    ensures NoneSwapped(Do(w, step))
  {
    OthersAfter(w, step);
  }

  lemma {:induction false} QuietRunsFrom(w: World, steps: seq<Step>)
    requires Legal(w, steps) && Numbered(w) && AllFair(w) && NoneSwapped(w) && QuietWindows(w, steps)
    ensures OnlyOwnOrReused(w, steps)
    decreases |steps|
  {
    if steps != [] {
      if steps[0].Unlink? { assert Fair(w.entry, w.files, w.ousted, w.processes[steps[0].p]); }
      StepKeepsNumbered(w, steps[0]);
      StepKeepsFair(w, steps[0]);
      QuietStep(w, steps[0]);
      QuietRunsFrom(Do(w, steps[0]), steps[1..]);
    }
  }

  /** With look and unlink not torn apart by a binding, only a reused number makes a foreign removal. */
  lemma QuietRunsRemoveOwnOrReused(w: World, steps: seq<Step>)
    requires Start(w) && Legal(w, steps) && QuietWindows(w, steps)
    ensures OnlyOwnOrReused(w, steps)
  {
    QuietRunsFrom(w, steps);
  }

  /** Identity check and unlink taken as one step: each look is followed at once by its own unlink. */
  predicate Atomic(steps: seq<Step>)
    decreases |steps|
  {
    if |steps| < 2 then true
    else if steps[0].Look? then
      (steps[1].Unlink? || steps[1].GiveUp?) && steps[1].p == steps[0].p && Atomic(steps[2..])
    else Atomic(steps[1..])
  }

  predicate NobodyWatches(w: World) {
    forall q :: 0 <= q < |w.processes| ==> !Watching(w.processes[q])
  }

  lemma NobodyStartsToWatch(w: World, step: Step)
    requires Can(w, step) && NobodyWatches(w) && !step.Look?
    ensures NobodyWatches(Do(w, step))
  {
    OthersAfter(w, step);
  }

  lemma LookIsOver(w: World, step: Step, next: Step)
    requires Can(w, step) && NobodyWatches(w) && step.Look? && Can(Do(w, step), next)
    requires (next.Unlink? || next.GiveUp?) && next.p == step.p
    ensures NobodyWatches(Do(Do(w, step), next))
  {
    OthersAfter(w, step);
    OthersAfter(Do(w, step), next);
  }

  lemma {:induction false} AtomicIsQuiet(w: World, steps: seq<Step>)
    requires NobodyWatches(w) && Legal(w, steps) && Atomic(steps)
    ensures QuietWindows(w, steps)
    decreases |steps|
  {
    if steps != [] {
      var next := Do(w, steps[0]);
      if steps[0].Look? && |steps| >= 2 {
        assert steps[1..][1..] == steps[2..];
        LookIsOver(w, steps[0], steps[1]);
        AtomicIsQuiet(Do(next, steps[1]), steps[2..]);
      } else if |steps| >= 2 {
        NobodyStartsToWatch(w, steps[0]);
        AtomicIsQuiet(next, steps[1..]);
      }
    }
  }

  /**
   Taking check and unlink as one step: a consumer never removes another file's entry, whatever is
   swapped, and a publisher does so only misled by a reused number after it lost its own entry.
   */
  lemma AtomicRemovalIsSafe(w: World, steps: seq<Step>)
    requires Start(w) && Legal(w, steps) && Atomic(steps)
    ensures OnlyOwnOrReused(w, steps)
  {
    AtomicIsQuiet(w, steps);
    QuietRunsRemoveOwnOrReused(w, steps);
  }

  /** No step takes the name from a publisher that is still at work. */
  predicate LeavesPublishersAlone(w: World, steps: seq<Step>)
    requires Legal(w, steps)
    decreases |steps|
  {
    steps == [] || (
      var after := Do(w, steps[0]);
      && (forall q :: 0 <= q < |after.processes| && IsPublisher(after.processes[q]) ==>
            w.entry == Some(after.processes[q].file) ==> after.entry == w.entry)
      && LeavesPublishersAlone(after, steps[1..]))
  }

  /** Publishers at work still have their entries. */
  predicate NoneOusted(w: World) {
    && (forall f <- w.ousted :: f < |w.files|) && (w.entry.Some? ==> w.entry.value < |w.files|)
    && forall q :: 0 <= q < |w.processes| && IsPublisher(w.processes[q]) ==> w.processes[q].file !in w.ousted
  }

  /** The only file a step can take the name from is the one it leads to. */
  lemma OustsOnlyEntry(w: World, step: Step)
    requires Can(w, step)
    ensures var after := Do(w, step);
            && after.ousted <= w.ousted + (if w.entry.Some? then {w.entry.value} else {})
            && (after.entry == w.entry ==> after.ousted == w.ousted) && |after.files| >= |w.files|
  {
  }

  lemma PublisherBefore(w: World, step: Step, q: nat)
    requires Can(w, step) && q < |w.processes| && IsPublisher(Do(w, step).processes[q]) && !(step.Create? && step.p == q)
    ensures IsPublisher(w.processes[q]) && w.processes[q].file == Do(w, step).processes[q].file
  {
    OthersAfter(w, step);
  }

  lemma StepOustsNone(w: World, step: Step)
    requires Can(w, step) && Numbered(w) && NoneOusted(w)
    requires var after := Do(w, step);
             forall q :: 0 <= q < |after.processes| && IsPublisher(after.processes[q]) ==>
               w.entry == Some(after.processes[q].file) ==> after.entry == w.entry
    ensures NoneOusted(Do(w, step))
  {
    var after := Do(w, step);
    OustsOnlyEntry(w, step);
    StepKeepsNumbered(w, step);
    forall q | 0 <= q < |after.processes| && IsPublisher(after.processes[q])
      ensures after.processes[q].file !in after.ousted
    {
      if step.Create? && step.p == q {
        assert after.processes[q].file == |w.files|;
      } else {
        PublisherBefore(w, step, q);
      }
    }
  }

  lemma {:induction false} LeftAloneFrom(w: World, steps: seq<Step>)
    requires Legal(w, steps) && Numbered(w) && NoneOusted(w)
    requires LeavesPublishersAlone(w, steps) && OnlyOwnOrReused(w, steps)
    ensures OnlyOwnRemoved(w, steps)
    decreases |steps|
  {
    if steps != [] {
      StepOustsNone(w, steps[0]);
      StepKeepsNumbered(w, steps[0]);
      LeftAloneFrom(Do(w, steps[0]), steps[1..]);
    }
  }

  /** If nobody takes the name from a publisher at work, no foreign entry is removed at all. */
  lemma PublishersLeftAlone(w: World, steps: seq<Step>)
    requires Start(w) && Legal(w, steps) && QuietWindows(w, steps) && LeavesPublishersAlone(w, steps)
    ensures OnlyOwnRemoved(w, steps)
  {
    QuietRunsRemoveOwnOrReused(w, steps);
    LeftAloneFrom(w, steps);
  }

  // ---------------------------------------------------------------- two runs that lose a foreign entry

  /** A run and where it leads, and whether it removes own entries only. */
  predicate Leads(w: World, steps: seq<Step>, t: World, clean: bool) {
    Legal(w, steps) && After(w, steps) == t && (OnlyOwnRemoved(w, steps) <==> clean)
  }

  lemma LeadOn(w: World, step: Step, rest: seq<Step>, t: World, clean: bool)
    requires Can(w, step) && Leads(Do(w, step), rest, t, clean)
    ensures Leads(w, [step] + rest, t, !RemovesForeign(w, step) && clean)
  {
    assert ([step] + rest)[1..] == rest;
  }

  lemma Behead(w: World, a: seq<Step>, m: World, clean: bool) returns (restClean: bool)
    requires a != [] && Leads(w, a, m, clean)
    ensures Can(w, a[0]) && Leads(Do(w, a[0]), a[1..], m, restClean)
    ensures clean <==> !RemovesForeign(w, a[0]) && restClean
  {
    restClean := OnlyOwnRemoved(Do(w, a[0]), a[1..]);
  }

  lemma {:induction false} Join(w: World, a: seq<Step>, m: World, clean: bool, b: seq<Step>, t: World, alsoClean: bool)
    requires Leads(w, a, m, clean) && Leads(m, b, t, alsoClean)
    ensures Leads(w, a + b, t, clean && alsoClean)
    decreases |a|
  {
    if a == [] {
      assert a + b == b;
    } else {
      var restClean := Behead(w, a, m, clean);
      Join(Do(w, a[0]), a[1..], m, restClean, b, t, alsoClean);
      LeadOn(w, a[0], a[1..] + b, t, restClean && alsoClean);
      assert a + b == [a[0]] + (a[1..] + b);
    }
  }

  /** Three clean stretches, and a last one that is not. */
  lemma JoinFour(w: World, a: seq<Step>, w2: World, b: seq<Step>, w4: World, c: seq<Step>, w6: World, d: seq<Step>, t: World)
    requires Leads(w, a, w2, true) && Leads(w2, b, w4, true) && Leads(w4, c, w6, true) && Leads(w6, d, t, false)
    ensures Leads(w, a + b + c + d, t, false)
  {
    Join(w, a, w2, true, b, w4, true);
    Join(w, a + b, w4, true, c, w6, true);
    Join(w, a + b + c, w6, true, d, t, false);
  }

  lemma OneStep(w: World, step: Step)
    requires Can(w, step)
    ensures Leads(w, [step], Do(w, step), !RemovesForeign(w, step))
  {
    var steps, t := [step], Do(w, step);
    var rest := steps[1..];
    assert rest == [] && steps[0] == step;
    assert Legal(t, rest) && After(t, rest) == t && OnlyOwnRemoved(t, rest);
    assert Legal(w, steps);
    assert After(w, steps) == After(t, rest);
    assert OnlyOwnRemoved(w, steps) <==> !RemovesForeign(w, step) && OnlyOwnRemoved(t, rest);
  }

  lemma TwoSteps(w: World, a: Step, m: World, b: Step, t: World)
    requires Can(w, a) && Do(w, a) == m && Can(m, b) && Do(m, b) == t
    ensures Leads(w, [a, b], t, !RemovesForeign(w, a) && !RemovesForeign(m, b))
  {
    OneStep(w, a);
    OneStep(m, b);
    Join(w, [a], m, !RemovesForeign(w, a), [b], t, !RemovesForeign(m, b));
    assert [a] + [b] == [a, b];
  }

  function StartWith(entry: Option<nat>, files: seq<File>, elsewhere: set<nat>): World {
    World(entry, files, elsewhere, [Arriving], [], One(entry.Some?), 0, 0,
          if entry.Some? then {entry.value} else {}, {}, {}, {}, PutAtStart(files))
  }

  lemma ReadsToken(token: Text, other: Text) returns (steps: seq<Step>, t: World)
    requires |token| == Handoff.TOKEN_TEXT_BYTES
    ensures var w := StartWith(Some(0), [File(7, token), File(8, other)], {1});
            t == w.(processes := [HasRead(0, token)]) && Leads(w, steps, t, true)
  {
    var w := StartWith(Some(0), [File(7, token), File(8, other)], {1});
    var m := Do(w, Open(0));
    t := Do(m, Read(0));
    TwoSteps(w, Open(0), m, Read(0), t);
    steps := [Open(0), Read(0)];
  }

  lemma EmptiesToken(w: World, token: Text, other: Text) returns (steps: seq<Step>, t: World)
    requires |token| == Handoff.TOKEN_TEXT_BYTES && w.processes == [HasRead(0, token)]
    requires w.files == [File(7, token), File(8, other)]
    ensures t == w.(files := [File(7, []), File(8, other)], emptied := w.emptied + {0}, processes := [Emptied(0, token)])
    ensures Leads(w, steps, t, true)
  {
    var m := Do(w, Recheck(0));
    t := Do(m, Empty(0));
    assert t.files == [File(7, []), File(8, other)];
    TwoSteps(w, Recheck(0), m, Empty(0), t);
    steps := [Recheck(0), Empty(0)];
  }

  lemma LooksAndIsSwapped(w: World, token: Text) returns (steps: seq<Step>, t: World)
    requires w.processes == [Emptied(0, token)] && w.entry == Some(0) && |w.files| == 2 && 1 in w.elsewhere
    ensures t.entry == Some(1) && t.processes == [Looked(0, token, 0, true)] && t.files == w.files
    ensures Leads(w, steps, t, true)
  {
    var m := Do(w, Look(0));
    t := Do(m, Rebind(Some(1)));
    TwoSteps(w, Look(0), m, Rebind(Some(1)), t);
    steps := [Look(0), Rebind(Some(1))];
  }

  lemma RemovesWhatIsThere(w: World, token: Text) returns (steps: seq<Step>, t: World)
    requires w.entry == Some(1) && w.processes == [Looked(0, token, 0, true)] && |w.files| > 0
    ensures t.processes == [Consumed(0, token)] && Leads(w, steps, t, false)
  {
    steps, t := [Unlink(0)], Do(w, Unlink(0));
    OneStep(w, Unlink(0));
  }

  /** The look and the unlink are two system calls: a file renamed over the name in between is lost. */
  lemma SwapInTheWindow(token: Text, other: Text) returns (steps: seq<Step>)
    requires |token| == Handoff.TOKEN_TEXT_BYTES
    ensures var w := StartWith(Some(0), [File(7, token), File(8, other)], {1});
            Start(w) && Legal(w, steps) && !OnlyOwnRemoved(w, steps)
            && After(w, steps).processes == [Consumed(0, token)]
  {
    var w := StartWith(Some(0), [File(7, token), File(8, other)], {1});
    var a, w2 := ReadsToken(token, other);
    var b, w4 := EmptiesToken(w2, token, other);
    var c, w6 := LooksAndIsSwapped(w4, token);
    var d, w7 := RemovesWhatIsThere(w6, token);
    JoinFour(w, a, w2, b, w4, c, w6, d, w7);
    steps := a + b + c + d;
  }

  predicate LostEntry(w: World, number: nat) {
    w.entry == None && w.files == [File(number, [])] && w.elsewhere == {} && w.processes == [Created(0)] && w.report == []
  }

  lemma LosesEntry(number: nat) returns (t: World)
    ensures LostEntry(t, number)
    ensures Leads(StartWith(None, [], {}), [Create(0, number), Rebind(None)], t, true)
  {
    var w := StartWith(None, [], {});
    var m := Do(w, Create(0, number));
    t := Do(m, Rebind(None));
    TwoSteps(w, Create(0, number), m, Rebind(None), t);
  }

  lemma FailsAndCloses(w: World, number: nat) returns (t: World)
    requires LostEntry(w, number)
    ensures t == w.(processes := [Undoing(0, true)], puts := t.puts)
    ensures Leads(w, [FailWrite(0, 0), CloseFile(0)], t, true)
  {
    var m := Do(w, FailWrite(0, 0));
    t := Do(m, CloseFile(0));
    assert t.files == w.files;
    TwoSteps(w, FailWrite(0, 0), m, CloseFile(0), t);
  }

  lemma NumberGivenAgain(w: World, number: nat, other: Text) returns (t: World)
    requires w.entry == None && w.files == [File(number, [])] && w.elsewhere == {} && w.processes == [Undoing(0, true)]
    ensures t.entry == Some(1) && t.files == [File(number, []), File(number, other)] && t.processes == w.processes
    ensures Leads(w, [Fresh(number, other), Rebind(Some(1))], t, true)
  {
    assert !Pins(w.processes[0], 0);
    var m := Do(w, Fresh(number, other));
    t := Do(m, Rebind(Some(1)));
    TwoSteps(w, Fresh(number, other), m, Rebind(Some(1)), t);
  }

  lemma RemovesNamesake(w: World, number: nat, other: Text) returns (t: World)
    requires w.entry == Some(1) && w.files == [File(number, []), File(number, other)] && w.processes == [Undoing(0, true)]
    ensures t.entry == None && t.files == w.files && Leads(w, [Look(0), Unlink(0)], t, false)
  {
    var m := Do(w, Look(0));
    t := Do(m, Unlink(0));
    TwoSteps(w, Look(0), m, Unlink(0), t);
  }

  /**
   A failed publisher closes its file before it looks: one that has lost its entry then removes a
   foreign file that was given its number, even with look and unlink taken as one step.
   */
  lemma NumberReused(number: nat, other: Text) returns (steps: seq<Step>)
    ensures var w := StartWith(None, [], {});
            Start(w) && Legal(w, steps) && Atomic(steps) && !OnlyOwnRemoved(w, steps)
            && After(w, steps).files == [File(number, []), File(number, other)] && After(w, steps).entry == None
  {
    var w := StartWith(None, [], {});
    var w2 := LosesEntry(number);
    var w4 := FailsAndCloses(w2, number);
    var w6 := NumberGivenAgain(w4, number, other);
    var w8 := RemovesNamesake(w6, number, other);
    var a, b := [Create(0, number), Rebind(None)], [FailWrite(0, 0), CloseFile(0)];
    var c, d := [Fresh(number, other), Rebind(Some(1))], [Look(0), Unlink(0)];
    JoinFour(w, a, w2, b, w4, c, w6, d, w8);
    steps := a + b + c + d;
    NoLooks(a + b + c, d);
  }

  lemma {:induction false} NoLooks(steps: seq<Step>, last: seq<Step>)
    requires |last| == 2 && last[0].Look? && last[1].Unlink? && last[0].p == last[1].p
    requires forall step <- steps :: !step.Look?
    ensures Atomic(steps + last)
  {
    if steps != [] {
      NoLooks(steps[1..], last);
      assert (steps + last)[1..] == steps[1..] + last;
    } else {
      assert steps + last == last && last[2..] == [];
    }
  }

  // ---------------------------------------------------------------- whose token, whose file

  /** What a process knows, relative to the files there were at the start. */
  predicate Knows(start: seq<File>, files: seq<File>, everBound: set<nat>, written: set<nat>, process: Process) {
    HasFile(process) ==>
      && process.file < |files| && process.file in everBound
      && (IsPublisher(process) ==> |start| <= process.file)
      && (process.Holds? || process.Emptied? || process.Looked? || process.Consumed? ==>
            |process.text| == Handoff.TOKEN_TEXT_BYTES)
      && (process.file < |start| && process.file !in written ==>
            && (process.HasRead? ==> process.text == [] || ReadFrom(start[process.file].content, process.text))
            && (process.Holds? || process.Emptied? || process.Looked? || process.Consumed? ==>
                  process.text == start[process.file].content)
            && (process.Emptied? || process.Looked? || process.Consumed? ==> files[process.file].content == []))
  }

  /** The first 65 bytes at most. */
  predicate ReadFrom(content: Text, text: Text) {
    text == if |content| > 65 then content[..65] else content
  }

  /** A file from the start that nobody wrote to is as it was, or was emptied by a consumer the name led there. */
  predicate Files(start: seq<File>, w: World) {
    && |start| <= |w.files|
    && forall i :: 0 <= i < |start| && i !in w.written ==>
         w.files[i].content == start[i].content || (w.files[i].content == [] && i in w.emptied && i in w.everBound)
  }

  predicate Genuine(start: seq<File>, w: World) {
    && Files(start, w)
    && (w.entry.Some? ==> w.entry.value < |w.files| && w.entry.value in w.everBound)
    && forall q :: 0 <= q < |w.processes| ==> Knows(start, w.files, w.everBound, w.written, w.processes[q])
  }

  /** Files only grow in number, and old ones nobody wrote to only change by being emptied. */
  predicate Ages(start: seq<File>, before: World, after: World) {
    && |start| <= |before.files| <= |after.files|
    && before.everBound <= after.everBound && before.written <= after.written
    && forall i :: 0 <= i < |start| && i !in after.written ==>
         after.files[i].content == before.files[i].content || after.files[i].content == []
  }

  lemma FilesLast(start: seq<File>, w: World, step: Step)
    requires Genuine(start, w) && Can(w, step)
    ensures Files(start, Do(w, step)) && Ages(start, w, Do(w, step))
  {
    if IsProcessStep(step) { assert Knows(start, w.files, w.everBound, w.written, w.processes[step.p]); }
  }

  lemma KnowledgeLasts(start: seq<File>, before: World, after: World, process: Process)
    requires Knows(start, before.files, before.everBound, before.written, process) && Ages(start, before, after)
    ensures Knows(start, after.files, after.everBound, after.written, process)
    ensures Knows(start, after.files, after.everBound, after.written, Unsettled(process))
  {
  }

  lemma ActorKnows(start: seq<File>, w: World, step: Step)
    requires Can(w, step) && IsProcessStep(step) && Files(start, w)
    requires w.entry.Some? ==> w.entry.value < |w.files| && w.entry.value in w.everBound
    requires Knows(start, w.files, w.everBound, w.written, w.processes[step.p])
    ensures var after := Do(w, step); Knows(start, after.files, after.everBound, after.written, after.processes[step.p])
  {
  }

  lemma StepKeepsGenuine(start: seq<File>, w: World, step: Step)
    requires Genuine(start, w) && Can(w, step)
    ensures Genuine(start, Do(w, step))
  {
    var after := Do(w, step);
    FilesLast(start, w, step);
    OthersAfter(w, step);
    forall q | 0 <= q < |w.processes|
      ensures Knows(start, after.files, after.everBound, after.written, after.processes[q])
    {
      if IsProcessStep(step) && q == step.p {
        ActorKnows(start, w, step);
      } else {
        KnowledgeLasts(start, w, after, w.processes[q]);
      }
    }
  }

  lemma {:induction false} RunKeepsGenuine(start: seq<File>, w: World, steps: seq<Step>)
    requires Genuine(start, w) && Legal(w, steps)
    ensures Genuine(start, After(w, steps))
    decreases |steps|
  {
    if steps != [] {
      StepKeepsGenuine(start, w, steps[0]);
      RunKeepsGenuine(start, Do(w, steps[0]), steps[1..]);
    }
  }

  // ---------------------------------------------------------------- where a token comes from

  /** What a process has read was put into its file, cut off behind 65 bytes, unless the file was empty. */
  ghost predicate Sourced(puts: set<(nat, Text)>, process: Process) {
    && (process.HasRead? && process.text != [] ==>
          exists content :: (process.file, content) in puts && ReadFrom(content, process.text))
    && (process.Holds? || process.Emptied? || process.Looked? || process.Consumed? ==>
          |process.text| == Handoff.TOKEN_TEXT_BYTES && (process.file, process.text) in puts)
  }

  /** Every file holds what was last put there or was emptied, and every text read was put there once. */
  ghost predicate AllSourced(w: World) {
    && (forall f :: 0 <= f < |w.files| && w.files[f].content != [] ==> (f, w.files[f].content) in w.puts)
    && (forall q :: 0 <= q < |w.processes| ==> Sourced(w.puts, w.processes[q]))
  }

  lemma FilesStaySourced(w: World, step: Step, f: nat)
    requires Can(w, step) && AllSourced(w) && f < |Do(w, step).files| && Do(w, step).files[f].content != []
    ensures (f, Do(w, step).files[f].content) in Do(w, step).puts
  {
  }

  lemma PutsGrow(w: World, step: Step)
    requires Can(w, step)
    ensures w.puts <= Do(w, step).puts
  {
  }

  lemma SourcedLasts(puts: set<(nat, Text)>, more: set<(nat, Text)>, process: Process)
    requires Sourced(puts, process) && puts <= more
    ensures Sourced(more, process) && Sourced(more, Unsettled(process))
  {
  }

  lemma ActorIsSourced(w: World, step: Step)
    requires Can(w, step) && IsProcessStep(step) && AllSourced(w)
    ensures Sourced(Do(w, step).puts, Do(w, step).processes[step.p])
  {
    assert Sourced(w.puts, w.processes[step.p]);
    PutsGrow(w, step);
    if step.Read? {
      var file := w.processes[step.p].file;
      if w.files[file].content != [] { assert (file, w.files[file].content) in w.puts; }
    }
  }

  lemma StepKeepsSourced(w: World, step: Step)
    requires Can(w, step) && AllSourced(w)
    ensures AllSourced(Do(w, step))
  {
    var after := Do(w, step);
    forall f | 0 <= f < |after.files| && after.files[f].content != [] ensures (f, after.files[f].content) in after.puts {
      FilesStaySourced(w, step, f);
    }
    PutsGrow(w, step);
    OthersAfter(w, step);
    forall q | 0 <= q < |after.processes| ensures Sourced(after.puts, after.processes[q]) {
      if IsProcessStep(step) && q == step.p {
        ActorIsSourced(w, step);
      } else {
        SourcedLasts(w.puts, after.puts, w.processes[q]);
      }
    }
  }

  lemma {:induction false} RunKeepsSourced(w: World, steps: seq<Step>)
    requires AllSourced(w) && Legal(w, steps)
    ensures AllSourced(After(w, steps))
    decreases |steps|
  {
    if steps != [] {
      StepKeepsSourced(w, steps[0]);
      RunKeepsSourced(Do(w, steps[0]), steps[1..]);
    }
  }

  /**
   A token that is returned has 64 bytes, and all of them together were at one moment what its file's
   creation or the last write had put there, be it a file of the start or of the run. Unless the
   environment wrote into its file, one from the start is what the file held then, and the file is now
   empty. A file the name never led to, and the environment did not write to, is as it was.
   */
  lemma TokenIsGenuine(w: World, steps: seq<Step>, p: nat, i: nat)
    requires Start(w) && Legal(w, steps)
    ensures var after := After(w, steps);
            && (p < |after.processes| && after.processes[p].Consumed? ==>
                  var process := after.processes[p];
                  && |process.text| == Handoff.TOKEN_TEXT_BYTES && process.file < |after.files|
                  && (process.file, process.text) in after.puts
                  && (process.file < |w.files| && process.file !in after.written ==>
                        process.text == w.files[process.file].content && after.files[process.file].content == []))
            && (i < |w.files| && i !in after.everBound && i !in after.written ==>
                  i < |after.files| && after.files[i].content == w.files[i].content)
  {
    RunKeepsGenuine(w.files, w, steps);
    RunKeepsSourced(w, steps);
    var after := After(w, steps);
    if p < |after.processes| {
      assert Knows(w.files, after.files, after.everBound, after.written, after.processes[p]);
      assert Sourced(after.puts, after.processes[p]);
    }
  }

  /** What is put into a file is put there by its creation or by a write, and is then all it holds. */
  lemma PutByCreationOrWrite(w: World, step: Step, file: nat, content: Text)
    requires Can(w, step) && (file, content) in Do(w, step).puts && (file, content) !in w.puts
    ensures step.Create? || step.Fresh? || step.Fill? || step.FailWrite? || step.Scribble?
    ensures file < |Do(w, step).files| && Do(w, step).files[file].content == content
    ensures file < |w.files| || step.Create? || step.Fresh?
  {
  }
}
