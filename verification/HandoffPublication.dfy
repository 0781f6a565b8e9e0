/** How many publishers of one report path succeed, and what their reports hold (crates/agent/src/handoff_fs.rs). */
module HandoffPublication {
  import opened Bytes
  import opened HandoffSteps
  import opened HandoffRaces

  function IsPublishing(process: Process): bool { IsPublisher(process) }

  function IsPublished(process: Process): bool { process.Published? }

  /** The publishers that made this file: at most one. */
  function MadeBy(file: nat): Process -> bool { process => IsPublisher(process) && process.file == file }

  /** Publishers have files of their own, and at most as many lost the name as others took it away. */
  predicate Shares(w: World) {
    && (forall q, r :: 0 <= q < r < |w.processes| && IsPublisher(w.processes[q]) && IsPublisher(w.processes[r]) ==>
          w.processes[q].file != w.processes[r].file)
    && Count(w.processes, IsPublishing) <= w.taken + (if w.entry.Some? then Count(w.processes, MadeBy(w.entry.value)) else 0)
  }

  lemma MakersDiffer(w: World, step: Step)
    requires Can(w, step) && Numbered(w) && Shares(w)
    ensures var after := Do(w, step);
            forall q, r :: 0 <= q < r < |after.processes| && IsPublisher(after.processes[q]) && IsPublisher(after.processes[r]) ==>
              after.processes[q].file != after.processes[r].file
  {
    var after := Do(w, step);
    forall q, r | 0 <= q < r < |after.processes| && IsPublisher(after.processes[q]) && IsPublisher(after.processes[r])
      ensures after.processes[q].file != after.processes[r].file
    {
      if !(step.Create? && step.p == q) { PublisherBefore(w, step, q); }
      if !(step.Create? && step.p == r) { PublisherBefore(w, step, r); }
      if step.Create? { assert after.processes[step.p].file == |w.files|; }
    }
  }

  lemma OneMaker(w: World, file: nat)
    requires Shares(w)
    ensures Count(w.processes, MadeBy(file)) <= 1
  {
    var which := MadeBy(file);
    CountAtMostOne(w.processes, which);
  }

  /** The name is taken away by somebody other than a failed publisher. */
  predicate TakesName(w: World, step: Step)
    requires Can(w, step)
  {
    w.entry.Some? && (step.Rebind? || (step.Unlink? && w.processes[step.p].Looked?))
  }

  lemma TakenAfter(w: World, step: Step)
    requires Can(w, step)
    ensures Do(w, step).taken == w.taken + One(TakesName(w, step))
    ensures !TakesName(w, step) && !step.Create? && !step.Unlink? && !step.Rebind? ==> Do(w, step).entry == w.entry
  {
  }

  /** The maker of the file the name leads to, before and after a process acts. */
  lemma StillShares(w: World, step: Step)
    requires Can(w, step) && Shares(w) && !step.Create? && !TakesName(w, step) && !step.Rebind?
    ensures var after := Do(w, step);
            Count(after.processes, IsPublishing) <=
            after.taken + (if after.entry.Some? then Count(after.processes, MadeBy(after.entry.value)) else 0)
  {
    var after := Do(w, step);
    TakenAfter(w, step);
    CountAfterStep(w, step, IsPublishing);
    if w.entry.Some? {
      var which := MadeBy(w.entry.value);
      OneMaker(w, w.entry.value);
      CountAfterStep(w, step, which);
    }
  }

  lemma CreateShares(w: World, step: Step)
    requires Can(w, step) && Shares(w) && step.Create?
    ensures var after := Do(w, step);
            after.entry.Some? && Count(after.processes, IsPublishing) <= after.taken + Count(after.processes, MadeBy(after.entry.value))
  {
    var after := Do(w, step);
    CountAfterStep(w, step, IsPublishing);
    CountSeesOne(after.processes, MadeBy(after.entry.value), step.p);
  }

  lemma StepKeepsShares(w: World, step: Step)
    requires Can(w, step) && Numbered(w) && Shares(w)
    ensures Shares(Do(w, step))
  {
    MakersDiffer(w, step);
    if step.Create? {
      CreateShares(w, step);
    } else if TakesName(w, step) || step.Rebind? {
      TakenAfter(w, step);
      CountAfterStep(w, step, IsPublishing);
      if w.entry.Some? { OneMaker(w, w.entry.value); }
    } else {
      StillShares(w, step);
    }
  }

  lemma {:induction false} RunKeepsShares(w: World, steps: seq<Step>)
    requires Numbered(w) && Shares(w) && Legal(w, steps)
    ensures Numbered(After(w, steps)) && Shares(After(w, steps))
    decreases |steps|
  {
    if steps != [] {
      StepKeepsNumbered(w, steps[0]);
      StepKeepsShares(w, steps[0]);
      RunKeepsShares(Do(w, steps[0]), steps[1..]);
    }
  }

  lemma NoSharesYet(w: World)
    requires Start(w)
    ensures Numbered(w) && Shares(w)
  {
    CountNone(w.processes, IsPublishing);
  }

  /** How often somebody other than a failed publisher takes the name away during a run. */
  function Takes(w: World, steps: seq<Step>): nat
    requires Legal(w, steps)
    decreases |steps|
  {
    if steps == [] then 0 else One(TakesName(w, steps[0])) + Takes(Do(w, steps[0]), steps[1..])
  }

  lemma {:induction false} TakesCounted(w: World, steps: seq<Step>)
    requires Legal(w, steps)
    ensures After(w, steps).taken == w.taken + Takes(w, steps)
    decreases |steps|
  {
    if steps != [] {
      TakenAfter(w, steps[0]);
      TakesCounted(Do(w, steps[0]), steps[1..]);
    }
  }

  /**
   With renames, removals and consumers allowed: no more publishers succeed than one plus the times
   somebody else took the name away.
   */
  lemma PublishedBound(w: World, steps: seq<Step>)
    requires Start(w) && Legal(w, steps)
    ensures Count(After(w, steps).processes, IsPublished) <= 1 + Takes(w, steps)
  {
    NoSharesYet(w);
    RunKeepsShares(w, steps);
    TakesCounted(w, steps);
    var after := After(w, steps);
    CountIsMonotone(after.processes, IsPublished, IsPublishing);
    if after.entry.Some? { OneMaker(after, after.entry.value); }
  }

  /** A report that was written is there, and a confirmed one is all there is. */
  predicate ReportsWhole(files: seq<File>, report: Text, process: Process) {
    process.Filled? || process.Published? ==>
      && process.file < |files| && report <= files[process.file].content
      && (process.Published? ==> files[process.file].content == report)
  }

  /** So it stays, unless the environment writes into it or a consumer empties it. */
  predicate Reported(w: World) {
    forall q :: 0 <= q < |w.processes| && HasFile(w.processes[q]) && w.processes[q].file !in w.written + w.emptied ==>
      ReportsWhole(w.files, w.report, w.processes[q])
  }

  /** The only file whose content a step changes without a mark is the actor's own report. */
  lemma ContentLasts(w: World, step: Step, file: nat)
    requires Can(w, step) && file < |w.files| && file !in Do(w, step).written + Do(w, step).emptied
    requires !(IsProcessStep(step) && IsPublisher(w.processes[step.p]) && w.processes[step.p].file == file)
    ensures file < |Do(w, step).files| && Do(w, step).files[file] == w.files[file] && file !in w.written + w.emptied
  {
  }

  lemma ActorReports(w: World, step: Step)
    requires Can(w, step) && IsProcessStep(step) && HasFile(Do(w, step).processes[step.p])
    requires Do(w, step).processes[step.p].file !in w.written + w.emptied
    requires HasFile(w.processes[step.p]) ==> ReportsWhole(w.files, w.report, w.processes[step.p])
    ensures ReportsWhole(Do(w, step).files, Do(w, step).report, Do(w, step).processes[step.p])
  {
  }

  lemma OtherReports(w: World, step: Step, q: nat)
    requires Can(w, step) && Numbered(w) && Shares(w) && Reported(w) && q < |w.processes|
    requires !(IsProcessStep(step) && q == step.p) && IsPublisher(Do(w, step).processes[q])
    requires Do(w, step).processes[q].file !in Do(w, step).written + Do(w, step).emptied
    ensures ReportsWhole(Do(w, step).files, Do(w, step).report, Do(w, step).processes[q])
  {
    PublisherBefore(w, step, q);
    OthersAfter(w, step);
    ContentLasts(w, step, w.processes[q].file);
  }

  lemma StepKeepsReported(w: World, step: Step)
    requires Can(w, step) && Numbered(w) && Shares(w) && Reported(w)
    ensures Reported(Do(w, step))
  {
    var after := Do(w, step);
    forall q | 0 <= q < |after.processes| && HasFile(after.processes[q]) && after.processes[q].file !in after.written + after.emptied
      ensures ReportsWhole(after.files, after.report, after.processes[q])
    {
      if IsProcessStep(step) && q == step.p {
        ActorReports(w, step);
      } else if IsPublisher(after.processes[q]) {
        OtherReports(w, step, q);
      }
    }
  }

  lemma {:induction false} RunKeepsReported(w: World, steps: seq<Step>)
    requires Numbered(w) && Shares(w) && Reported(w) && Legal(w, steps)
    ensures Reported(After(w, steps))
    decreases |steps|
  {
    if steps != [] {
      StepKeepsNumbered(w, steps[0]);
      StepKeepsShares(w, steps[0]);
      StepKeepsReported(w, steps[0]);
      RunKeepsReported(Do(w, steps[0]), steps[1..]);
    }
  }

  /** A report that was published is in its file, whole, unless the environment wrote there or a consumer emptied it. */
  lemma PublishedIsWhole(w: World, steps: seq<Step>, p: nat)
    requires Start(w) && Legal(w, steps)
    requires p < |After(w, steps).processes| && After(w, steps).processes[p].Published?
    ensures var after := After(w, steps);
            after.processes[p].file !in after.written + after.emptied ==>
              after.processes[p].file < |after.files| && after.files[after.processes[p].file].content == after.report
  {
    NoSharesYet(w);
    RunKeepsReported(w, steps);
  }

  lemma {:induction false} CountFinds(processes: seq<Process>, which: Process -> bool) returns (q: nat)
    requires Count(processes, which) >= 1
    ensures q < |processes| && which(processes[q])
  {
    q := |processes| - 1;
    if !which(processes[q]) { q := CountFinds(processes[..q], which); }
  }

  /**
   As long as nobody else takes the name away, at most one of any number of publishers succeeds, and
   the name leads to its report.
   */
  lemma ExclusivePublication(w: World, steps: seq<Step>, p: nat, q: nat)
    requires Start(w) && Legal(w, steps) && Takes(w, steps) == 0
    requires p < |After(w, steps).processes| && After(w, steps).processes[p].Published?
    ensures var after := After(w, steps);
            && (q < |after.processes| && after.processes[q].Published? ==> p == q)
            && after.entry == Some(after.processes[p].file)
  {
    NoSharesYet(w);
    RunKeepsShares(w, steps);
    TakesCounted(w, steps);
    var after := After(w, steps);
    CountSeesOne(after.processes, IsPublishing, p);
    OneMaker(after, after.entry.value);
    var maker := CountFinds(after.processes, MadeBy(after.entry.value));
    if maker != p {
      if maker < p { CountSeesTwo(after.processes, IsPublishing, maker, p); } else { CountSeesTwo(after.processes, IsPublishing, p, maker); }
    }
    if q < |after.processes| && after.processes[q].Published? && q != p {
      if q < p { CountSeesTwo(after.processes, IsPublishing, q, p); } else { CountSeesTwo(after.processes, IsPublishing, p, q); }
    }
  }
}
