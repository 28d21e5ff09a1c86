/** What a worker does with its task, step by step: it is paused only when asked, keeps its
    slot until the work function returns, ends a task that is cancelled while it waits, and
    is gone soon after the task is finished. */
module BackupWorkers {
  import opened BackupTasks
  import opened BackupEngine
  import opened BackupCascade
  import opened BackupProtocol
  import opened BackupDependencies
  import opened BackupLifecycle
  import opened BackupUntouched

  // ------------------------------------------------------------------- pausing

  predicate Pausing(pc: WorkerPc) {
    pc.AtPauseMark? || pc.AtPauseWait? || pc.AtResumeCheck? || pc.AtResumeMark?
  }

  /** No task is paused or asked to be, no worker is on its way to pause one. */
  ghost predicate Unpaused(s: Sys) {
    && (forall x :: x in s.core.items ==> Moving(s.core.items[x]))
    && (forall w :: w in s.workers ==> !Pausing(s.workers[w]))
  }

  predicate Moving(it: Item) {
    !it.gatePaused && !it.state.Paused?
  }

  lemma EvolvedMoving(a: Items, b: Items)
    requires AllEvolved(a, b) && forall x :: x in a ==> Moving(a[x])
    requires forall x :: x in b && b[x].finished && !a[x].finished ==> b[x].state.Terminal()
    ensures forall x :: x in b ==> Moving(b[x])
  {
    forall x | x in b ensures Moving(b[x]) { assert Evolved(a[x], b[x]) && Moving(a[x]); }
  }

  lemma UnpausedStep(s: Sys, step: Step)
    requires SafeState(s) && Unpaused(s) && Enabled(s, step) && !step.Pause?
    ensures Unpaused(Apply(s, step))
  {
    StepKeeps(s, step);
    if step.Worker? {
      WorkerMoves(s, step.w, step.choice);
    } else if step.Submit? {
      SubmitMoves(s.core, step.t);
    } else if step.Pass? || step.Retry? || step.Resume? {
      UpdateMoves(s, step);
    } else {
      OtherMoves(s, step);
    }
  }

  lemma UpdateMoves(s: Sys, step: Step)
    requires Unpaused(s) && Enabled(s, step) && (step.Pass? || step.Retry? || step.Resume?)
    ensures Unpaused(Apply(s, step))
  {
    if step.Pass? {
      forall w | w in Apply(s, Pass).workers ensures !Pausing(Apply(s, Pass).workers[w]) {
        if w !in Launched(s.core.items) { assert w in s.workers; }
      }
    }
  }

  lemma OtherMoves(s: Sys, step: Step)
    requires Unpaused(s) && Enabled(s, step) && SafeState(Apply(s, step))
    requires !step.Worker? && !step.Submit? && !step.Pass? && !step.Retry? && !step.Pause? && !step.Resume?
    ensures Unpaused(Apply(s, step))
  {
    var t := Apply(s, step);
    forall x | x in t.core.items ensures TaskOk(t.core.items, x) {}
    StepEvolves(s, step);
    EvolvedMoving(s.core.items, t.core.items);
    OtherSlots(s, step);
  }

  lemma WorkerMoves(s: Sys, w: WorkerId, choice: Choice)
    requires SafeState(s) && Unpaused(s) && Enabled(s, Worker(w, choice))
    ensures Unpaused(WorkerApply(s, w, choice))
  {
    var pc := s.workers[w];
    assert Moving(s.core.items[w.0]) && WorkerOk(s.core.items, w, pc);
    CoreMoves(s.core, w, pc);
    NextMoves(s.core.items[w.0], w.1, pc, choice);
  }

  lemma NextMoves(it: Item, gen: nat, pc: WorkerPc, choice: Choice)
    requires Moving(it) && !Pausing(pc)
    ensures !Pausing(NextPc(it, gen, pc, choice))
  {
  }

  lemma CoreMoves(c: Core, w: WorkerId, pc: WorkerPc)
    requires TasksOk(c.items) && WorkerOk(c.items, w, pc) && !Pausing(pc) && forall x :: x in c.items ==> Moving(c.items[x])
    ensures forall x :: x in WorkerCore(c, w.0, w.1, pc).items ==> Moving(WorkerCore(c, w.0, w.1, pc).items[x])
  {
    if pc.AtFinalize? {
      var after := FinalizeLocked(c.items, w.0, pc.st, pc.err);
      FinalizeKeeps(c.items, w.0, pc.st, pc.err);
      forall x | x in after ensures TaskOk(after, x) {}
      EvolvedMoving(c.items, after);
    }
  }

  lemma SubmitMoves(c: Core, t: Task)
    requires TasksOk(c.items) && TasksOk(SubmitCore(c, t).items) && forall x :: x in c.items ==> Moving(c.items[x])
    ensures forall x :: x in SubmitCore(c, t).items ==> Moving(SubmitCore(c, t).items[x])
  {
    if SubmitVerdict(c, t).Accepted? {
      var g := Register(Registration(c.items, 0, NoError), t.id, t.dependsOn);
      RegisterOk(c.items, t.id, t.dependsOn);
      var added := g.items[t.id := NewItem(t, g)];
      forall x | x in added ensures Moving(added[x]) {
        if x != t.id { assert SameTask(c.items[x], g.items[x]) && Moving(c.items[x]); }
      }
      if !g.depErr.NoError? {
        var after := FinalizeLocked(added, t.id, Failed, g.depErr);
        forall x | x in after ensures TaskOk(after, x) {}
        EvolvedMoving(added, after);
      }
    }
  }

  ghost predicate NoPause(steps: seq<Step>) {
    forall i :: 0 <= i < |steps| ==> !steps[i].Pause?
  }

  lemma {:induction false} RunUnpaused(s: Sys, steps: seq<Step>)
    requires SafeState(s) && Unpaused(s) && IsRun(s, steps) && NoPause(steps)
    ensures Unpaused(After(s, steps))
    decreases |steps|
  {
    if steps != [] {
      UnpausedStep(s, steps[0]);
      StepKeeps(s, steps[0]);
      RunUnpaused(Apply(s, steps[0]), steps[1..]);
    }
  }

  /** A task is never Paused in a run in which nobody asks for it. */
  lemma {:induction false} NeverPausedUnasked(capacity: nat, steps: seq<Step>, x: Id)
    requires IsRun(Init(capacity), steps) && NoPause(steps) && x in After(Init(capacity), steps).core.items
    ensures !After(Init(capacity), steps).core.items[x].state.Paused?
  {
    RunUnpaused(Init(capacity), steps);
    assert Moving(After(Init(capacity), steps).core.items[x]);
  }

  /** A resumed worker is about to mark its task Running only if the task is not finished. */
  lemma ResumeMarksOpen(s: Sys, w: WorkerId, choice: Choice)
    requires Enabled(s, Worker(w, choice)) && w in Apply(s, Worker(w, choice)).workers
    ensures Apply(s, Worker(w, choice)).workers[w].AtResumeMark? ==> !s.core.items[w.0].finished
  {
  }

  // --------------------------------------------------------------------- slots

  /** A worker inside the work function, paused there or not, stays inside and keeps its
      slot until the function returns. */
  lemma KeepsSlot(s: Sys, w: WorkerId, choice: Choice)
    requires Enabled(s, Worker(w, choice)) && HoldsSlot(s.workers[w]) && !s.workers[w].AtAttempt?
    ensures var t := Apply(s, Worker(w, choice));
      w in t.workers && (HoldsSlot(t.workers[w]) <==> !(s.workers[w].AtWork? && choice.Return?))
  {
  }

  // ---------------------------------------------------------------- cancelling

  /** The points at which a worker waits outside the work function: for a resume, for a
      slot, for the next attempt. */
  predicate Waits(pc: WorkerPc) {
    pc == AtPauseWait(ToTop) || pc.AtAcquire? || pc.AtBackoff?
  }

  /** Cancelled there, it goes to the test of the generation, ... */
  lemma AbortsTo(s: Sys, w: WorkerId)
    requires Enabled(s, Worker(w, Abort)) && Waits(s.workers[w])
    ensures var t := Apply(s, Worker(w, Abort));
      t.core == s.core && w in t.workers && t.workers[w] == AtCancelCheck
  {
  }

  /** ... from there, if the task is still its own, to finalizing it, ... */
  lemma CancelTests(s: Sys, w: WorkerId, choice: Choice)
    requires Enabled(s, Worker(w, choice)) && s.workers[w].AtCancelCheck?
    ensures var t := Apply(s, Worker(w, choice));
      && t.core == s.core && w in t.workers
      && t.workers[w] == if w.1 != s.core.items[w.0].generation then AtExit else AtFinalize(Cancelled, ErrCancelled)
  {
  }

  /** ... and ends it as Cancelled. */
  lemma {:induction false} CancelEnds(s: Sys, w: WorkerId, choice: Choice)
    requires Enabled(s, Worker(w, choice)) && s.workers[w] == AtFinalize(Cancelled, ErrCancelled)
    requires !s.core.items[w.0].finished
    ensures w.0 in Apply(s, Worker(w, choice)).core.items
    ensures var it := Apply(s, Worker(w, choice)).core.items[w.0];
      it.finished && it.state == TaskState.Cancelled && it.err == ErrCancelled
  {
    FinalizeRoot(s.core.items, w.0, Cancelled, ErrCancelled);
  }

  // ------------------------------------------------------------------- leaving

  /** How many sections of its own are left to a worker that is out of the work function
      when its task is finished; none is left that would call it again. */
  function Left(pc: WorkerPc): nat {
    match pc
    case AtExit => 1
    case AtTop => 2
    case AtFinalize(_, _) => 2
    case AtReturnFinished(_, _) => 2
    case AtCancelCheck => 3
    case AtReturnCheck(_, _) => 3
    case AtBackoff => 4
    case AtRetryMark => 5
    case _ => 0
  }

  predicate Out(pc: WorkerPc) {
    Left(pc) > 0
  }

  /** The task is finished and the worker is gone, or out with at most `k` sections left. */
  predicate Going(s: Sys, w: WorkerId, k: nat) {
    w.0 in s.core.items && s.core.items[w.0].finished && (w in s.workers ==> Out(s.workers[w]) && Left(s.workers[w]) <= k)
  }

  /** The sections of `w` in a run. */
  function Sections(steps: seq<Step>, w: WorkerId): nat {
    if steps == [] then 0 else (if steps[0].Worker? && steps[0].w == w then 1 else 0) + Sections(steps[1..], w)
  }

  ghost predicate NoRetry(steps: seq<Step>, x: Id) {
    forall i :: 0 <= i < |steps| ==> steps[i] != Retry(x)
  }

  lemma GoingStep(s: Sys, step: Step, w: WorkerId, k: nat)
    requires SafeState(s) && Enabled(s, step) && Going(s, w, k) && step != Retry(w.0)
    requires w.1 <= s.core.items[w.0].generation
    ensures var own := step.Worker? && step.w == w;
      && (own ==> k > 0) && Going(Apply(s, step), w, if own then k - 1 else k)
      && w.1 <= Apply(s, step).core.items[w.0].generation
      && (own ==> Apply(s, step).core.items[w.0].attempt == s.core.items[w.0].attempt)
  {
    StepAdvances(s, step);
    StepFinished(s, step, w.0);
    if step.Pass? { assert w !in Launched(s.core.items); }
    if !step.Worker? && !step.Pass? { OtherSlots(s, step); }
    if step.Worker? && step.w == w { OwnLeft(s, w, step.choice); }
  }

  lemma OwnLeft(s: Sys, w: WorkerId, choice: Choice)
    requires Enabled(s, Worker(w, choice)) && s.core.items[w.0].finished && Out(s.workers[w])
    ensures var t := Apply(s, Worker(w, choice));
      && (w in t.workers ==> Out(t.workers[w]) && Left(t.workers[w]) < Left(s.workers[w]))
      && w.0 in t.core.items && t.core.items[w.0].attempt == s.core.items[w.0].attempt
  {
  }

  /** A finished task stays finished unless it is retried. */
  lemma StepFinished(s: Sys, step: Step, x: Id)
    requires Enabled(s, step) && x in s.core.items && s.core.items[x].finished && step != Retry(x)
    ensures x in Apply(s, step).core.items && Apply(s, step).core.items[x].finished
  {
    StepAdvances(s, step);
    if step.Submit? {
      SubmitGenerations(s.core, step.t);
    } else if step.Worker? {
      WorkerGenerations(s.core, step.w, s.workers[step.w]);
    } else if !step.Pass? && !step.Retry? {
      StepGenerations(s, step);
    }
  }

  lemma {:induction false} GoingRun(s: Sys, steps: seq<Step>, w: WorkerId, k: nat)
    requires SafeState(s) && IsRun(s, steps) && NoRetry(steps, w.0) && Going(s, w, k)
    requires w.1 <= s.core.items[w.0].generation
    ensures Sections(steps, w) <= k && Going(After(s, steps), w, k - Sections(steps, w))
    decreases |steps|
  {
    if steps != [] {
      StepKeeps(s, steps[0]);
      GoingStep(s, steps[0], w, k);
      GoingRun(Apply(s, steps[0]), steps[1..], w, if steps[0].Worker? && steps[0].w == w then k - 1 else k);
    }
  }

  /** Once its task is finished, a worker that is out of the work function takes at most
      five more sections in any continuation that does not retry the task, and is gone
      after the last. */
  lemma {:induction false} FinishedLeaves(capacity: nat, steps: seq<Step>, later: seq<Step>, w: WorkerId)
    requires IsRun(Init(capacity), steps) && IsRun(After(Init(capacity), steps), later) && NoRetry(later, w.0)
    requires var s := After(Init(capacity), steps);
      w in s.workers && w.0 in s.core.items && s.core.items[w.0].finished && Out(s.workers[w])
    ensures var s, t := After(Init(capacity), steps), After(After(Init(capacity), steps), later);
      && Sections(later, w) <= Left(s.workers[w]) <= 5
      && (Sections(later, w) == Left(s.workers[w]) ==> w !in t.workers)
  {
    var s := After(Init(capacity), steps);
    RunSafe(Init(capacity), steps);
    assert WorkerOk(s.core.items, w, s.workers[w]);
    GoingRun(s, later, w, Left(s.workers[w]));
  }

  // ---------------------------------------------------------- watchers, shutdown

  /** A watcher's verdict on an earlier run changes nothing; on the present one it fails the
      task, or cancels it as a client would. */
  lemma WatchersExact(s: Sys, x: Id, gen: nat)
    requires x in s.core.items
    ensures gen != s.core.items[x].generation ==>
      Apply(s, WatcherFail(x, gen)) == s && Apply(s, WatcherCancel(x, gen)) == s
    ensures gen == s.core.items[x].generation ==> Apply(s, WatcherCancel(x, gen)) == Apply(s, Cancel(x))
    ensures gen == s.core.items[x].generation && !s.core.items[x].finished ==>
      var it := Apply(s, WatcherFail(x, gen)).core.items[x]; it.finished && it.state == TaskState.Failed && it.err == TaskError
  {
  }

  /** Shutdown closes the engine once; a started one is told to stop and drained, one that
      was never started is done at once. */
  lemma ShutdownExact(s: Sys)
    ensures s.core.closed ==> Apply(s, Shutdown) == s
    ensures !s.core.closed ==>
      var t := Apply(s, Shutdown);
      && t.core == s.core.(closed := true) && t.workers == s.workers && t.sched == s.sched
      && (s.core.started ==> t.stop && t.shut == Draining) && (!s.core.started ==> !t.stop && t.shut == Returned)
  {
  }
}
