/** Ownership of tasks by workers, and what follows from it: a task is never run
    by two workers, no wake-up is lost, and a Shutdown that returns leaves every
    task ever accepted in a terminal state for good.

    The runs are those in which a manual Retry meets the worker of the previous run, if
    it is still there, only after it has left the work function, as the engine assumes.
    `BackupStaleWorker` proves that no weaker condition on where it stands would do. */
module BackupLifecycle {
  import opened BackupTasks
  import opened BackupEngine
  import opened BackupProtocol
  import opened BackupDependencies

  ghost predicate AllFinished(items: Items) {
    forall x :: x in items ==> items[x].finished
  }

  /** How the engine flags, the scheduler and Shutdown move together. */
  predicate ControlOk(s: Sys) {
    && (s.sched.AtSchedulerExit? || s.sched.SchedulerDone? ==> s.stop)
    && (s.stop || !s.shut.NotCalled? ==> s.core.closed)
    && (!s.core.closed ==> (s.core.started <==> !s.sched.NotStarted?))
    && (s.core.items != map[] ==> !s.sched.NotStarted?)
    && (!s.sched.NotStarted? ==> s.core.wakeMade)
  }

  /** A worker owns its task; an unfinished task has its owner at work, or is left
      to a scheduler that still runs. */
  predicate TaskOwned(s: Sys, x: Id)
    requires x in s.core.items
  {
    var it := s.core.items[x];
    it.finished ||
      if it.inFlight then (x, it.generation) in s.workers
      else (it.state.Pending? || it.state.Waiting?) && !s.sched.SchedulerDone?
  }

  predicate WorkerOwns(s: Sys, w: WorkerId) {
    w.0 in s.core.items && s.core.items[w.0].inFlight && w.1 == s.core.items[w.0].generation
  }

  /** A worker that a retry has left behind is on its way out. */
  predicate LeftBehind(s: Sys, w: WorkerId)
    requires w in s.workers
  {
    w.0 in s.core.items && w.1 < s.core.items[w.0].generation && Leaving(s.workers[w])
  }

  predicate WorkerPlaced(s: Sys, w: WorkerId)
    requires w in s.workers
  {
    WorkerOwns(s, w) || LeftBehind(s, w)
  }

  ghost predicate Owned(s: Sys) {
    && (forall x {:trigger TaskOwned(s, x)} :: x in s.core.items ==> TaskOwned(s, x))
    && (forall w {:trigger WorkerPlaced(s, w)} :: w in s.workers ==> WorkerPlaced(s, w))
  }

  /** No lost wake-up: while the scheduler sleeps, a ready task has a token waiting. */
  ghost predicate Awake(s: Sys) {
    s.sched.AtSelect? && !s.stop && !s.core.wake ==>
      forall x :: x in s.core.items ==> !Ready(s.core.items[x])
  }

  ghost predicate Final(s: Sys) {
    s.shut.Returned? ==> AllFinished(s.core.items)
  }

  ghost predicate LiveState(s: Sys) {
    ControlOk(s) && Owned(s) && Awake(s) && Final(s)
  }

  // --------------------------------------------------------------- one record

  /** A change of a record that ownership does not notice. */
  predicate Kept(a: Item, b: Item) {
    && b.inFlight == a.inFlight && b.generation == a.generation
    && (b.finished || (!a.finished && (b.state == a.state || a.inFlight || (Idle(a.state) && Idle(b.state)))))
  }

  predicate Idle(st: TaskState) {
    st.Pending? || st.Waiting?
  }

  ghost predicate AllKept(before: Items, after: Items) {
    after.Keys == before.Keys && forall x :: x in before ==> Kept(before[x], after[x])
  }

  lemma EvolvedKept(before: Items, after: Items)
    requires AllEvolved(before, after)
    ensures AllKept(before, after)
  {
  }

  lemma KeptOwned(s: Sys, core: Core)
    requires Owned(s) && AllKept(s.core.items, core.items)
    ensures Owned(s.(core := core))
  {
    var t := s.(core := core);
    forall x | x in core.items ensures TaskOwned(t, x) {
      assert TaskOwned(s, x) && Kept(s.core.items[x], core.items[x]);
    }
    forall w | w in t.workers ensures WorkerPlaced(t, w) {
      assert WorkerPlaced(s, w) && Kept(s.core.items[w.0], core.items[w.0]);
    }
  }

  /** A section that makes no task ready keeps the scheduler's sleep justified. */
  lemma KeptAwake(s: Sys, core: Core)
    requires Awake(s) && core.items.Keys == s.core.items.Keys
    requires core.wake || (s.core.wake == core.wake
      && forall x :: x in core.items && Ready(core.items[x]) ==> Ready(s.core.items[x]))
    ensures Awake(s.(core := core))
  {
  }

  lemma FinishedStays(s: Sys, core: Core)
    requires Final(s) && AllKept(s.core.items, core.items)
    ensures Final(s.(core := core))
  {
  }

  // ---------------------------------------------------- finishing and updating

  /** Sections that only finish tasks, waking the scheduler if they finish any. */
  lemma FinalizeStep(s: Sys, id: Id, st: TaskState, err: Error)
    requires LiveState(s) && id in s.core.items
    ensures var t := s.(core := FinalizeCore(s.core, id, st, err));
      LiveState(t)
  {
    var core := FinalizeCore(s.core, id, st, err);
    EvolvedKept(s.core.items, FinalizeLocked(s.core.items, id, st, err));
    if !s.core.items[id].finished {
      KeptOwned(s, core);
      KeptAwake(s, core);
      FinishedStays(s, core);
      SameKeysControl(s, core);
    }
  }

  lemma SameKeysControl(s: Sys, core: Core)
    requires ControlOk(s) && core.items.Keys == s.core.items.Keys
    requires core.started == s.core.started && core.closed == s.core.closed && core.wakeMade == s.core.wakeMade
    ensures ControlOk(s.(core := core))
  {
  }

  lemma CancelStep(s: Sys, id: Id)
    requires LiveState(s) && id in s.core.items
    ensures var t := s.(core := CancelCore(s.core, id));
      LiveState(t)
  {
    FinalizeStep(s, id, Cancelled, ErrCancelled);
    WakeStep(s);
    WakeStep(s.(core := FinalizeCore(s.core, id, Cancelled, ErrCancelled)));
  }

  lemma WakeStep(s: Sys)
    requires LiveState(s)
    ensures var t := s.(core := Wake(s.core)); LiveState(t)
  {
    assert AllKept(s.core.items, s.core.items);
    KeptOwned(s, Wake(s.core));
  }

  /** Replacing one record by a kept one that is not newly ready. */
  lemma UpdateStep(s: Sys, x: Id, it: Item)
    requires LiveState(s) && x in s.core.items
    requires Kept(s.core.items[x], it) && (Ready(it) ==> Ready(s.core.items[x]))
    ensures var t := s.(core := s.core.(items := s.core.items[x := it]));
      LiveState(t)
  {
    var core := s.core.(items := s.core.items[x := it]);
    assert AllKept(s.core.items, core.items);
    KeptOwned(s, core);
    KeptAwake(s, core);
    FinishedStays(s, core);
    SameKeysControl(s, core);
  }

  // ------------------------------------------------------------------ workers

  lemma WorkerStep(s: Sys, w: WorkerId, choice: Choice)
    requires SafeState(s) && LiveState(s) && Enabled(s, Worker(w, choice))
    ensures LiveState(WorkerApply(s, w, choice))
  {
    assert WorkerOk(s.core.items, w, s.workers[w]) && WorkerPlaced(s, w);
    if WorkerOwns(s, w) {
      OwnerStep(s, w, choice);
    } else {
      LeavingStep(s, w, choice);
    }
  }

  lemma OwnerStep(s: Sys, w: WorkerId, choice: Choice)
    requires LiveState(s) && Enabled(s, Worker(w, choice)) && WorkerOwns(s, w)
    requires WorkerOk(s.core.items, w, s.workers[w])
    ensures LiveState(WorkerApply(s, w, choice))
  {
    var pc, after := s.workers[w], WorkerApply(s, w, choice);
    var mid := s.(core := WorkerCore(s.core, w.0, w.1, pc));
    if pc.AtExit? {
      WorkerExitStep(s, w);
      assert after == mid.(workers := s.workers - {w});
    } else {
      WorkerCoreStep(s, w, pc);
      MovePc(mid, after, w, NextPc(s.core.items[w.0], w.1, pc, choice));
    }
  }

  /** So does a step of a worker left behind: all it may still do to the task is finish it
      or mark it Waiting. */
  lemma LeavingStep(s: Sys, w: WorkerId, choice: Choice)
    requires LiveState(s) && Enabled(s, Worker(w, choice)) && LeftBehind(s, w)
    ensures LiveState(WorkerApply(s, w, choice))
  {
    var pc, after := s.workers[w], WorkerApply(s, w, choice);
    var mid := s.(core := WorkerCore(s.core, w.0, w.1, pc));
    if pc.AtExit? {
      assert after == s.(workers := s.workers - {w});
      GoneStep(s, w);
    } else {
      LeavingCore(s, w, pc);
      MovePc(mid, after, w, NextPc(s.core.items[w.0], w.1, pc, choice));
    }
  }

  lemma LeavingCore(s: Sys, w: WorkerId, pc: WorkerPc)
    requires LiveState(s) && w.0 in s.core.items && Leaving(pc) && !pc.AtExit?
    ensures LiveState(s.(core := WorkerCore(s.core, w.0, w.1, pc)))
  {
    if pc.AtRetryMark? {
      WaitingStep(s, w.0);
    } else if pc.AtFinalize? {
      FinalizeStep(s, w.0, pc.st, pc.err);
      assert WorkerCore(s.core, w.0, w.1, pc) == FinalizeCore(s.core, w.0, pc.st, pc.err);
    } else {
      assert s.(core := WorkerCore(s.core, w.0, w.1, pc)) == s;
    }
  }

  /** Marking an unfinished task Waiting makes nothing ready, owned or not. */
  lemma WaitingStep(s: Sys, id: Id)
    requires LiveState(s) && id in s.core.items
    ensures LiveState(s.(core := TransitionCore(s.core, id, Waiting)))
  {
    if !s.core.items[id].finished && s.core.items[id].state != Waiting {
      assert TaskOwned(s, id);
      UpdateStep(s, id, s.core.items[id].(state := Waiting));
    }
  }

  lemma GoneStep(s: Sys, w: WorkerId)
    requires LiveState(s) && w in s.workers && LeftBehind(s, w)
    ensures LiveState(s.(workers := s.workers - {w}))
  {
    var after := s.(workers := s.workers - {w});
    forall x | x in after.core.items ensures TaskOwned(after, x) {
      assert TaskOwned(s, x);
    }
    forall v | v in after.workers ensures WorkerPlaced(after, v) {
      assert WorkerPlaced(s, v);
    }
  }

  /** Where an owner stands does not matter to ownership. */
  lemma MovePc(s: Sys, after: Sys, w: WorkerId, pc: WorkerPc)
    requires LiveState(s) && w in s.workers && (WorkerOwns(s, w) || Leaving(pc))
    requires after == s.(workers := s.workers[w := pc], slots := after.slots)
    ensures LiveState(after)
  {
    forall x | x in after.core.items ensures TaskOwned(after, x) {
      assert TaskOwned(s, x);
    }
    forall v | v in after.workers ensures WorkerPlaced(after, v) {
      assert WorkerPlaced(s, v);
    }
  }

  lemma WorkerCoreStep(s: Sys, w: WorkerId, pc: WorkerPc)
    requires LiveState(s) && w in s.workers && WorkerOwns(s, w) && !pc.AtExit?
    ensures LiveState(s.(core := WorkerCore(s.core, w.0, w.1, pc)))
  {
    var id := w.0;
    var it := s.core.items[id];
    var core := WorkerCore(s.core, id, w.1, pc);
    if Marks(pc) {
      TransitionStep(s, id, MarkOf(pc));
      assert core == TransitionCore(s.core, id, MarkOf(pc));
    } else if pc.AtAttempt? {
      UpdateStep(s, id, it.(attempt := it.attempt + 1));
    } else if pc.AtFinalize? {
      FinalizeStep(s, id, pc.st, pc.err);
      assert core == FinalizeCore(s.core, id, pc.st, pc.err);
    } else {
      assert core == s.core && s.(core := core) == s;
    }
  }

  lemma TransitionStep(s: Sys, id: Id, st: TaskState)
    requires LiveState(s) && id in s.core.items && s.core.items[id].inFlight
    ensures LiveState(s.(core := TransitionCore(s.core, id, st)))
  {
    if !s.core.items[id].finished && s.core.items[id].state != st {
      UpdateStep(s, id, s.core.items[id].(state := st));
    }
  }

  /** A worker leaves only a task that is finished, so nothing becomes ready. */
  lemma WorkerExitStep(s: Sys, w: WorkerId)
    requires LiveState(s) && w in s.workers && WorkerOwns(s, w)
    requires WorkerOk(s.core.items, w, AtExit)
    ensures var items := s.core.items[w.0 := s.core.items[w.0].(inFlight := false)];
      LiveState(s.(core := s.core.(items := items), workers := s.workers - {w}))
  {
    var items := s.core.items[w.0 := s.core.items[w.0].(inFlight := false)];
    var after := s.(core := s.core.(items := items), workers := s.workers - {w});
    forall x | x in items ensures TaskOwned(after, x) {
      assert TaskOwned(s, x);
    }
    forall v | v in after.workers ensures WorkerPlaced(after, v) {
      assert WorkerPlaced(s, v);
    }
    SameKeysControl(s, after.core);
    KeptAwake(s, after.core);
  }

  // ---------------------------------------------------------------- scheduler

  lemma PassStep(s: Sys)
    requires SafeState(s) && LiveState(s) && Enabled(s, Pass)
    ensures LiveState(Apply(s, Pass))
  {
    var after := Apply(s, Pass);
    forall x | x in after.core.items ensures TaskOwned(after, x) {
      assert TaskOwned(s, x);
      if Ready(s.core.items[x]) {
        assert (x, s.core.items[x].generation + 1) in Launched(s.core.items);
      }
    }
    forall w | w in after.workers ensures WorkerPlaced(after, w) {
      if w !in Launched(s.core.items) { assert WorkerPlaced(s, w); }
    }
    SameKeysControl(s, after.core);
  }

  lemma {:induction false} ExitFinishes(c: Core, order: seq<Id>, x: Id)
    requires (forall y :: y in order ==> y in c.items) && x in order
    requires c.items[x].finished || c.items[x].state.Pending? || c.items[x].state.Waiting?
    ensures ExitLoop(c, order).items[x].finished
    decreases |order|
  {
    var mid := ExitOne(c, order[0]);
    assert Evolved(c.items[x], mid.items[x]);
    if x == order[0] {
      assert Evolved(mid.items[x], ExitLoop(mid, order[1..]).items[x]);
    } else {
      ExitFinishes(mid, order[1..], x);
    }
  }

  lemma {:induction false} ForceFinishes(c: Core, order: seq<Id>, x: Id)
    requires (forall y :: y in order ==> y in c.items) && x in order
    ensures ForceLoop(c, order).items[x].finished
    decreases |order|
  {
    var mid := FinalizeCore(c, order[0], Cancelled, ErrCancelled);
    if x == order[0] {
      assert Evolved(mid.items[x], ForceLoop(mid, order[1..]).items[x]);
    } else {
      ForceFinishes(mid, order[1..], x);
    }
  }

  predicate SameFlags(a: Core, b: Core) {
    a.started == b.started && a.closed == b.closed && a.wakeMade == b.wakeMade
  }

  lemma {:induction false} ExitFlags(c: Core, order: seq<Id>)
    requires forall y :: y in order ==> y in c.items
    ensures SameFlags(c, ExitLoop(c, order))
    decreases |order|
  {
    if order != [] { ExitFlags(ExitOne(c, order[0]), order[1..]); }
  }

  lemma {:induction false} ForceFlags(c: Core, order: seq<Id>)
    requires forall y :: y in order ==> y in c.items
    ensures SameFlags(c, ForceLoop(c, order))
    decreases |order|
  {
    if order != [] { ForceFlags(FinalizeCore(c, order[0], Cancelled, ErrCancelled), order[1..]); }
  }

  lemma SchedulerExitStep(s: Sys, order: seq<Id>)
    requires LiveState(s) && Enabled(s, SchedulerExit(order))
    ensures LiveState(Apply(s, SchedulerExit(order)))
  {
    var c := s.core.(started := false);
    var after := Apply(s, SchedulerExit(order));
    EvolvedKept(s.core.items, after.core.items);
    ExitFlags(c, order);
    forall x | x in after.core.items ensures TaskOwned(after, x) {
      assert TaskOwned(s, x) && Kept(s.core.items[x], after.core.items[x]);
      if !s.core.items[x].finished && !s.core.items[x].inFlight { ExitFinishes(c, order, x); }
    }
    forall w | w in after.workers ensures WorkerPlaced(after, w) {
      assert WorkerPlaced(s, w) && Kept(s.core.items[w.0], after.core.items[w.0]);
    }
    FinishedStays(s, after.core);
  }

  // ------------------------------------------------------------------ clients

  lemma RetryStep(s: Sys, id: Id)
    requires LiveState(s) && id in s.core.items && RetryMeets(Leaving, s, Retry(id))
    ensures LiveState(s.(core := RetryCore(s.core, id)))
  {
    if RetryVerdict(s.core, id).Accepted? {
      var core := RetryCore(s.core, id);
      var after := s.(core := core);
      forall x | x in core.items ensures TaskOwned(after, x) {
        assert TaskOwned(s, x);
      }
      forall w | w in after.workers ensures WorkerPlaced(after, w) {
        assert WorkerPlaced(s, w);
      }
      SameKeysControl(s, core);
    }
  }

  lemma SubmitStep(s: Sys, t: Task)
    requires SafeState(s) && LiveState(s)
    ensures LiveState(s.(core := SubmitCore(s.core, t)))
  {
    if SubmitVerdict(s.core, t).Accepted? {
      var g := Register(Registration(s.core.items, 0, NoError), t.id, t.dependsOn);
      RegisterOk(s.core.items, t.id, t.dependsOn);
      AddedStep(s, g.items, t.id, NewItem(t, g));
      var added := s.(core := Wake(s.core.(items := g.items[t.id := NewItem(t, g)])));
      if !g.depErr.NoError? {
        FinalizeStep(added, t.id, Failed, g.depErr);
      }
    }
  }

  /** Adding a task that no worker has, and waking the scheduler. */
  lemma AddedStep(s: Sys, registered: Items, id: Id, it: Item)
    requires SafeState(s) && LiveState(s) && !s.core.closed && s.core.started && id !in s.core.items
    requires registered.Keys == s.core.items.Keys
    requires forall x :: x in registered ==> SameTask(s.core.items[x], registered[x])
    requires !it.inFlight && !it.finished && (it.state.Pending? || it.state.Waiting?)
    ensures LiveState(s.(core := Wake(s.core.(items := registered[id := it]))))
  {
    var after := s.(core := Wake(s.core.(items := registered[id := it])));
    forall x | x in after.core.items ensures TaskOwned(after, x) {
      if x != id { assert TaskOwned(s, x) && SameTask(s.core.items[x], registered[x]); }
    }
    forall w | w in after.workers ensures WorkerPlaced(after, w) {
      assert WorkerPlaced(s, w) && SameTask(s.core.items[w.0], registered[w.0]);
    }
  }

  lemma TimedOutStep(s: Sys, order: seq<Id>)
    requires LiveState(s) && Enabled(s, TimedOutShutdown(order))
    ensures LiveState(Apply(s, TimedOutShutdown(order)))
  {
    var core, after := ForceLoop(s.core, order), Apply(s, TimedOutShutdown(order));
    EvolvedKept(s.core.items, core.items);
    ForceFlags(s.core, order);
    SameKeysControl(s, core);
    forall x | x in core.items ensures core.items[x].finished && TaskOwned(after, x) {
      ForceFinishes(s.core, order, x);
    }
    forall w | w in after.workers ensures WorkerPlaced(after, w) {
      assert WorkerPlaced(s, w) && Kept(s.core.items[w.0], core.items[w.0]);
    }
  }

  /** The drained path: with the scheduler and all workers gone, no task is left. */
  lemma DrainedStep(s: Sys)
    requires LiveState(s) && Enabled(s, Drained)
    ensures LiveState(Apply(s, Drained))
  {
    forall x | x in s.core.items ensures s.core.items[x].finished && TaskOwned(Apply(s, Drained), x) {
      assert TaskOwned(s, x);
    }
  }

  /** Steps that move only control state. */
  lemma ControlStep(s: Sys, step: Step)
    requires LiveState(s) && Enabled(s, step)
    requires step.Start? || step.TakeWake? || step.TakeStop? || step.Shutdown?
    ensures LiveState(Apply(s, step))
  {
    var after := Apply(s, step);
    forall x | x in after.core.items ensures TaskOwned(after, x) {
      assert TaskOwned(s, x);
    }
    forall w | w in after.workers ensures WorkerPlaced(after, w) {
      assert WorkerPlaced(s, w);
    }
  }

  lemma LiveStep(s: Sys, step: Step)
    requires SafeState(s) && LiveState(s) && Enabled(s, step) && RetryMeets(Leaving, s, step)
    ensures LiveState(Apply(s, step))
  {
    var c := s.core;
    match step
    case Submit(t) => SubmitStep(s, t);
    case Cancel(id) => CancelStep(s, id);
    case Pause(id) => UpdateStep(s, id, c.items[id].(gatePaused := true));
    case Resume(id) => UpdateStep(s, id, c.items[id].(gatePaused := false));
    case Retry(id) => RetryStep(s, id);
    case WatcherCancel(id, gen) => CancelStep(s, id);
    case WatcherFail(id, gen) => FinalizeStep(s, id, Failed, TaskError);
    case Pass => PassStep(s);
    case SchedulerExit(order) => SchedulerExitStep(s, order);
    case Worker(w, choice) => WorkerStep(s, w, choice);
    case Drained => DrainedStep(s);
    case TimedOutShutdown(order) => TimedOutStep(s, order);
    case _ => ControlStep(s, step);
  }

  lemma {:induction false} RunLive(s: Sys, steps: seq<Step>)
    requires SafeState(s) && LiveState(s) && IsRun(s, steps) && QuietRun(s, steps)
    ensures SafeState(After(s, steps)) && LiveState(After(s, steps))
    decreases |steps|
  {
    if steps != [] {
      StepKeeps(s, steps[0]);
      LiveStep(s, steps[0]);
      RunLive(Apply(s, steps[0]), steps[1..]);
    }
  }

  // ----------------------------------------------------------------- theorems

  /** No lost wake-up: in every reachable state before stop, if some task passes
      the ready test then the scheduler is about to make a pass or a token waits. */
  lemma {:induction false} NoLostWakeUp(capacity: nat, steps: seq<Step>, x: Id)
    requires IsRun(Init(capacity), steps) && QuietRun(Init(capacity), steps)
    requires var s := After(Init(capacity), steps); !s.stop && x in s.core.items && Ready(s.core.items[x])
    ensures var s := After(Init(capacity), steps); s.sched.AtPass? || (s.sched.AtSelect? && s.core.wake)
  {
    RunLive(Init(capacity), steps);
  }

  /** A task is never in the hands of two workers: of those that have not left the work
      function for good there is one, and it carries the task's current generation. */
  lemma {:induction false} SingleOwner(capacity: nat, steps: seq<Step>, v: WorkerId, w: WorkerId)
    requires IsRun(Init(capacity), steps) && QuietRun(Init(capacity), steps)
    requires var s := After(Init(capacity), steps);
      && v in s.workers && w in s.workers && v.0 == w.0
      && !Leaving(s.workers[v]) && !Leaving(s.workers[w])
    ensures v == w && WorkerOwns(After(Init(capacity), steps), v)
  {
    RunLive(Init(capacity), steps);
    var s := After(Init(capacity), steps);
    assert WorkerPlaced(s, v);
    assert WorkerPlaced(s, w);
  }

  // -------------------------------------------------------- concurrency slots

  function Holding(s: Sys): set<WorkerId> {
    set w | w in s.workers && HoldsSlot(s.workers[w])
  }

  ghost predicate SlotsOk(s: Sys) {
    s.slots == |Holding(s)| && s.slots <= s.capacity
  }

  lemma SlotsStep(s: Sys, step: Step)
    requires SafeState(s) && SlotsOk(s) && Enabled(s, step)
    ensures SlotsOk(Apply(s, step)) && Apply(s, step).capacity == s.capacity
  {
    var t := Apply(s, step);
    if step.Worker? {
      WorkerSlots(s, step.w, step.choice);
    } else if step.Pass? {
      forall w | w in Launched(s.core.items) ensures w !in s.workers {
        assert w in s.workers ==> WorkerOk(s.core.items, w, s.workers[w]);
      }
      assert Holding(t) == Holding(s);
    } else {
      OtherSlots(s, step);
    }
  }

  /** The other steps move no worker. */
  lemma OtherSlots(s: Sys, step: Step)
    requires Enabled(s, step) && !step.Worker? && !step.Pass?
    ensures var t := Apply(s, step); t.workers == s.workers && t.slots == s.slots && t.capacity == s.capacity
  {
  }

  lemma AcquiresOnlyAtAcquire(it: Item, gen: nat, pc: WorkerPc, choice: Choice)
    requires !HoldsSlot(pc) && HoldsSlot(NextPc(it, gen, pc, choice))
    ensures pc.AtAcquire? && !choice.Abort?
  {
  }

  lemma HoldingMoved(s: Sys, w: WorkerId, workers: map<WorkerId, WorkerPc>, holds: bool)
    requires w in s.workers
    requires (workers == s.workers - {w} && !holds)
          || (exists pc :: workers == s.workers[w := pc] && HoldsSlot(pc) == holds)
    ensures Holding(s.(workers := workers)) == if holds then Holding(s) + {w} else Holding(s) - {w}
  {
  }

  lemma WorkerSlots(s: Sys, w: WorkerId, choice: Choice)
    requires SlotsOk(s) && Enabled(s, Worker(w, choice))
    ensures SlotsOk(WorkerApply(s, w, choice))
  {
    var pc := s.workers[w];
    var next := NextPc(s.core.items[w.0], w.1, pc, choice);
    var t := WorkerApply(s, w, choice);
    HoldingMoved(s, w, t.workers, HoldsSlot(next));
    assert Holding(t) == if HoldsSlot(next) then Holding(s) + {w} else Holding(s) - {w};
    assert w in Holding(s) <==> HoldsSlot(pc);
    if !HoldsSlot(pc) && HoldsSlot(next) {
      AcquiresOnlyAtAcquire(s.core.items[w.0], w.1, pc, choice);
    }
  }

  lemma {:induction false} RunSlots(s: Sys, steps: seq<Step>)
    requires SafeState(s) && SlotsOk(s) && IsRun(s, steps)
    ensures SlotsOk(After(s, steps)) && After(s, steps).capacity == s.capacity
    decreases |steps|
  {
    if steps != [] {
      StepKeeps(s, steps[0]);
      SlotsStep(s, steps[0]);
      RunSlots(Apply(s, steps[0]), steps[1..]);
    }
  }

  /** In every run, retries over live workers included, no more workers are inside
      an attempt of a work function than the configured concurrency. */
  lemma {:induction false} ConcurrencyBound(capacity: nat, steps: seq<Step>)
    requires IsRun(Init(capacity), steps)
    ensures |Holding(After(Init(capacity), steps))| <= capacity
  {
    assert Holding(Init(capacity)) == {};
    RunSlots(Init(capacity), steps);
  }

  // -------------------------------------------------------------- termination

  /** Once the engine is closed and every task is finished, no run of any kind
      accepts a task or makes one non-terminal again. */
  lemma {:induction false} FinishedForever(s: Sys, steps: seq<Step>)
    requires SafeState(s) && s.core.closed && AllFinished(s.core.items) && IsRun(s, steps)
    ensures var t := After(s, steps);
      && t.core.items.Keys == s.core.items.Keys
      && forall x :: x in t.core.items ==> t.core.items[x].finished && t.core.items[x].state.Terminal()
    decreases |steps|
  {
    if steps == [] {
      assert forall x :: x in s.core.items ==> TaskOk(s.core.items, x);
    } else {
      StepKeeps(s, steps[0]);
      ClosedStep(s, steps[0]);
      FinishedForever(Apply(s, steps[0]), steps[1..]);
    }
  }

  lemma ClosedStep(s: Sys, step: Step)
    requires s.core.closed && AllFinished(s.core.items) && Enabled(s, step)
    ensures var t := Apply(s, step).core;
      t.closed && t.items.Keys == s.core.items.Keys && AllFinished(t.items)
  {
    match step
    case SchedulerExit(order) =>
      ExitFlags(s.core.(started := false), order);
      ClosedEvolved(s, SchedulerExitCore(s.core, order).items);
    case TimedOutShutdown(order) =>
      ForceFlags(s.core, order);
      ClosedEvolved(s, ForceLoop(s.core, order).items);
    case Worker(w, choice) => ClosedWorker(s.core, w, s.workers[w]);
    case _ => ClosedOther(s, step);
  }

  /** The remaining sections find everything finished, or the engine closed. */
  lemma ClosedOther(s: Sys, step: Step)
    requires s.core.closed && AllFinished(s.core.items) && Enabled(s, step)
    requires !step.Worker? && !step.SchedulerExit? && !step.TimedOutShutdown?
    ensures var t := Apply(s, step).core;
      t.closed && t.items.Keys == s.core.items.Keys && AllFinished(t.items)
  {
    if step.Submit? { ClosedSubmit(s.core, step.t); }
  }

  lemma ClosedSubmit(c: Core, t: Task)
    requires c.closed
    ensures SubmitCore(c, t) == c
  {
  }

  lemma ClosedWorker(c: Core, w: WorkerId, pc: WorkerPc)
    requires w.0 in c.items && AllFinished(c.items)
    ensures var t := WorkerCore(c, w.0, w.1, pc);
      t.closed == c.closed && t.items.Keys == c.items.Keys && AllFinished(t.items)
  {
  }

  lemma ClosedEvolved(s: Sys, after: Items)
    requires AllFinished(s.core.items) && AllEvolved(s.core.items, after)
    ensures AllFinished(after)
  {
  }

  /** Shutdown is final: in a run where the Shutdown call that closed the engine
      has returned, by draining or by its deadline, every task ever accepted is in
      a terminal state, and stays there in every continuation of the run, even one
      that retries over live workers. */
  lemma {:induction false} ShutdownIsFinal(capacity: nat, steps: seq<Step>, later: seq<Step>)
    requires IsRun(Init(capacity), steps) && QuietRun(Init(capacity), steps)
    requires After(Init(capacity), steps).shut.Returned?
    requires IsRun(After(Init(capacity), steps), later)
    ensures var s, t := After(Init(capacity), steps), After(After(Init(capacity), steps), later);
      && (forall x :: x in s.core.items ==> s.core.items[x].state.Terminal())
      && t.core.items.Keys == s.core.items.Keys
      && forall x :: x in t.core.items ==> t.core.items[x].finished && t.core.items[x].state.Terminal()
  {
    RunLive(Init(capacity), steps);
    var s := After(Init(capacity), steps);
    assert forall x :: x in s.core.items ==> TaskOk(s.core.items, x);
    FinishedForever(s, later);
  }

  // ------------------------------------------------------- the timed-out path

  /** A Shutdown that has begun has closed the engine. */
  predicate Closing(s: Sys) {
    !s.shut.NotCalled? ==> s.core.closed
  }

  lemma StepClosing(s: Sys, step: Step)
    requires Enabled(s, step) && Closing(s)
    ensures Closing(Apply(s, step))
  {
    match step
    case SchedulerExit(order) => ExitFlags(s.core.(started := false), order);
    case TimedOutShutdown(order) => ForceFlags(s.core, order);
    case _ =>
  }

  lemma {:induction false} RunClosing(s: Sys, steps: seq<Step>)
    requires Closing(s) && IsRun(s, steps)
    ensures Closing(After(s, steps))
    decreases |steps|
  {
    if steps != [] {
      StepClosing(s, steps[0]);
      RunClosing(Apply(s, steps[0]), steps[1..]);
    }
  }

  /** A Shutdown that returns by its deadline is final in every run, whatever retries have
      met: it finishes every task itself, and none comes back in any continuation. */
  lemma TimedOutIsFinal(capacity: nat, steps: seq<Step>, order: seq<Id>, later: seq<Step>)
    requires IsRun(Init(capacity), steps) && Enabled(After(Init(capacity), steps), TimedOutShutdown(order))
    requires IsRun(Apply(After(Init(capacity), steps), TimedOutShutdown(order)), later)
    ensures var s := After(Init(capacity), steps);
      var t := After(Apply(s, TimedOutShutdown(order)), later);
      && t.core.items.Keys == s.core.items.Keys
      && forall x :: x in t.core.items ==> t.core.items[x].finished && t.core.items[x].state.Terminal()
  {
    var s := After(Init(capacity), steps);
    var after := Apply(s, TimedOutShutdown(order));
    RunSafe(Init(capacity), steps);
    RunClosing(Init(capacity), steps);
    StepKeeps(s, TimedOutShutdown(order));
    StepClosing(s, TimedOutShutdown(order));
    forall x | x in after.core.items ensures after.core.items[x].finished {
      ForceFinishes(s.core, order, x);
    }
    FinishedForever(after, later);
  }
}
