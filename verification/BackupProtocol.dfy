/** The engine as a step system.

    Every step is one critical section: of a client call, of the scheduler, or of
    a worker. A worker's test ("am I stale?", "is the task finished?") and the
    action it then takes are different steps, so everything may happen between
    them. Timers and contexts appear as free choices of the step label; so do the
    verdicts of watchers, which any run may deliver at any time, guarded only by
    the generation test the source makes. */
module BackupProtocol {
  import opened BackupTasks
  import opened BackupEngine

  /** Where a pause wait returns to: the top of the worker loop, or attempt `n`
      of the work function, which called Checkpoint. */
  datatype Back = ToTop | ToWork(n: nat)

  datatype Outcome = Succeeded | CtxCancelled | DeadlineExceeded | WorkFailed

  datatype WorkerPc =
    | AtTop | AtOwnerCheck | AtGate
    | AtPauseCheck(back: Back) | AtPauseMark(back: Back) | AtPauseWait(back: Back)
    | AtResumeCheck(back: Back) | AtResumeMark(back: Back)
    | AtAcquire | AtAttempt | AtWork(n: nat)
    | AtReturnCheck(n: nat, outcome: Outcome) | AtReturnFinished(n: nat, outcome: Outcome)
    | AtRetryMark | AtBackoff | AtCancelCheck
    | AtFinalize(st: TaskState, err: Error)
    | AtExit

  datatype SchedulerPc = NotStarted | AtPass | AtSelect | AtSchedulerExit | SchedulerDone

  datatype ShutdownPc = NotCalled | Draining | Returned

  /** A worker is named by its task and the generation it was launched with. */
  type WorkerId = (Id, nat)

  datatype Sys = Sys(
    core: Core,
    sched: SchedulerPc,
    stop: bool,
    workers: map<WorkerId, WorkerPc>,
    slots: nat,
    capacity: nat,
    shut: ShutdownPc)

  datatype Choice = Proceed | Abort | Checkpoint | Return(outcome: Outcome)

  datatype Step =
    | Start | Submit(t: Task) | Cancel(id: Id) | Pause(id: Id) | Resume(id: Id) | Retry(id: Id)
    | WatcherCancel(id: Id, gen: nat) | WatcherFail(id: Id, gen: nat)
    | Pass | TakeWake | TakeStop | SchedulerExit(order: seq<Id>)
    | Worker(w: WorkerId, choice: Choice)
    | Shutdown | Drained | TimedOutShutdown(order: seq<Id>)

  function Init(capacity: nat): Sys {
    Sys(NewCore(), NotStarted, false, map[], 0, capacity, NotCalled)
  }

  // ------------------------------------------------------------------ workers

  function ReturnTo(back: Back): WorkerPc {
    match back case ToTop => AtTop case ToWork(n) => AtWork(n)
  }

  /** The decision after a work function returned and the task is still ours. */
  function AfterWork(it: Item, n: nat, outcome: Outcome): WorkerPc {
    if outcome.Succeeded? then AtFinalize(Completed, NoError)
    else if outcome.CtxCancelled? then AtFinalize(Cancelled, ErrCancelled)
    else if outcome.DeadlineExceeded? && n > it.retryLimit then AtFinalize(TimedOut, TaskError)
    else if n > it.retryLimit then AtFinalize(Failed, TaskError)
    else AtRetryMark
  }

  /** The worker's next control point; AtExit is its last one. */
  function NextPc(it: Item, gen: nat, pc: WorkerPc, choice: Choice): WorkerPc {
    var stale := it.generation != gen;
    match pc
    case AtTop => if it.finished then AtExit else AtOwnerCheck
    case AtOwnerCheck => if stale then AtExit else AtGate
    case AtGate => if it.gatePaused then AtPauseCheck(ToTop) else AtAcquire
    case AtPauseCheck(back) => if it.gatePaused then AtPauseMark(back) else ReturnTo(back)
    case AtPauseMark(back) => AtPauseWait(back)
    case AtPauseWait(back) =>
      if !choice.Abort? then AtResumeCheck(back) else if back.ToTop? then AtCancelCheck else ReturnTo(back)
    case AtResumeCheck(back) => if it.finished then ReturnTo(back) else AtResumeMark(back)
    case AtResumeMark(back) => ReturnTo(back)
    case AtAcquire => if choice.Abort? then AtCancelCheck else AtAttempt
    case AtAttempt => AtWork(it.attempt + 1)
    case AtWork(n) => if choice.Return? then AtReturnCheck(n, choice.outcome) else AtPauseCheck(ToWork(n))
    case AtReturnCheck(n, o) => if stale then AtExit else AtReturnFinished(n, o)
    case AtReturnFinished(n, o) => if it.finished then AtExit else AfterWork(it, n, o)
    case AtRetryMark => AtBackoff
    case AtBackoff => if choice.Abort? then AtCancelCheck else AtTop
    case AtCancelCheck => if stale then AtExit else AtFinalize(Cancelled, ErrCancelled)
    case AtFinalize(_, _) => AtExit
    case AtExit => AtExit
  }

  /** What the worker's critical section does to the guarded state. */
  function WorkerCore(c: Core, id: Id, gen: nat, pc: WorkerPc): Core
    requires id in c.items
  {
    if Marks(pc) then TransitionCore(c, id, MarkOf(pc))
    else if pc.AtFinalize? then FinalizeCore(c, id, pc.st, pc.err)
    else if pc.AtAttempt? then c.(items := c.items[id := c.items[id].(attempt := c.items[id].attempt + 1)])
    else if pc.AtExit? && c.items[id].generation == gen then
      c.(items := c.items[id := c.items[id].(inFlight := false)])
    else c
  }

  /** The state a worker marks its task with, if it is about to. */
  function MarkOf(pc: WorkerPc): (st: TaskState) {
    if pc.AtPauseMark? then TaskState.Paused else if pc.AtResumeMark? then Running else Waiting
  }

  predicate Marks(pc: WorkerPc) {
    pc.AtPauseMark? || pc.AtResumeMark? || pc.AtRetryMark?
  }

  predicate HoldsSlot(pc: WorkerPc) {
    match pc
    case AtAttempt => true
    case AtWork(_) => true
    case AtPauseCheck(b) => b.ToWork?
    case AtPauseMark(b) => b.ToWork?
    case AtPauseWait(b) => b.ToWork?
    case AtResumeCheck(b) => b.ToWork?
    case AtResumeMark(b) => b.ToWork?
    case _ => false
  }

  function WorkerApply(s: Sys, w: WorkerId, choice: Choice): Sys
    requires w in s.workers && w.0 in s.core.items
  {
    var pc := s.workers[w];
    var next := NextPc(s.core.items[w.0], w.1, pc, choice);
    s.(core := WorkerCore(s.core, w.0, w.1, pc),
       workers := if pc.AtExit? then s.workers - {w} else s.workers[w := next],
       slots := if !HoldsSlot(pc) && HoldsSlot(next) then s.slots + 1
                else if HoldsSlot(pc) && !HoldsSlot(next) && s.slots > 0 then s.slots - 1
                else s.slots)
  }

  // -------------------------------------------------------------------- steps

  function Launched(items: Items): map<WorkerId, WorkerPc> {
    map x | x in items && Ready(items[x]) :: (x, items[x].generation + 1) := AtTop
  }

  ghost predicate Enabled(s: Sys, step: Step) {
    var items := s.core.items;
    match step
    case Start => true
    case Submit(t) => true
    case Cancel(id) => id in items
    case Pause(id) => id in items
    case Resume(id) => id in items
    case Retry(id) => id in items
    case WatcherCancel(id, gen) => id in items
    case WatcherFail(id, gen) => id in items
    case Pass => s.sched.AtPass?
    case TakeWake => s.sched.AtSelect? && s.core.wake
    case TakeStop => s.sched.AtSelect? && s.stop
    case SchedulerExit(order) => s.sched.AtSchedulerExit? && Visits(order, items)
    case Worker(w, choice) =>
      && w in s.workers && w.0 in items
      && (s.workers[w].AtAcquire? && !choice.Abort? ==> s.slots < s.capacity)
    case Shutdown => true
    case Drained => s.shut.Draining? && s.sched.SchedulerDone? && s.workers == map[]
    case TimedOutShutdown(order) => s.shut.Draining? && Visits(order, items)
  }

  function Apply(s: Sys, step: Step): Sys
    requires Enabled(s, step)
  {
    var c := s.core;
    match step
    case Start =>
      if c.closed || c.started then s else s.(core := StartCore(c), sched := AtPass)
    case Submit(t) => s.(core := SubmitCore(c, t))
    case Cancel(id) => s.(core := CancelCore(c, id))
    case Pause(id) => s.(core := c.(items := c.items[id := c.items[id].(gatePaused := true)]))
    case Resume(id) => s.(core := c.(items := c.items[id := c.items[id].(gatePaused := false)]))
    case Retry(id) => s.(core := RetryCore(c, id))
    case WatcherCancel(id, gen) => if c.items[id].generation == gen then s.(core := CancelCore(c, id)) else s
    case WatcherFail(id, gen) =>
      if c.items[id].generation == gen then s.(core := FinalizeCore(c, id, Failed, TaskError)) else s
    case Pass => s.(core := PassCore(c), workers := s.workers + Launched(c.items), sched := AtSelect)
    case TakeWake => s.(core := c.(wake := false), sched := AtPass)
    case TakeStop => s.(sched := AtSchedulerExit)
    case SchedulerExit(order) => s.(core := SchedulerExitCore(c, order), sched := SchedulerDone)
    case Worker(w, choice) => WorkerApply(s, w, choice)
    case Shutdown =>
      if c.closed then s
      else s.(core := c.(closed := true), stop := c.started, shut := if c.started then Draining else Returned)
    case Drained => s.(shut := Returned)
    case TimedOutShutdown(order) => s.(core := ForceLoop(c, order), shut := Returned)
  }

  // --------------------------------------------------------------------- runs

  ghost predicate IsRun(s: Sys, steps: seq<Step>)
    decreases |steps|
  {
    steps == [] || (Enabled(s, steps[0]) && IsRun(Apply(s, steps[0]), steps[1..]))
  }

  ghost function After(s: Sys, steps: seq<Step>): Sys
    requires IsRun(s, steps)
    decreases |steps|
  {
    if steps == [] then s else After(Apply(s, steps[0]), steps[1..])
  }

  /** A worker that has left the work function and will not enter it again unless it
      owns the task: what the engine takes for granted of the worker of the previous run
      when a task is retried. */
  predicate Leaving(pc: WorkerPc) {
    match pc
    case AtTop => true
    case AtOwnerCheck => true
    case AtReturnCheck(_, _) => true
    case AtReturnFinished(_, _) => true
    case AtRetryMark => true
    case AtBackoff => true
    case AtCancelCheck => true
    case AtFinalize(_, _) => true
    case AtExit => true
    case _ => false
  }

  /** A retry that re-arms its task meets workers of that task at points in `ok` only. */
  ghost predicate RetryMeets(ok: WorkerPc -> bool, s: Sys, step: Step) {
    step.Retry? && step.id in s.core.items && RetryVerdict(s.core, step.id).Accepted? ==>
      forall w :: w in s.workers && w.0 == step.id ==> ok(s.workers[w])
  }

  ghost predicate RetriesMeet(ok: WorkerPc -> bool, s: Sys, steps: seq<Step>)
    requires IsRun(s, steps)
    decreases |steps|
  {
    steps == [] || (RetryMeets(ok, s, steps[0]) && RetriesMeet(ok, Apply(s, steps[0]), steps[1..]))
  }

  /** Retries find the previous worker gone or leaving. */
  ghost predicate QuietRun(s: Sys, steps: seq<Step>)
    requires IsRun(s, steps)
  {
    RetriesMeet(Leaving, s, steps)
  }
}
