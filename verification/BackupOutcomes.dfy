/** What the sections come to, field by field: which tasks a pass takes, what a submitted
    task becomes, how often an attempt is made, and with what outcome a cancelled or
    abandoned task ends. None of it is said in terms of the ready test, the validation or
    the other functions the sections are written with. */
module BackupOutcomes {
  import opened BackupTasks
  import opened BackupEngine
  import opened BackupCascade
  import opened BackupProtocol
  import opened BackupDependencies
  import opened BackupLifecycle

  // ---------------------------------------------------------------- launching

  /** From `s` to `t` task `x` was handed to a new worker, and nothing else about it changed. */
  predicate TakenUp(s: Sys, t: Sys, x: Id) {
    && x in s.core.items && x in t.core.items
    && var a, b := s.core.items[x], t.core.items[x];
       && b == a.(state := b.state, inFlight := true, generation := a.generation + 1) && b.state == TaskState.Running
       && (x, b.generation) !in s.workers && (x, b.generation) in t.workers && t.workers[(x, b.generation)] == AtTop
  }

  predicate LeftAlone(s: Sys, t: Sys, x: Id) {
    && x in s.core.items && x in t.core.items && t.core.items[x] == s.core.items[x]
    && (x, s.core.items[x].generation + 1) !in t.workers
  }

  lemma PassOne(s: Sys, x: Id)
    requires SafeState(s) && Enabled(s, Pass) && x in s.core.items
    ensures if Ready(s.core.items[x]) then TakenUp(s, Apply(s, Pass), x) else LeftAlone(s, Apply(s, Pass), x)
  {
    NoWorkerYet(s, x);
    var next := (x, s.core.items[x].generation + 1);
    assert next in Launched(s.core.items) <==> Ready(s.core.items[x]);
  }

  /** In every run, a pass takes a task that no worker has had exactly when it is not
      finished and all its dependencies are Completed, and leaves it alone otherwise. */
  lemma {:induction false} PassTakesExactly(capacity: nat, steps: seq<Step>, x: Id)
    requires IsRun(Init(capacity), steps)
    requires var s := After(Init(capacity), steps);
      Enabled(s, Pass) && x in s.core.items && s.core.items[x].generation == 0
    ensures var s := After(Init(capacity), steps);
      if !s.core.items[x].finished && forall d :: d in s.core.items[x].dependsOn ==> Done(s.core.items, d)
      then TakenUp(s, Apply(s, Pass), x) else LeftAlone(s, Apply(s, Pass), x)
  {
    var s := After(Init(capacity), steps);
    RunSafe(Init(capacity), steps);
    assert TaskOk(s.core.items, x);
    PassOne(s, x);
    UntakenReady(s.core.items, x);
  }

  lemma UntakenReady(items: Items, x: Id)
    requires TasksOk(items) && x in items && items[x].generation == 0
    ensures Ready(items[x]) <==> !items[x].finished && forall d :: d in items[x].dependsOn ==> Done(items, d)
  {
    assert TaskOk(items, x);
    MissingExact(items, items[x].dependsOn);
    forall d | d in items[x].dependsOn && d in items ensures TaskOk(items, d) {}
  }

  /** Nobody carries the generation a task would get next. */
  lemma NoWorkerYet(s: Sys, x: Id)
    requires SafeState(s) && x in s.core.items
    ensures (x, s.core.items[x].generation + 1) !in s.workers
  {
    var w := (x, s.core.items[x].generation + 1);
    if w in s.workers { assert false; }
  }

  lemma {:induction false} MissingExact(items: Items, deps: seq<Id>)
    ensures Missing(items, deps) == 0 <==> forall d :: d in deps ==> d in items && items[d].state.Completed?
  {
    if deps != [] { MissingExact(items, deps[1..]); }
  }

  /** A task that has just been retried is taken by the next pass, whatever its dependencies,
      and the sleeping scheduler makes that pass. */
  lemma {:induction false} RetriedIsTaken(capacity: nat, steps: seq<Step>, x: Id)
    requires IsRun(Init(capacity), steps)
    requires var s := After(Init(capacity), steps);
      && x in s.core.items && s.core.items[x].finished && !s.core.items[x].state.Completed? && !s.core.closed
    ensures var s := Apply(After(Init(capacity), steps), Retry(x));
      && (s.sched.AtPass? ==> TakenUp(s, Apply(s, Pass), x))
      && (s.sched.AtSelect? && s.core.wakeMade ==>
            && Enabled(s, TakeWake)
            && var t := Apply(s, TakeWake); Enabled(t, Pass) && TakenUp(t, Apply(t, Pass), x))
  {
    var s := After(Init(capacity), steps);
    RunSafe(Init(capacity), steps);
    StepKeeps(s, Retry(x));
    var t := Apply(s, Retry(x));
    RetryExact(s.core, x);
    if t.sched.AtPass? { PassOne(t, x); }
    if t.sched.AtSelect? && t.core.wakeMade {
      StepKeeps(t, TakeWake);
      PassOne(Apply(t, TakeWake), x);
    }
  }

  /** Any task: one that a worker has or that is finished is left alone; any other is taken
      if it is Pending, or Waiting for nothing, and left alone if it waits for something. */
  lemma PassTakes(s: Sys, x: Id)
    requires SafeState(s) && Enabled(s, Pass) && x in s.core.items
    ensures var it := s.core.items[x];
      && (it.inFlight || it.finished ==> LeftAlone(s, Apply(s, Pass), x))
      && (!it.inFlight && !it.finished && it.state.Pending? ==> TakenUp(s, Apply(s, Pass), x))
      && (!it.inFlight && !it.finished && it.state.Waiting? ==>
            if it.depsPending == 0 then TakenUp(s, Apply(s, Pass), x) else LeftAlone(s, Apply(s, Pass), x))
  {
    PassOne(s, x);
  }

  // ------------------------------------------------------------------- retrying

  /** Accepted exactly for a finished, not Completed task of an open engine; the task then
      starts over, the others are as they were, and the scheduler is woken. */
  lemma RetryExact(c: Core, x: Id)
    requires x in c.items
    ensures var r, was := RetryCore(c, x), c.items[x];
      if !c.closed && was.finished && !was.state.Completed? then
        && r == c.(items := r.items, wake := c.wake || c.wakeMade) && r.items.Keys == c.items.Keys
        && (forall y :: y in c.items && y != x ==> r.items[y] == c.items[y])
        && var now := r.items[x];
           && !now.finished && !now.inFlight && !now.gatePaused && now.attempt == 0 && now.generation == was.generation + 1
           && now.state == Pending && now.err == NoError && now.retried && now.dependsOn == was.dependsOn
           && now.dependents == was.dependents && now.depsPending == was.depsPending && now.retryLimit == was.retryLimit
      else r == c
  {
  }

  // ------------------------------------------------------------------ submitting

  /** A task that may be submitted at all. */
  predicate Sound(t: Task) {
    && t.id != "" && t.hasWork && t.timeout >= 0 && t.retry >= 0 && t.backoff >= 0 && t.watchersValid
    && forall i :: 0 <= i < |t.dependsOn| ==> t.dependsOn[i] != "" && t.dependsOn[i] != t.id
  }

  /** It depends on itself, and nothing before that is wrong. */
  predicate SelfDependent(t: Task) {
    && t.id != "" && t.hasWork && t.timeout >= 0 && t.retry >= 0 && t.backoff >= 0
    && exists i :: 0 <= i < |t.dependsOn| && t.dependsOn[i] == t.id && forall j :: 0 <= j < i ==> t.dependsOn[j] != ""
  }

  lemma {:induction false} DepsExact(id: Id, deps: seq<Id>, watchersValid: bool)
    requires id != ""
    ensures var v := ValidateDeps(id, deps, watchersValid);
      && (v.Accepted? <==> watchersValid && forall i :: 0 <= i < |deps| ==> deps[i] != "" && deps[i] != id)
      && (v == Rejected(ErrCycleDetected) <==>
            exists i :: 0 <= i < |deps| && deps[i] == id && forall j :: 0 <= j < i ==> deps[j] != "")
      && (v.Accepted? || v == Rejected(ErrCycleDetected) || v == Rejected(ErrInvalidTask))
  {
    if deps != [] {
      DepsExact(id, deps[1..], watchersValid);
      var rest := deps[1..];
      assert forall i :: 0 < i < |deps| ==> deps[i] == rest[i - 1];
      if deps[0] != "" && deps[0] != id {
        if i :| 0 <= i < |rest| && rest[i] == id && forall j :: 0 <= j < i ==> rest[j] != "" {
          assert deps[i + 1] == id && forall j :: 0 <= j < i + 1 ==> deps[j] != "";
        }
      }
    }
  }

  /** When Submit accepts a task, and why it refuses one. */
  lemma {:induction false} SubmitExact(c: Core, t: Task)
    ensures SubmitVerdict(c, t) ==
      if SelfDependent(t) then Rejected(ErrCycleDetected)
      else if !Sound(t) then Rejected(ErrInvalidTask)
      else if c.closed then Rejected(ErrEngineClosed)
      else if !c.started then Rejected(ErrEngineNotStarted)
      else if t.id in c.items then Rejected(ErrTaskExists)
      else if exists d :: d in t.dependsOn && d !in c.items then Rejected(ErrTaskNotFound)
      else Accepted
  {
    if t.id != "" { DepsExact(t.id, t.dependsOn, t.watchersValid); }
  }

  /** `deps[i]` is the first dependency that has ended otherwise than Completed. */
  predicate FirstFailed(items: Items, deps: seq<Id>, i: nat) {
    && i < |deps| && Ended(items, deps[i])
    && forall j :: 0 <= j < i ==> !Ended(items, deps[j])
  }

  predicate Ended(items: Items, d: Id) {
    d in items && items[d].finished && !items[d].state.Completed?
  }

  lemma {:induction false} RegisterError(g: Registration, id: Id, deps: seq<Id>)
    requires forall d :: d in deps ==> d in g.items
    ensures !g.depErr.NoError? ==> Register(g, id, deps).depErr == g.depErr
    ensures g.depErr.NoError? && (forall j :: 0 <= j < |deps| ==> !Ended(g.items, deps[j])) ==>
      Register(g, id, deps).depErr.NoError?
    ensures forall i: nat :: g.depErr.NoError? && FirstFailed(g.items, deps, i) ==>
      Register(g, id, deps).depErr == Because(g.items, deps[i])
    decreases |deps|
  {
    if deps != [] {
      var h := RegisterOne(g, id, deps[0]);
      SameRegistered(g, id, deps[0]);
      RegisterError(h, id, deps[1..]);
      forall i: nat | g.depErr.NoError? && FirstFailed(g.items, deps, i)
        ensures Register(g, id, deps).depErr == Because(g.items, deps[i])
      {
        if i > 0 { assert FirstFailed(h.items, deps[1..], i - 1); }
      }
    }
  }

  /** The error of a task that fails on `d`. */
  function Because(items: Items, d: Id): Error
    requires d in items
  {
    match items[d].state
    case Cancelled => DependencyCancelled(d)
    case _ => DependencyFailed(d)
  }

  /** What a task becomes when it is accepted: Failed on the first of its dependencies that
      has ended otherwise than Completed, or else unfinished, Waiting if a dependency is not
      Completed yet and Pending if all are. */
  lemma {:induction false} SubmittedExact(c: Core, t: Task)
    requires TasksOk(c.items) && SubmitVerdict(c, t).Accepted?
    ensures Submitted(c, t, SubmitCore(c, t))
  {
    var items, it := SubmittedParts(c, t);
    PartsSubmitted(c, t, items, it);
  }

  ghost predicate Submitted(c: Core, t: Task, r: Core) {
    && r == c.(items := r.items, wake := c.wake || c.wakeMade) && r.items.Keys == c.items.Keys + {t.id}
    && Becomes(c.items, t, r.items[t.id]) && forall x :: x in c.items ==> SameTask(c.items[x], r.items[x])
  }

  lemma PartsSubmitted(c: Core, t: Task, items: Items, now: Item)
    requires Parts(c, t, items, now)
    ensures Submitted(c, t, c.(items := items[t.id := now], wake := c.wake || c.wakeMade))
  {
  }

  ghost predicate Parts(c: Core, t: Task, items: Items, now: Item) {
    && t.id !in c.items && items.Keys == c.items.Keys && Becomes(c.items, t, now)
    && forall x :: x in c.items ==> SameTask(c.items[x], items[x])
  }

  lemma {:induction false} SubmittedParts(c: Core, t: Task) returns (items: Items, now: Item)
    requires TasksOk(c.items) && SubmitVerdict(c, t).Accepted?
    ensures SubmitCore(c, t) == c.(items := items[t.id := now], wake := c.wake || c.wakeMade)
    ensures Parts(c, t, items, now)
  {
    var g := Register(Registration(c.items, 0, NoError), t.id, t.dependsOn);
    RegisterOk(c.items, t.id, t.dependsOn);
    NewBecomes(c.items, t, g);
    var it := NewItem(t, g);
    items, now := g.items, if g.depErr.NoError? then it else Finish(it, Failed, g.depErr);
    if !g.depErr.NoError? { NewFails(c, g.items, t.id, it, g.depErr); }
  }

  /** A new task that nothing depends on yet, failed at once. */
  lemma {:induction false} NewFails(c: Core, items: Items, id: Id, it: Item, err: Error)
    requires !it.finished && it.dependents == []
    ensures FinalizeCore(c.(items := items[id := it]), id, Failed, err)
         == c.(items := items[id := Finish(it, Failed, err)], wake := c.wake || c.wakeMade)
  {
    FinalizeLeaf(items[id := it], id, Failed, err);
    assert items[id := it][id := Finish(it, Failed, err)] == items[id := Finish(it, Failed, err)];
  }

  predicate Becomes(items: Items, t: Task, it: Item) {
    && it.dependsOn == t.dependsOn && it.retryLimit == t.retry && it.attempt == 0 && it.generation == 0
    && it.dependents == [] && !it.inFlight && !it.gatePaused && !it.retried
    && (forall i :: 0 <= i < |t.dependsOn| && FirstFailed(items, t.dependsOn, i) ==>
          it.finished && it.state == Failed && it.err == Because(items, t.dependsOn[i]))
    && ((forall d :: d in t.dependsOn ==> !Ended(items, d)) ==>
          && !it.finished && it.err == NoError
          && it.state == if forall d :: d in t.dependsOn ==> Done(items, d) then Pending else Waiting)
  }

  lemma {:induction false} NewBecomes(items: Items, t: Task, g: Registration)
    requires TasksOk(items) && t.retry >= 0 && forall d :: d in t.dependsOn ==> d in items
    requires g == Register(Registration(items, 0, NoError), t.id, t.dependsOn)
    ensures var it := NewItem(t, g); Becomes(items, t, if g.depErr.NoError? then it else Finish(it, Failed, g.depErr))
  {
    RegisterRight(items, t.id, t.dependsOn);
    RegisterError(Registration(items, 0, NoError), t.id, t.dependsOn);
    MissingExact(items, t.dependsOn);
    forall x | x in items ensures TaskOk(items, x) {}
  }

  // ------------------------------------------------------------------ cancelling

  /** Cancelling a task that no worker runs ends it as Cancelled; one that is at work, and
      every other that does not depend on it, is not touched. */
  lemma {:induction false} CancelExact(c: Core, x: Id)
    requires x in c.items
    ensures var r := CancelCore(c, x);
      if c.items[x].finished then r == c
      else
        && r == c.(items := r.items, wake := c.wake || c.wakeMade) && r.items.Keys == c.items.Keys
        && if c.items[x].state.Pending? || c.items[x].state.Waiting? then
             r.items[x] == c.items[x].(finished := true, state := TaskState.Cancelled, err := ErrCancelled)
           else r.items == c.items
  {
    if !c.items[x].finished { FinalizeRoot(c.items, x, Cancelled, ErrCancelled); }
  }

  /** How a task ends that an exiting scheduler or a timed-out Shutdown still finds: as it
      was, Cancelled, or Failed on a dependency that they have ended. */
  ghost predicate Abandoned(a: Items, b: Items, x: Id)
    requires b.Keys == a.Keys && x in a
  {
    || b[x] == a[x]
    || b[x] == a[x].(depsPending := b[x].depsPending, finished := true, state := TaskState.Cancelled, err := ErrCancelled)
    || exists d :: FailedOn(a, b, x, d)
  }

  predicate FailedOn(a: Items, b: Items, x: Id, d: Id)
    requires b.Keys == a.Keys && x in a
  {
    && d in a && x in a[d].dependents && !a[d].finished && Ended(b, d)
    && b[x] == a[x].(finished := true, state := TaskState.Failed, err := Because(b, d))
  }

  lemma AbandonedTrans(a: Items, b: Items, c: Items, x: Id)
    requires AllEvolved(a, b) && AllEvolved(b, c) && x in a && Abandoned(a, b, x) && Abandoned(b, c, x)
    ensures Abandoned(a, c, x)
  {
    assert Evolved(a[x], b[x]) && Evolved(b[x], c[x]);
    if d :| FailedOn(a, b, x, d) {
      assert Evolved(b[d], c[d]);
      assert FailedOn(a, c, x, d);
    } else if d :| FailedOn(b, c, x, d) {
      assert Evolved(a[d], b[d]);
      assert b[x] == a[x] && FailedOn(a, c, x, d);
    }
  }

  lemma BlamedFailed(items: Items, r: Items, id: Id, x: Id, p: Id)
    requires r.Keys == items.Keys && x in items && id in items && !items[id].finished && Blamed(items, r, id, x, p)
    ensures FailedOn(items, r, x, p)
  {
  }

  lemma {:induction false} FinalizedAbandons(items: Items, id: Id, x: Id)
    requires id in items && x in items
    ensures Abandoned(items, FinalizeLocked(items, id, Cancelled, ErrCancelled), x)
  {
    var r := FinalizeLocked(items, id, Cancelled, ErrCancelled);
    if !items[id].finished {
      CascadeExact(items, id, Cancelled, ErrCancelled);
      if x != id && Reaches(items, id, x) {
        var p :| Blamed(items, r, id, x, p);
        BlamedFailed(items, r, id, x, p);
      }
    }
  }

  lemma {:induction false} ForceAbandons(c: Core, order: seq<Id>, x: Id)
    requires (forall y :: y in order ==> y in c.items) && x in c.items
    ensures Abandoned(c.items, ForceLoop(c, order).items, x)
    decreases |order|
  {
    if order != [] {
      var mid := FinalizeCore(c, order[0], Cancelled, ErrCancelled);
      FinalizedAbandons(c.items, order[0], x);
      ForceAbandons(mid, order[1..], x);
      AbandonedTrans(c.items, mid.items, ForceLoop(mid, order[1..]).items, x);
    }
  }

  lemma {:induction false} ExitAbandons(c: Core, order: seq<Id>, x: Id)
    requires (forall y :: y in order ==> y in c.items) && x in c.items
    ensures Abandoned(c.items, ExitLoop(c, order).items, x)
    decreases |order|
  {
    if order != [] {
      var mid := ExitOne(c, order[0]);
      FinalizedAbandons(c.items, order[0], x);
      ExitAbandons(mid, order[1..], x);
      AbandonedTrans(c.items, mid.items, ExitLoop(mid, order[1..]).items, x);
    }
  }

  /** A timed-out Shutdown ends every task still open: as Cancelled, or as Failed on a
      dependency that it has ended; finished ones are as they were. */
  lemma {:induction false} TimedOutOutcome(s: Sys, order: seq<Id>, x: Id)
    requires Enabled(s, TimedOutShutdown(order)) && x in s.core.items
    ensures var a, b := s.core.items, Apply(s, TimedOutShutdown(order)).core.items;
      && b.Keys == a.Keys && Abandoned(a, b, x) && b[x].finished && (a[x].finished ==> b[x] == a[x])
  {
    ForceAbandons(s.core, order, x);
    ForceFinishes(s.core, order, x);
  }

  /** The scheduler on its way out does so to the tasks that no worker has; one at work or
      paused it leaves to its worker. */
  lemma {:induction false} SchedulerExitOutcome(s: Sys, order: seq<Id>, x: Id)
    requires LiveState(s) && Enabled(s, SchedulerExit(order)) && x in s.core.items
    ensures var a, b := s.core.items, Apply(s, SchedulerExit(order)).core.items;
      && b.Keys == a.Keys && Abandoned(a, b, x) && (a[x].finished ==> b[x] == a[x])
      && (if a[x].inFlight && (a[x].state.Running? || a[x].state.Paused?) then b[x] == a[x]
          else a[x].inFlight || b[x].finished)
  {
    var c := s.core.(started := false);
    ExitAbandons(c, order, x);
    assert TaskOwned(s, x);
    if !c.items[x].finished && !c.items[x].inFlight { ExitFinishes(c, order, x); }
    if c.items[x].inFlight && !Idle(c.items[x].state) { ExitSpares(c, order, x); }
  }

  lemma {:induction false} ExitSpares(c: Core, order: seq<Id>, x: Id)
    requires (forall y :: y in order ==> y in c.items) && x in c.items && c.items[x].inFlight && !Idle(c.items[x].state)
    ensures ExitLoop(c, order).items[x] == c.items[x]
    decreases |order|
  {
    if order != [] {
      var y := order[0];
      if y != x && !c.items[y].finished {
        CascadeExact(c.items, y, Cancelled, ErrCancelled);
        if Reaches(c.items, y, x) { ReachedOpen(c.items, y, x); }
      }
      ExitSpares(ExitOne(c, y), order[1..], x);
    }
  }

  /** A cascade reaches only open tasks. */
  lemma ReachedOpen(items: Items, y: Id, x: Id)
    requires y != x && Reaches(items, y, x)
    ensures Open(items, x)
  {
    var p :| Chain(items, p) && p[0] == y && p[|p| - 1] == x;
    assert Edge(items, p[|p| - 2], p[|p| - 1]);
  }
}
