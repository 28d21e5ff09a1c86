/** The exact condition for lost wake-ups. The scheduler sleeps through a ready task only
    if a worker that has lost the task still marks it Waiting, and another one has marked
    it before: so retries must meet no worker that is about to mark a task Waiting, or
    none that is not on its way out. */
module BackupWakeUps {
  import opened BackupTasks
  import opened BackupEngine
  import opened BackupProtocol
  import opened BackupDependencies
  import opened BackupLifecycle
  import opened BackupScenes
  import opened BackupStaleWorker

  /** A worker that will mark its task Waiting without looking at it again. */
  predicate Marker(pc: WorkerPc) {
    pc.AtRetryMark? || (pc.AtReturnFinished? && (pc.outcome.WorkFailed? || pc.outcome.DeadlineExceeded?))
  }

  predicate NoMarker(pc: WorkerPc) {
    !Marker(pc)
  }

  // -------------------------------------------------- runs that meet no marker

  /** A worker with the task's generation has the task; a marker has that generation. */
  predicate Keeper(s: Sys, w: WorkerId)
    requires w in s.workers
  {
    && w.0 in s.core.items && (w.1 == s.core.items[w.0].generation ==> s.core.items[w.0].inFlight)
    && (Marker(s.workers[w]) ==> w.1 == s.core.items[w.0].generation)
  }

  ghost predicate Keepers(s: Sys) {
    forall w {:trigger Keeper(s, w)} :: w in s.workers ==> Keeper(s, w)
  }

  ghost predicate Alert(s: Sys) {
    ControlOk(s) && Awake(s) && Keepers(s)
  }

  /** The same tasks in the same hands. */
  ghost predicate SameHands(before: Items, after: Items) {
    forall x :: x in before ==>
      x in after && after[x].inFlight == before[x].inFlight && after[x].generation == before[x].generation
  }

  lemma HandsKeep(s: Sys, core: Core)
    requires Keepers(s) && SameHands(s.core.items, core.items)
    ensures Keepers(s.(core := core))
  {
    var t := s.(core := core);
    forall w | w in t.workers ensures Keeper(t, w) {
      assert Keeper(s, w);
    }
  }

  lemma EvolvedHands(before: Items, after: Items)
    requires AllEvolved(before, after)
    ensures SameHands(before, after)
  {
  }

  /** A section that leaves the hands alone and wakes the scheduler or readies nothing. */
  lemma CoreAlert(s: Sys, core: Core)
    requires Alert(s) && core.items.Keys == s.core.items.Keys && SameHands(s.core.items, core.items)
    requires core.started == s.core.started && core.closed == s.core.closed && core.wakeMade == s.core.wakeMade
    requires core.wake || (s.core.wake == core.wake
      && forall x :: x in core.items && Ready(core.items[x]) ==> Ready(s.core.items[x]))
    ensures Alert(s.(core := core))
  {
    HandsKeep(s, core);
    SameKeysControl(s, core);
    KeptAwake(s, core);
  }

  lemma FinalizeAlert(s: Sys, id: Id, st: TaskState, err: Error)
    requires Alert(s) && id in s.core.items
    ensures Alert(s.(core := FinalizeCore(s.core, id, st, err)))
  {
    EvolvedHands(s.core.items, FinalizeLocked(s.core.items, id, st, err));
    if !s.core.items[id].finished { CoreAlert(s, FinalizeCore(s.core, id, st, err)); }
  }

  lemma UpdateAlert(s: Sys, x: Id, it: Item)
    requires Alert(s) && x in s.core.items
    requires it.inFlight == s.core.items[x].inFlight && it.generation == s.core.items[x].generation
    requires Ready(it) ==> Ready(s.core.items[x])
    ensures Alert(s.(core := s.core.(items := s.core.items[x := it])))
  {
    CoreAlert(s, s.core.(items := s.core.items[x := it]));
  }

  lemma WakeAlert(s: Sys)
    requires Alert(s)
    ensures Alert(s.(core := Wake(s.core)))
  {
    CoreAlert(s, Wake(s.core));
  }

  lemma CancelAlert(s: Sys, id: Id)
    requires Alert(s) && id in s.core.items
    ensures Alert(s.(core := CancelCore(s.core, id)))
  {
    FinalizeAlert(s, id, Cancelled, ErrCancelled);
    WakeAlert(s);
    WakeAlert(s.(core := FinalizeCore(s.core, id, Cancelled, ErrCancelled)));
  }

  lemma SubmitAlert(s: Sys, t: Task)
    requires Alert(s) && SafeState(s)
    ensures Alert(s.(core := SubmitCore(s.core, t)))
  {
    if SubmitVerdict(s.core, t).Accepted? {
      var g := Register(Registration(s.core.items, 0, NoError), t.id, t.dependsOn);
      RegisterOk(s.core.items, t.id, t.dependsOn);
      var added := s.(core := Wake(s.core.(items := g.items[t.id := NewItem(t, g)])));
      forall x | x in s.core.items
        ensures g.items[x].inFlight == s.core.items[x].inFlight && g.items[x].generation == s.core.items[x].generation
      {
        assert SameTask(s.core.items[x], g.items[x]);
      }
      HandsKeep(s, added.core);
      if !g.depErr.NoError? { FinalizeAlert(added, t.id, Failed, g.depErr); }
    }
  }

  lemma RetryAlert(s: Sys, id: Id)
    requires Alert(s) && SafeState(s) && id in s.core.items && RetryMeets(NoMarker, s, Retry(id))
    ensures Alert(s.(core := RetryCore(s.core, id)))
  {
    if RetryVerdict(s.core, id).Accepted? {
      var after := s.(core := RetryCore(s.core, id));
      forall w | w in after.workers ensures Keeper(after, w) {
        assert Keeper(s, w) && WorkerOk(s.core.items, w, s.workers[w]);
      }
      SameKeysControl(s, after.core);
    }
  }

  lemma PassAlert(s: Sys)
    requires Alert(s) && SafeState(s) && Enabled(s, Pass)
    ensures Alert(Apply(s, Pass))
  {
    var after := Apply(s, Pass);
    forall w | w in after.workers ensures Keeper(after, w) {
      if w !in Launched(s.core.items) {
        assert Keeper(s, w) && WorkerOk(s.core.items, w, s.workers[w]);
      }
    }
    SameKeysControl(s, after.core);
  }

  /** What a worker does to the record of its task readies nothing. */
  lemma WorkerCoreAlert(s: Sys, w: WorkerId)
    requires Alert(s) && w in s.workers && !s.workers[w].AtExit?
    requires w.0 in s.core.items
    ensures Alert(s.(core := WorkerCore(s.core, w.0, w.1, s.workers[w])))
  {
    var id, it, pc := w.0, s.core.items[w.0], s.workers[w];
    assert Keeper(s, w);
    if Marks(pc) {
      if !it.finished && it.state != MarkOf(pc) { UpdateAlert(s, id, it.(state := MarkOf(pc))); }
    } else if pc.AtAttempt? {
      UpdateAlert(s, id, it.(attempt := it.attempt + 1));
    } else if pc.AtFinalize? {
      FinalizeAlert(s, id, pc.st, pc.err);
    }
  }

  lemma WorkerAlert(s: Sys, w: WorkerId, choice: Choice)
    requires Alert(s) && SafeState(s) && Enabled(s, Worker(w, choice))
    ensures Alert(WorkerApply(s, w, choice))
  {
    var pc, after := s.workers[w], WorkerApply(s, w, choice);
    assert WorkerOk(s.core.items, w, pc) && Keeper(s, w);
    if pc.AtExit? {
      ExitAlert(s, w);
    } else {
      WorkerCoreAlert(s, w);
      MoveAlert(s, w, choice);
    }
  }

  lemma MoveAlert(s: Sys, w: WorkerId, choice: Choice)
    requires Alert(s) && Enabled(s, Worker(w, choice)) && !s.workers[w].AtExit?
    requires Alert(s.(core := WorkerCore(s.core, w.0, w.1, s.workers[w])))
    ensures Alert(WorkerApply(s, w, choice))
  {
    var after := WorkerApply(s, w, choice);
    var mid := s.(core := WorkerCore(s.core, w.0, w.1, s.workers[w]));
    forall v | v in after.workers ensures Keeper(after, v) {
      assert Keeper(mid, v) && Keeper(s, v);
      MarkerKeeps(s, w, choice);
    }
  }

  /** A worker becomes a marker only while it has the task. */
  lemma MarkerKeeps(s: Sys, w: WorkerId, choice: Choice)
    requires Enabled(s, Worker(w, choice)) && Keeper(s, w) && !s.workers[w].AtExit?
    ensures Marker(NextPc(s.core.items[w.0], w.1, s.workers[w], choice)) ==> w.1 == s.core.items[w.0].generation
  {
  }

  lemma ExitAlert(s: Sys, w: WorkerId)
    requires Alert(s) && w in s.workers && s.workers[w].AtExit? && WorkerOk(s.core.items, w, AtExit)
    ensures Alert(s.(core := WorkerCore(s.core, w.0, w.1, AtExit), workers := s.workers - {w}))
  {
    var after := s.(core := WorkerCore(s.core, w.0, w.1, AtExit), workers := s.workers - {w});
    forall v | v in after.workers ensures Keeper(after, v) {
      assert Keeper(s, v);
    }
    SameKeysControl(s, after.core);
    KeptAwake(s, after.core);
  }

  lemma LoopAlert(s: Sys, step: Step)
    requires Alert(s) && Enabled(s, step) && (step.SchedulerExit? || step.TimedOutShutdown?)
    ensures Alert(Apply(s, step))
  {
    var after := Apply(s, step);
    EvolvedHands(s.core.items, after.core.items);
    HandsKeep(s, after.core);
    forall w | w in after.workers ensures Keeper(after, w) {
      assert Keeper(s.(core := after.core), w);
    }
    if step.SchedulerExit? {
      ExitFlags(s.core.(started := false), step.order);
    } else {
      ForceFlags(s.core, step.order);
      SameKeysControl(s, after.core);
      forall x | x in after.core.items ensures after.core.items[x].finished {
        ForceFinishes(s.core, step.order, x);
      }
    }
  }

  lemma ControlAlert(s: Sys, step: Step)
    requires Alert(s) && Enabled(s, step)
    requires step.Start? || step.TakeWake? || step.TakeStop? || step.Shutdown? || step.Drained?
    ensures Alert(Apply(s, step))
  {
    var after := Apply(s, step);
    forall w | w in after.workers ensures Keeper(after, w) {
      assert Keeper(s, w);
    }
  }

  lemma AlertStep(s: Sys, step: Step)
    requires SafeState(s) && Alert(s) && Enabled(s, step) && RetryMeets(NoMarker, s, step)
    ensures Alert(Apply(s, step))
  {
    var c := s.core;
    match step
    case Submit(t) => SubmitAlert(s, t);
    case Cancel(id) => CancelAlert(s, id);
    case Pause(id) => UpdateAlert(s, id, c.items[id].(gatePaused := true));
    case Resume(id) => UpdateAlert(s, id, c.items[id].(gatePaused := false));
    case Retry(id) => RetryAlert(s, id);
    case WatcherCancel(id, gen) => CancelAlert(s, id);
    case WatcherFail(id, gen) => FinalizeAlert(s, id, Failed, TaskError);
    case Pass => PassAlert(s);
    case SchedulerExit(order) => LoopAlert(s, step);
    case Worker(w, choice) => WorkerAlert(s, w, choice);
    case TimedOutShutdown(order) => LoopAlert(s, step);
    case _ => ControlAlert(s, step);
  }

  lemma {:induction false} RunAlert(s: Sys, steps: seq<Step>)
    requires SafeState(s) && Alert(s) && IsRun(s, steps) && RetriesMeet(NoMarker, s, steps)
    ensures Alert(After(s, steps))
    decreases |steps|
  {
    if steps != [] {
      StepKeeps(s, steps[0]);
      AlertStep(s, steps[0]);
      RunAlert(Apply(s, steps[0]), steps[1..]);
    }
  }

  // ---------------------------------------------------------- a lost wake-up

  /** A ready task has the scheduler about to pass, or a token waiting for it. */
  ghost predicate Attended(t: Sys) {
    forall x :: x in t.core.items && Ready(t.core.items[x]) ==> t.stop || t.sched.AtPass? || (t.sched.AtSelect? && t.core.wake)
  }

  /** The second worker can be brought to any marker. */
  lemma VisitMarker(ok: WorkerPc -> bool, sc: Scene, it: Item, pc: WorkerPc) returns (p: Item)
    requires Opening(ok, sc, it) && Real(pc) && Marker(pc) && NumberOf(pc) < it.retryLimit
    ensures Visited(ok, sc, it.retryLimit, pc, p)
  {
    var n := if pc.AtRetryMark? then 1 else pc.n;
    p := VisitWork(ok, sc, it, n);
    if pc.AtRetryMark? {
      FailOnce(ok, sc, p, 1);
    } else {
      ReturnWith(ok, sc, p, n, pc.outcome);
    }
  }

  /** From there, over a run it has lost, it marks the task Waiting. */
  lemma MarkWaiting(ok: WorkerPc -> bool, sc: Scene, it: Item, pc: WorkerPc)
    requires Reached(ok, sc, it, pc) && Marker(pc) && Rearmed(sc, it) && NumberOf(pc) < it.retryLimit
    ensures Reached(ok, sc, it.(state := Waiting), AtBackoff)
  {
    if pc.AtReturnFinished? { Go(ok, sc, it, pc, Proceed); }
    Go(ok, sc, it, AtRetryMark, Proceed);
  }

  /** The same state seen from the other worker. */
  function Swapped(sc: Scene, v: WorkerId, pc: WorkerPc): Scene {
    sc.(others := map[sc.w := pc], w := v)
  }

  lemma SwapScene(ok: WorkerPc -> bool, sc: Scene, it: Item, v: WorkerId, pv: WorkerPc, pc: WorkerPc)
    requires Reached(ok, sc, it, pc) && sc.others == map[v := pv] && v.0 == A && v != sc.w
    ensures Reached(ok, Swapped(sc, v, pc), it, pv)
  {
    HeldOne(v, pv);
    HeldOne(sc.w, pc);
    assert map[v := pv][sc.w := pc] == map[sc.w := pc][v := pv];
    assert Show(sc, it, pc) == Show(Swapped(sc, v, pc), it, pv);
    assert |map[sc.w := pc]| == 1;
  }

  /** A pass that finds nothing ready takes the token and leaves the scheduler asleep. */
  lemma IdlePass(ok: WorkerPc -> bool, sc: Scene, it: Item, pc: WorkerPc)
    requires Reached(ok, sc, it, pc) && sc.wake && !Ready(it)
    ensures Reached(ok, sc.(wake := false), it, pc)
  {
    var s0 := Show(sc, it, pc);
    var s1 := s0.(core := s0.core.(wake := false), sched := AtPass);
    Then(ok, Init(sc.capacity), s0, TakeWake, s1);
    LaunchOnly(it);
    assert s1.workers + map[] == s1.workers;
    Then(ok, Init(sc.capacity), s1, Pass, Show(sc.(wake := false), it, pc));
  }

  /** Both workers are met by the second retry. */
  lemma RetryBoth(ok: WorkerPc -> bool, pc: WorkerPc, m: WorkerPc, limit: nat) returns (r: Item)
    requires Real(pc) && !Leaving(pc) && ok(pc) && Real(m) && Marker(m) && ok(m)
    requires NumberOf(pc) <= limit && NumberOf(m) < limit
    ensures Reached(ok, Second(pc).(wake := true), r, m) && Rearmed(Second(pc), r) && r.depsPending == 0
    ensures r.generation == 4 && r.retryLimit == limit && !r.state.Running?
  {
    var it := LaunchSecond(ok, limit, pc);
    var p := VisitMarker(ok, Second(pc), it, m);
    FailAndRetry(ok, Second(pc), p, m);
    r := Retried(p);
  }

  /** The first worker marks the new run Running, the scheduler finds nothing to do and
      goes to sleep, and the second worker marks the run Waiting: it is ready, and nobody
      is told. */
  lemma LosesWakeUp(ok: WorkerPc -> bool, pc: WorkerPc, m: WorkerPc) returns (t: Sys)
    requires Real(pc) && !Leaving(pc) && ok(pc) && Real(m) && Marker(m) && ok(m)
    ensures Leads(ok, Init(2), t) && !Attended(t)
  {
    var limit := NumberOf(pc) + NumberOf(m) + 2;
    var r := RetryBoth(ok, pc, m, limit);
    var one := Scene(2, true, map[(A, 3) := m], (A, 1));
    SwapScene(ok, Second(pc).(wake := true), r, (A, 1), pc, m);
    var p, q := MarkedAsleep(ok, one, r, pc);
    t := WaitingUnseen(ok, p, q, m);
  }

  lemma MarkedAsleep(ok: WorkerPc -> bool, sc: Scene, r: Item, pc: WorkerPc) returns (p: Item, q: WorkerPc)
    requires Reached(ok, sc, r, pc) && Rearmed(sc, r) && !Leaving(pc) && sc.wake && !r.state.Running?
    ensures Reached(ok, sc.(wake := false), p, q) && SameRun(r, p)
  {
    var b;
    p, b := MarkRunning(ok, sc, r, pc);
    q := ReturnTo(b);
    IdlePass(ok, sc, p, q);
  }

  lemma WaitingUnseen(ok: WorkerPc -> bool, p: Item, q: WorkerPc, m: WorkerPc) returns (t: Sys)
    requires Reached(ok, Scene(2, false, map[(A, 3) := m], (A, 1)), p, q) && Marker(m)
    requires !p.finished && !p.inFlight && p.dependents == [] && p.generation == 4 && p.depsPending == 0
    requires NumberOf(m) < p.retryLimit
    ensures Leads(ok, Init(2), t) && !Attended(t)
  {
    var one := Scene(2, false, map[(A, 3) := m], (A, 1));
    SwapScene(ok, one, p, (A, 3), m, q);
    var two := Swapped(one, (A, 3), q);
    MarkWaiting(ok, two, p, m);
    t := Show(two, p.(state := Waiting), AtBackoff);
    assert Ready(t.core.items[A]) && !Attended(t);
  }

  // ------------------------------------------------------------------- theorem

  ghost predicate AttendedUnder(ok: WorkerPc -> bool) {
    forall capacity: nat, t :: Leads(ok, Init(capacity), t) ==> Attended(t)
  }

  ghost predicate MeetsNoMarker(ok: WorkerPc -> bool) {
    forall pc :: Real(pc) && ok(pc) ==> NoMarker(pc)
  }

  lemma AttendedWhen(ok: WorkerPc -> bool, capacity: nat, t: Sys)
    requires Leads(ok, Init(capacity), t) && (OnlyLeaving(ok) || MeetsNoMarker(ok))
    ensures Attended(t)
  {
    if OnlyLeaving(ok) {
      LiveWhenLeaving(ok, capacity, t);
    } else {
      var s := Init(capacity);
      var steps :| IsRun(s, steps) && RetriesMeet(ok, s, steps) && After(s, steps) == t;
      MeetsReal(ok, NoMarker, s, steps);
      RunAlert(s, steps);
    }
  }

  /** The exact condition for wake-ups: none is lost exactly if retries meet only workers
      that are on their way out, or no worker that is about to mark its task Waiting. */
  lemma ExactlyAttended(ok: WorkerPc -> bool)
    ensures AttendedUnder(ok) <==> OnlyLeaving(ok) || MeetsNoMarker(ok)
  {
    if OnlyLeaving(ok) || MeetsNoMarker(ok) {
      forall capacity: nat, t | Leads(ok, Init(capacity), t) ensures Attended(t) {
        AttendedWhen(ok, capacity, t);
      }
    } else {
      var pc :| Real(pc) && ok(pc) && !Leaving(pc);
      var m :| Real(m) && ok(m) && !NoMarker(m);
      var t := LosesWakeUp(ok, pc, m);
    }
  }
}
