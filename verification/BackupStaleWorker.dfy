/** How far the condition on retries in the lifecycle theorems can be relaxed: not at all.

    A watcher may fail a task, or a client cancel one between two attempts, while its
    worker is inside the work function or about to enter it. If the task is then retried
    at once, the old worker's pause bookkeeping, which tests no generation, overwrites the
    new run's state with Running. No worker owns that run, the scheduler does not pick it,
    and a Shutdown that drains returns with the task still Running. Wherever the old
    worker stands, if it is not leaving there is such a run; and there is one in which it
    and the worker of the new run are both at work. */
module BackupStaleWorker {
  import opened BackupTasks
  import opened BackupEngine
  import opened BackupProtocol
  import opened BackupLifecycle
  import opened BackupScenes

  // ------------------------------------------------------- to the end of a run

  /** Finding itself stale, the worker leaves. */
  lemma FindStale(ok: WorkerPc -> bool, sc: Scene, it: Item, b: Back)
    requires Reached(ok, sc, it, ReturnTo(b)) && Rearmed(sc, it)
    ensures Reached(ok, sc, it, AtExit)
  {
    if b.ToTop? {
      Go(ok, sc, it, AtTop, Proceed);
      Go(ok, sc, it, AtOwnerCheck, Proceed);
    } else {
      Go(ok, sc, it, AtWork(b.n), Return(Succeeded));
      Go(ok, sc, it, AtReturnCheck(b.n, Succeeded), Proceed);
    }
  }

  /** The engine with the task that nobody has, and no worker. */
  function Deserted(capacity: nat, it: Item): Sys {
    Sys(Core(map[A := it], true, false, true, true), AtSelect, false, map[], 0, capacity, NotCalled)
  }

  lemma Leave(ok: WorkerPc -> bool, capacity: nat, it: Item)
    requires Reached(ok, First(capacity), it, AtExit) && Rearmed(First(capacity), it)
    ensures Leads(ok, Init(capacity), Deserted(capacity, it))
  {
    var s := Show(First(capacity), it, AtExit);
    HeldFew(map[]);
    assert s.workers - {(A, 1)} == map[];
    Then(ok, Init(capacity), s, Worker((A, 1), Proceed), Deserted(capacity, it));
  }

  /** Shutdown drains and returns over it. */
  lemma DrainOver(ok: WorkerPc -> bool, capacity: nat, it: Item)
    requires Leads(ok, Init(capacity), Deserted(capacity, it)) && !it.finished && it.state.Running?
    ensures exists t :: Leads(ok, Init(capacity), t) && t.shut.Returned? && A in t.core.items && t.core.items[A] == it
  {
    var s, s0 := Init(capacity), Deserted(capacity, it);
    var s1 := s0.(core := s0.core.(closed := true), stop := true, shut := Draining);
    Then(ok, s, s0, Shutdown, s1);
    var s2 := s1.(sched := AtSchedulerExit);
    Then(ok, s, s1, TakeStop, s2);
    var s3 := s2.(core := s2.core.(started := false), sched := SchedulerDone);
    assert ExitLoop(s3.core, [A]) == s3.core;
    Then(ok, s, s2, SchedulerExit([A]), s3);
    Then(ok, s, s3, Drained, s3.(shut := Returned));
  }

  lemma Breaking(ok: WorkerPc -> bool, capacity: nat, pc: WorkerPc) returns (t: Sys)
    requires capacity > 0 && Real(pc) && !Leaving(pc) && ok(pc)
    ensures Leads(ok, Init(capacity), t) && t.shut.Returned? && A in t.core.items
    ensures t.core.items[A].state.Running? && !t.core.items[A].finished
  {
    var sc, limit := First(capacity), NumberOf(pc);
    Begin(ok, capacity, limit);
    var it := VisitAny(ok, sc, LaunchItem(Submitted(limit)), pc);
    FailAndRetry(ok, sc, it, pc);
    assert sc.(wake := true) == sc;
    t := BreakingAfter(ok, capacity, Retried(it), pc);
  }

  lemma BreakingAfter(ok: WorkerPc -> bool, capacity: nat, it: Item, pc: WorkerPc) returns (t: Sys)
    requires Reached(ok, First(capacity), it, pc) && Rearmed(First(capacity), it) && !Leaving(pc) && !it.state.Running?
    ensures Leads(ok, Init(capacity), t) && t.shut.Returned? && A in t.core.items
    ensures t.core.items[A].state.Running? && !t.core.items[A].finished
  {
    var sc := First(capacity);
    var p, b := MarkRunning(ok, sc, it, pc);
    FindStale(ok, sc, p, b);
    Leave(ok, capacity, p);
    DrainOver(ok, capacity, p);
    t :| Leads(ok, Init(capacity), t) && t.shut.Returned? && A in t.core.items && t.core.items[A] == p;
  }

  // ------------------------------------------------------------------ shutdown

  function OnlyAt(pc: WorkerPc): WorkerPc -> bool {
    q => q == pc
  }

  /** Wherever a worker may stand, if it is not leaving, a run whose only retry meets it
      there ends with a drained Shutdown and a task that is still Running. */
  lemma RetryOverLiveWorkerBreaksShutdown(capacity: nat, pc: WorkerPc)
    requires capacity > 0 && Real(pc) && !Leaving(pc)
    ensures exists steps ::
      && IsRun(Init(capacity), steps) && RetriesMeet(OnlyAt(pc), Init(capacity), steps)
      && After(Init(capacity), steps).shut.Returned?
      && A in After(Init(capacity), steps).core.items
      && After(Init(capacity), steps).core.items[A].state.Running?
  {
    var ok := OnlyAt(pc);
    var t := Breaking(ok, capacity, pc);
    var steps :| IsRun(Init(capacity), steps) && RetriesMeet(ok, Init(capacity), steps) && After(Init(capacity), steps) == t;
  }

  /** A Shutdown that has returned leaves nothing unfinished, as long as retries meet
      workers at points in `ok` only. */
  ghost predicate FinalUnder(ok: WorkerPc -> bool) {
    forall capacity: nat, t :: Leads(ok, Init(capacity), t) && t.shut.Returned? ==> AllFinished(t.core.items)
  }

  ghost predicate OnlyLeaving(ok: WorkerPc -> bool) {
    forall pc :: Real(pc) && ok(pc) ==> Leaving(pc)
  }

  lemma NotFinal(ok: WorkerPc -> bool, pc: WorkerPc)
    requires Real(pc) && !Leaving(pc) && ok(pc)
    ensures !FinalUnder(ok)
  {
    var t := Breaking(ok, 1, pc);
    assert !AllFinished(t.core.items);
  }

  /** The states a run with leaving workers only can come to. */
  lemma LiveWhenLeaving(ok: WorkerPc -> bool, capacity: nat, t: Sys)
    requires OnlyLeaving(ok) && Leads(ok, Init(capacity), t)
    ensures LiveState(t)
  {
    var s := Init(capacity);
    var steps :| IsRun(s, steps) && RetriesMeet(ok, s, steps) && After(s, steps) == t;
    MeetsReal(ok, Leaving, s, steps);
    RunLive(s, steps);
  }

  /** The exact condition for Shutdown: of all conditions on where a retry may meet the
      old worker, those that make it final are those that allow leaving points only. */
  lemma ExactlyLeaving(ok: WorkerPc -> bool)
    ensures FinalUnder(ok) <==> OnlyLeaving(ok)
  {
    if pc :| Real(pc) && ok(pc) && !Leaving(pc) {
      NotFinal(ok, pc);
    } else {
      forall capacity: nat, t | Leads(ok, Init(capacity), t) && t.shut.Returned? ensures AllFinished(t.core.items) {
        LiveWhenLeaving(ok, capacity, t);
      }
    }
  }

  // --------------------------------------------------------------- single owner

  /** No two workers of one task are both at work. */
  ghost predicate OneAtWork(t: Sys) {
    forall v, w :: v in t.workers && w in t.workers && v.0 == w.0 && !Leaving(t.workers[v]) && !Leaving(t.workers[w])
      ==> v == w
  }

  ghost predicate SingleUnder(ok: WorkerPc -> bool) {
    forall capacity: nat, t :: Leads(ok, Init(capacity), t) ==> OneAtWork(t)
  }

  lemma NotSingle(ok: WorkerPc -> bool, pc: WorkerPc)
    requires Real(pc) && !Leaving(pc) && ok(pc)
    ensures !SingleUnder(ok)
  {
    var it := LaunchSecond(ok, NumberOf(pc), pc);
    ToGate(ok, Second(pc), it);
    var t := Show(Second(pc), it, AtGate);
    assert (A, 1) in t.workers && (A, 3) in t.workers && !OneAtWork(t);
  }

  /** The same condition is the exact one for a single owner. */
  lemma ExactlySingle(ok: WorkerPc -> bool)
    ensures SingleUnder(ok) <==> OnlyLeaving(ok)
  {
    if pc :| Real(pc) && ok(pc) && !Leaving(pc) {
      NotSingle(ok, pc);
    } else {
      forall capacity: nat, t | Leads(ok, Init(capacity), t) ensures OneAtWork(t) {
        LiveWhenLeaving(ok, capacity, t);
        forall v, w | v in t.workers && w in t.workers && v.0 == w.0 && !Leaving(t.workers[v]) && !Leaving(t.workers[w])
          ensures v == w
        {
          assert WorkerPlaced(t, v) && WorkerPlaced(t, w);
        }
      }
    }
  }
}
