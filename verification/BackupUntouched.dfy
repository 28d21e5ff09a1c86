/** When a worker that has lost its task to a retry can no longer touch the new run.

    Being on its way out is not enough: a worker that has passed its last test may still
    finish the new run, even as Completed, or mark it Waiting. The exact condition is that
    retries meet only workers that will test the generation, or leave, before they act. */
module BackupUntouched {
  import opened BackupTasks
  import opened BackupEngine
  import opened BackupProtocol
  import opened BackupCascade
  import opened BackupDependencies
  import opened BackupLifecycle
  import opened BackupScenes

  /** A worker that tests the generation before it acts, or acts no more. */
  predicate Harmless(pc: WorkerPc) {
    pc.AtTop? || pc.AtOwnerCheck? || pc.AtReturnCheck? || pc.AtBackoff? || pc.AtCancelCheck? || pc.AtExit?
  }

  predicate Stale(s: Sys, w: WorkerId) {
    w in s.workers && w.0 in s.core.items && w.1 != s.core.items[w.0].generation
  }

  /** No section of a stale worker changes anything the engine guards. */
  ghost predicate Untouched(s: Sys) {
    forall w, choice :: Stale(s, w) && Enabled(s, Worker(w, choice)) ==> Apply(s, Worker(w, choice)).core == s.core
  }

  // ----------------------------------------- runs that meet harmless workers only

  /** A worker has the current generation or is harmless. */
  predicate Spent(s: Sys, w: WorkerId)
    requires w in s.workers
  {
    w.0 in s.core.items && (w.1 == s.core.items[w.0].generation || Harmless(s.workers[w]))
  }

  ghost predicate AllSpent(s: Sys) {
    forall w {:trigger Spent(s, w)} :: w in s.workers ==> Spent(s, w)
  }

  lemma SpentUntouched(s: Sys)
    requires AllSpent(s)
    ensures Untouched(s)
  {
    forall w, choice | Stale(s, w) && Enabled(s, Worker(w, choice))
      ensures Apply(s, Worker(w, choice)).core == s.core
    {
      assert Spent(s, w);
    }
  }

  /** The tasks there were keep their generations. */
  ghost predicate SameGenerations(before: Items, after: Items) {
    forall x :: x in before ==> x in after && after[x].generation == before[x].generation
  }

  lemma EvolvedGenerations(before: Items, after: Items)
    requires AllEvolved(before, after)
    ensures SameGenerations(before, after)
  {
  }

  lemma SubmitGenerations(c: Core, t: Task)
    ensures SameGenerations(c.items, SubmitCore(c, t).items)
  {
    if SubmitVerdict(c, t).Accepted? {
      var g := Register(Registration(c.items, 0, NoError), t.id, t.dependsOn);
      RegisterOk(c.items, t.id, t.dependsOn);
      var added := g.items[t.id := NewItem(t, g)];
      forall x | x in c.items ensures added[x].generation == c.items[x].generation {
        assert SameTask(c.items[x], g.items[x]);
      }
      if !g.depErr.NoError? {
        EvolvedGenerations(added, FinalizeLocked(added, t.id, Failed, g.depErr));
      }
    }
  }

  lemma WorkerGenerations(c: Core, w: WorkerId, pc: WorkerPc)
    requires w.0 in c.items
    ensures SameGenerations(c.items, WorkerCore(c, w.0, w.1, pc).items)
  {
    if pc.AtFinalize? { EvolvedGenerations(c.items, FinalizeLocked(c.items, w.0, pc.st, pc.err)); }
  }

  /** Only retries and launches give a task a new generation. */
  lemma StepGenerations(s: Sys, step: Step)
    requires Enabled(s, step) && !step.Retry? && !step.Pass?
    ensures SameGenerations(s.core.items, Apply(s, step).core.items)
  {
    var after := Apply(s, step).core.items;
    if step.Submit? {
      SubmitGenerations(s.core, step.t);
    } else if step.Worker? {
      WorkerGenerations(s.core, step.w, s.workers[step.w]);
    } else if step.Pause? || step.Resume? {
      assert SameGenerations(s.core.items, after);
    } else {
      StepEvolves(s, step);
      EvolvedGenerations(s.core.items, after);
    }
  }

  /** The other sections at most finish tasks. */
  lemma StepEvolves(s: Sys, step: Step)
    requires Enabled(s, step) && !step.Retry? && !step.Pass? && !step.Submit? && !step.Worker?
    requires !step.Pause? && !step.Resume?
    ensures AllEvolved(s.core.items, Apply(s, step).core.items)
  {
    assert AllEvolved(s.core.items, s.core.items);
  }

  lemma WorkerSpent(s: Sys, w: WorkerId, choice: Choice)
    requires AllSpent(s) && Enabled(s, Worker(w, choice))
    ensures AllSpent(WorkerApply(s, w, choice))
  {
    var after := WorkerApply(s, w, choice);
    WorkerGenerations(s.core, w, s.workers[w]);
    forall v | v in after.workers ensures Spent(after, v) {
      assert Spent(s, v);
      if v == w { NextHarmless(s.core.items[w.0], w.1, s.workers[w], choice); }
    }
  }

  /** A stale worker that is harmless stays so. */
  lemma NextHarmless(it: Item, gen: nat, pc: WorkerPc, choice: Choice)
    ensures it.generation != gen && Harmless(pc) ==> Harmless(NextPc(it, gen, pc, choice))
  {
  }

  /** A launch leaves no worker behind: a task in someone's hands is not ready. */
  lemma PassSpent(s: Sys)
    requires AllSpent(s) && Owned(s) && Enabled(s, Pass)
    ensures AllSpent(Apply(s, Pass))
  {
    var after := Apply(s, Pass);
    forall w | w in after.workers ensures Spent(after, w) {
      if w !in Launched(s.core.items) { assert Spent(s, w) && WorkerPlaced(s, w); }
    }
  }

  lemma RetrySpent(s: Sys, id: Id)
    requires AllSpent(s) && id in s.core.items && RetryMeets(Harmless, s, Retry(id))
    ensures AllSpent(s.(core := RetryCore(s.core, id)))
  {
    var after := s.(core := RetryCore(s.core, id));
    forall w | w in after.workers ensures Spent(after, w) {
      assert Spent(s, w);
    }
  }

  lemma SpentStep(s: Sys, step: Step)
    requires LiveState(s) && AllSpent(s) && Enabled(s, step) && RetryMeets(Harmless, s, step)
    ensures AllSpent(Apply(s, step))
  {
    if step.Worker? {
      WorkerSpent(s, step.w, step.choice);
    } else if step.Pass? {
      PassSpent(s);
    } else if step.Retry? {
      RetrySpent(s, step.id);
    } else {
      StepGenerations(s, step);
      OtherSlots(s, step);
      forall w | w in Apply(s, step).workers ensures Spent(Apply(s, step), w) {
        assert Spent(s, w);
      }
    }
  }

  lemma {:induction false} RunSpent(s: Sys, steps: seq<Step>)
    requires SafeState(s) && LiveState(s) && AllSpent(s) && IsRun(s, steps) && RetriesMeet(Harmless, s, steps)
    ensures AllSpent(After(s, steps))
    decreases |steps|
  {
    if steps != [] {
      StepKeeps(s, steps[0]);
      LiveStep(s, steps[0]);
      SpentStep(s, steps[0]);
      RunSpent(Apply(s, steps[0]), steps[1..]);
    }
  }

  // -------------------------------------------------------- a touch for the rest

  /** The worker, met at `pc` by a retry, changes the new run in its next section. */
  lemma TouchNow(ok: WorkerPc -> bool, sc: Scene, it: Item, pc: WorkerPc)
    requires Reached(ok, sc, it, pc) && Rearmed(sc, it)
    requires pc.AtFinalize? || (!pc.AtExit? && Touched(it, pc) != it)
    ensures exists t :: Leads(ok, Init(sc.capacity), t) && !Untouched(t)
  {
    var t := Show(sc, it, pc);
    assert Stale(t, sc.w) && Enabled(t, Worker(sc.w, Abort));
    if pc.AtFinalize? {
      assert Apply(t, Worker(sc.w, Abort)).core.items[A].finished;
    } else {
      ShowStep(sc, it, pc, Abort);
      assert Apply(t, Worker(sc.w, Abort)).core.items[A] == Touched(it, pc);
    }
    assert !Untouched(t);
  }

  /** From a worker past its last test, or at work, to one that touches. */
  lemma TouchFrom(ok: WorkerPc -> bool, sc: Scene, it: Item, pc: WorkerPc)
    requires Reached(ok, sc, it, pc) && Rearmed(sc, it) && it.state.Pending? && !Harmless(pc)
    ensures exists t :: Leads(ok, Init(sc.capacity), t) && !Untouched(t)
  {
    if pc.AtFinalize? || pc.AtRetryMark? {
      TouchNow(ok, sc, it, pc);
    } else if pc.AtReturnFinished? {
      Go(ok, sc, it, pc, Proceed);
      TouchNow(ok, sc, it, AfterWork(it, pc.n, pc.outcome));
    } else {
      var q, b := MarkFrom(ok, sc, it, pc);
      TouchNow(ok, sc, q, AtResumeMark(b));
    }
  }

  /** The outcome of the work function that leads to a finalization, and the limit. */
  function OutcomeOf(st: TaskState): Outcome {
    if st.Completed? then Succeeded
    else if st.Cancelled? then CtxCancelled
    else if st.TimedOut? then DeadlineExceeded
    else WorkFailed
  }

  /** The limit of retries with which a point is reached. */
  function LimitFor(pc: WorkerPc): nat {
    if pc.AtFinalize? then 0 else NumberOf(pc) + 1
  }

  /** Every point that is not harmless is reached by some run. */
  lemma VisitHarmful(ok: WorkerPc -> bool, sc: Scene, it: Item, pc: WorkerPc) returns (p: Item)
    requires Opening(ok, sc, it) && Real(pc) && !Harmless(pc) && it.retryLimit == LimitFor(pc)
    ensures Reached(ok, sc, p, pc) && InHand(sc, p)
  {
    if pc.AtFinalize? {
      p := VisitEnd(ok, sc, it, pc);
    } else if pc.AtRetryMark? {
      p := VisitWork(ok, sc, it, 1);
      FailOnce(ok, sc, p, 1);
    } else if pc.AtReturnFinished? {
      p := VisitWork(ok, sc, it, pc.n);
      ReturnWith(ok, sc, p, pc.n, pc.outcome);
    } else {
      p := VisitAny(ok, sc, it, pc);
    }
  }

  lemma VisitEnd(ok: WorkerPc -> bool, sc: Scene, it: Item, pc: WorkerPc) returns (p: Item)
    requires Opening(ok, sc, it) && pc.AtFinalize? && Ends(pc.st, pc.err) && it.retryLimit == 0
    ensures Reached(ok, sc, p, pc) && InHand(sc, p)
  {
    p := VisitWork(ok, sc, it, 1);
    ReturnWith(ok, sc, p, 1, OutcomeOf(pc.st));
    EndsAs(p, pc);
    Go(ok, sc, p, AtReturnFinished(1, OutcomeOf(pc.st)), Proceed);
  }

  lemma EndsAs(it: Item, pc: WorkerPc)
    requires pc.AtFinalize? && Ends(pc.st, pc.err) && it.retryLimit == 0
    ensures AfterWork(it, 1, OutcomeOf(pc.st)) == pc
  {
  }

  lemma Touching(ok: WorkerPc -> bool, capacity: nat, pc: WorkerPc)
    requires capacity > 0 && Real(pc) && !Harmless(pc) && ok(pc)
    ensures exists t :: Leads(ok, Init(capacity), t) && !Untouched(t)
  {
    var sc := First(capacity);
    Begin(ok, capacity, LimitFor(pc));
    var it := VisitHarmful(ok, sc, LaunchItem(Submitted(LimitFor(pc))), pc);
    FailAndRetry(ok, sc, it, pc);
    assert sc.(wake := true) == sc;
    TouchFrom(ok, sc, Retried(it), pc);
  }

  /** In a run whose only retry meets a worker on its way out, the new run ends Completed
      although its work function was never called. */
  lemma CompletedUnrun(capacity: nat)
    requires capacity > 0
    ensures exists t ::
      && Leads(Leaving, Init(capacity), t) && A in t.core.items && t.core.items[A].state.Completed?
      && t.core.items[A].retried && t.core.items[A].attempt == 0 && t.core.items[A].generation == 2
  {
    var sc, pc := First(capacity), AtFinalize(Completed, NoError);
    Begin(Leaving, capacity, 0);
    var it := VisitEnd(Leaving, sc, LaunchItem(Submitted(0)), pc);
    FailAndRetry(Leaving, sc, it, pc);
    assert sc.(wake := true) == sc;
    var s := Show(sc, Retried(it), pc);
    var t := Apply(s, Worker(sc.w, Proceed));
    CompletionExact(s.core.items, A, NoError);
    Then(Leaving, Init(capacity), s, Worker(sc.w, Proceed), t);
  }

  // ------------------------------------------------------------------- theorem

  ghost predicate UntouchedUnder(ok: WorkerPc -> bool) {
    forall capacity: nat, t :: Leads(ok, Init(capacity), t) ==> Untouched(t)
  }

  ghost predicate OnlyHarmless(ok: WorkerPc -> bool) {
    forall pc :: Real(pc) && ok(pc) ==> Harmless(pc)
  }

  lemma UntouchedWhen(ok: WorkerPc -> bool, capacity: nat, t: Sys)
    requires OnlyHarmless(ok) && Leads(ok, Init(capacity), t)
    ensures Untouched(t)
  {
    var s := Init(capacity);
    var steps :| IsRun(s, steps) && RetriesMeet(ok, s, steps) && After(s, steps) == t;
    MeetsReal(ok, Harmless, s, steps);
    RunSpent(s, steps);
    SpentUntouched(t);
  }

  /** The exact condition: over all runs, a worker that has lost its task changes nothing
      any more exactly if retries meet only workers that test the generation, or leave,
      before they act. */
  lemma ExactlyUntouched(ok: WorkerPc -> bool)
    ensures UntouchedUnder(ok) <==> OnlyHarmless(ok)
  {
    if pc :| Real(pc) && ok(pc) && !Harmless(pc) {
      Touching(ok, 1, pc);
      var t :| Leads(ok, Init(1), t) && !Untouched(t);
    } else {
      forall capacity: nat, t | Leads(ok, Init(capacity), t) ensures Untouched(t) {
        UntouchedWhen(ok, capacity, t);
      }
    }
  }
}
