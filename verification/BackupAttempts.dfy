/** How often the work function is called: in every run whose retries meet only workers on
    their way out, at most once more than the task allows retries, and a worker gives up on
    a failing task exactly then. */
module BackupAttempts {
  import opened BackupTasks
  import opened BackupEngine
  import opened BackupProtocol
  import opened BackupDependencies
  import opened BackupLifecycle
  import opened BackupUntouched

  /** The attempts made when the task's worker stands at `pc`. */
  predicate Tries(it: Item, pc: WorkerPc) {
    match pc
    case AtWork(n) => InAttempt(it, n)
    case AtReturnCheck(n, _) => InAttempt(it, n)
    case AtReturnFinished(n, _) => InAttempt(it, n)
    case AtPauseCheck(b) => InPause(it, b)
    case AtPauseMark(b) => InPause(it, b)
    case AtPauseWait(b) => InPause(it, b)
    case AtResumeCheck(b) => InPause(it, b)
    case AtResumeMark(b) => InPause(it, b)
    case AtFinalize(st, _) => st.Failed? || st.TimedOut? ==> it.attempt == it.retryLimit + 1
    case AtCancelCheck => true
    case AtExit => true
    case _ => it.attempt <= it.retryLimit
  }

  predicate InAttempt(it: Item, n: nat) {
    1 <= n == it.attempt <= it.retryLimit + 1
  }

  predicate InPause(it: Item, b: Back) {
    match b
    case ToTop => it.attempt <= it.retryLimit
    case ToWork(n) => InAttempt(it, n)
  }

  predicate WorkerTries(s: Sys, w: WorkerId)
    requires w in s.workers
  {
    w.0 in s.core.items && (w.1 == s.core.items[w.0].generation ==> Tries(s.core.items[w.0], s.workers[w]))
  }

  predicate TaskTries(it: Item) {
    it.attempt <= it.retryLimit + 1 && (!it.inFlight && !it.finished ==> it.attempt == 0)
  }

  ghost predicate AllTry(s: Sys) {
    && (forall x {:trigger TaskTries(s.core.items[x])} :: x in s.core.items ==> TaskTries(s.core.items[x]))
    && (forall w {:trigger WorkerTries(s, w)} :: w in s.workers ==> WorkerTries(s, w))
  }

  // ----------------------------------------------------------------- sections

  /** Changes of a record that the count does not notice. */
  predicate SameCount(a: Item, b: Item) {
    && b.attempt == a.attempt && b.retryLimit == a.retryLimit && b.generation == a.generation
    && b.inFlight == a.inFlight && (a.finished ==> b.finished)
  }

  ghost predicate AllSameCount(before: Items, after: Items) {
    after.Keys == before.Keys && forall x :: x in before ==> SameCount(before[x], after[x])
  }

  lemma SameCountTry(s: Sys, core: Core)
    requires AllTry(s) && AllSameCount(s.core.items, core.items)
    ensures AllTry(s.(core := core))
  {
    var t := s.(core := core);
    forall x | x in core.items ensures TaskTries(core.items[x]) {
      assert TaskTries(s.core.items[x]) && SameCount(s.core.items[x], core.items[x]);
    }
    forall w | w in t.workers ensures WorkerTries(t, w) {
      assert WorkerTries(s, w) && SameCount(s.core.items[w.0], core.items[w.0]);
    }
  }

  lemma EvolvedCount(before: Items, after: Items)
    requires AllEvolved(before, after)
    ensures AllSameCount(before, after)
  {
  }

  lemma SubmitTry(s: Sys, t: Task)
    requires SafeState(s) && AllTry(s)
    ensures AllTry(s.(core := SubmitCore(s.core, t)))
  {
    if SubmitVerdict(s.core, t).Accepted? {
      var g := Register(Registration(s.core.items, 0, NoError), t.id, t.dependsOn);
      RegisterOk(s.core.items, t.id, t.dependsOn);
      var added := s.(core := s.core.(items := g.items[t.id := NewItem(t, g)]));
      forall x | x in added.core.items ensures TaskTries(added.core.items[x]) {
        if x != t.id { assert TaskTries(s.core.items[x]) && SameTask(s.core.items[x], g.items[x]); }
      }
      forall w | w in added.workers ensures WorkerTries(added, w) {
        assert WorkerTries(s, w) && SameTask(s.core.items[w.0], g.items[w.0]);
      }
      if g.depErr.NoError? {
        SameCountTry(added, SubmitCore(s.core, t));
      } else {
        EvolvedCount(added.core.items, FinalizeLocked(added.core.items, t.id, Failed, g.depErr));
        SameCountTry(added, SubmitCore(s.core, t));
      }
    }
  }

  /** What a section of the task's own worker does to the counts. */
  ghost predicate OwnCount(before: Items, after: Items, x: Id, pc: WorkerPc)
    requires x in before
  {
    && after.Keys == before.Keys && (forall y :: y in before && y != x ==> SameCount(before[y], after[y]))
    && after[x].attempt == (if pc.AtAttempt? then before[x].attempt + 1 else before[x].attempt)
    && after[x].retryLimit == before[x].retryLimit && after[x].generation == before[x].generation
    && TaskTries(after[x])
  }

  /** The task's own worker. */
  lemma OwnerTry(s: Sys, w: WorkerId, choice: Choice)
    requires AllTry(s) && Enabled(s, Worker(w, choice)) && WorkerOwns(s, w)
    requires WorkerOk(s.core.items, w, s.workers[w])
    ensures AllTry(WorkerApply(s, w, choice))
  {
    var pc, it := s.workers[w], s.core.items[w.0];
    assert WorkerTries(s, w) && TaskTries(it);
    OwnerCount(s.core, w, pc);
    var after := WorkerCore(s.core, w.0, w.1, pc);
    if pc.AtExit? {
      CountedTry(s, after, w, s.workers - {w});
    } else {
      var next := NextPc(it, w.1, pc, choice);
      NextTries(it, after.items[w.0], w.1, pc, choice);
      CountedTry(s, after, w, s.workers[w := next]);
    }
  }

  lemma CountedTry(s: Sys, after: Core, w: WorkerId, workers: map<WorkerId, WorkerPc>)
    requires AllTry(s) && w in s.workers && w.0 in s.core.items && w.1 == s.core.items[w.0].generation
    requires OwnCount(s.core.items, after.items, w.0, s.workers[w])
    requires forall v :: v in workers && v != w ==> v in s.workers && workers[v] == s.workers[v]
    requires w in workers ==> Tries(after.items[w.0], workers[w])
    ensures forall slots :: AllTry(s.(core := after, workers := workers, slots := slots))
  {
    forall slots: nat ensures AllTry(s.(core := after, workers := workers, slots := slots)) {
      var t := s.(core := after, workers := workers, slots := slots);
      forall x | x in after.items ensures TaskTries(after.items[x]) {
        assert TaskTries(s.core.items[x]);
        assert x == w.0 || SameCount(s.core.items[x], after.items[x]);
      }
      forall v | v in workers ensures WorkerTries(t, v) {
        if v != w {
          assert WorkerTries(s, v);
          assert v.0 == w.0 || SameCount(s.core.items[v.0], after.items[v.0]);
        }
      }
    }
  }

  lemma OwnerCount(c: Core, w: WorkerId, pc: WorkerPc)
    requires w.0 in c.items && WorkerOk(c.items, w, pc) && Tries(c.items[w.0], pc) && TaskTries(c.items[w.0])
    requires c.items[w.0].inFlight && c.items[w.0].generation == w.1
    ensures OwnCount(c.items, WorkerCore(c, w.0, w.1, pc).items, w.0, pc)
  {
    if pc.AtFinalize? {
      EndCount(c, w.0, pc);
    } else {
      var after := WorkerCore(c, w.0, w.1, pc).items;
      assert after == c.items[w.0 := after[w.0]];
    }
  }

  lemma EndCount(c: Core, x: Id, pc: WorkerPc)
    requires x in c.items && pc.AtFinalize? && TaskTries(c.items[x])
    ensures OwnCount(c.items, FinalizeCore(c, x, pc.st, pc.err).items, x, pc)
  {
    var after := FinalizeLocked(c.items, x, pc.st, pc.err);
    EvolvedCount(c.items, after);
    assert SameCount(c.items[x], after[x]);
  }

  lemma NextTries(it: Item, after: Item, gen: nat, pc: WorkerPc, choice: Choice)
    requires Tries(it, pc) && gen == it.generation && after.retryLimit == it.retryLimit
    requires after.attempt == if pc.AtAttempt? then it.attempt + 1 else it.attempt
    ensures Tries(after, NextPc(it, gen, pc, choice))
  {
  }

  /** A worker left behind counts nothing. */
  lemma LeftTry(s: Sys, w: WorkerId, choice: Choice)
    requires AllTry(s) && Enabled(s, Worker(w, choice)) && LeftBehind(s, w)
    ensures AllTry(WorkerApply(s, w, choice))
  {
    var pc, after := s.workers[w], WorkerApply(s, w, choice);
    LeftCount(s.core, w, pc);
    SameCountTry(s, after.core);
    forall v | v in after.workers ensures WorkerTries(after, v) {
      if v != w { assert WorkerTries(s.(core := after.core), v); }
    }
  }

  lemma LeftCount(c: Core, w: WorkerId, pc: WorkerPc)
    requires w.0 in c.items && w.1 != c.items[w.0].generation && Leaving(pc)
    ensures AllSameCount(c.items, WorkerCore(c, w.0, w.1, pc).items)
  {
    if pc.AtFinalize? { EvolvedCount(c.items, FinalizeLocked(c.items, w.0, pc.st, pc.err)); }
  }

  lemma PassTry(s: Sys)
    requires AllTry(s) && SafeState(s) && Enabled(s, Pass)
    ensures AllTry(Apply(s, Pass))
  {
    var after := Apply(s, Pass);
    forall x | x in after.core.items ensures TaskTries(after.core.items[x]) { assert TaskTries(s.core.items[x]); }
    forall w | w in after.workers ensures WorkerTries(after, w) {
      if w in Launched(s.core.items) {
        assert TaskTries(s.core.items[w.0]);
      } else {
        assert WorkerTries(s, w) && WorkerOk(s.core.items, w, s.workers[w]);
      }
    }
  }

  lemma RetryTry(s: Sys, id: Id)
    requires AllTry(s) && SafeState(s) && id in s.core.items
    ensures AllTry(s.(core := RetryCore(s.core, id)))
  {
    var after := s.(core := RetryCore(s.core, id));
    forall x | x in after.core.items ensures TaskTries(after.core.items[x]) { assert TaskTries(s.core.items[x]); }
    forall w | w in after.workers ensures WorkerTries(after, w) {
      assert WorkerTries(s, w) && WorkerOk(s.core.items, w, s.workers[w]);
    }
  }

  lemma OtherTry(s: Sys, step: Step)
    requires AllTry(s) && Enabled(s, step)
    requires !step.Submit? && !step.Worker? && !step.Pass? && !step.Retry?
    ensures AllTry(Apply(s, step))
  {
    var after := Apply(s, step);
    OtherSlots(s, step);
    SameSections(s, step);
    SameCountTry(s, after.core);
    forall w | w in after.workers ensures WorkerTries(after, w) { assert WorkerTries(s.(core := after.core), w); }
  }

  lemma SameSections(s: Sys, step: Step)
    requires Enabled(s, step) && !step.Submit? && !step.Worker? && !step.Pass? && !step.Retry?
    ensures AllSameCount(s.core.items, Apply(s, step).core.items)
  {
    if !step.Pause? && !step.Resume? {
      StepEvolves(s, step);
      EvolvedCount(s.core.items, Apply(s, step).core.items);
    }
  }

  lemma TryStep(s: Sys, step: Step)
    requires SafeState(s) && LiveState(s) && AllTry(s) && Enabled(s, step)
    ensures AllTry(Apply(s, step))
  {
    match step
    case Submit(t) => SubmitTry(s, t);
    case Retry(id) => RetryTry(s, id);
    case Pass => PassTry(s);
    case Worker(w, choice) =>
      assert WorkerOk(s.core.items, w, s.workers[w]) && WorkerPlaced(s, w);
      if WorkerOwns(s, w) { OwnerTry(s, w, choice); } else { LeftTry(s, w, choice); }
    case _ => OtherTry(s, step);
  }

  lemma {:induction false} RunTry(s: Sys, steps: seq<Step>)
    requires SafeState(s) && LiveState(s) && AllTry(s) && IsRun(s, steps) && QuietRun(s, steps)
    ensures AllTry(After(s, steps))
    decreases |steps|
  {
    if steps != [] {
      StepKeeps(s, steps[0]);
      LiveStep(s, steps[0]);
      TryStep(s, steps[0]);
      RunTry(Apply(s, steps[0]), steps[1..]);
    }
  }

  // ----------------------------------------------------------------- theorems

  /** Nobody calls the work function more than retryLimit + 1 times between two manual
      retries. */
  lemma {:induction false} AttemptBound(capacity: nat, steps: seq<Step>, x: Id)
    requires IsRun(Init(capacity), steps) && QuietRun(Init(capacity), steps)
    requires x in After(Init(capacity), steps).core.items
    ensures var it := After(Init(capacity), steps).core.items[x]; it.attempt <= it.retryLimit + 1
  {
    RunTry(Init(capacity), steps);
    assert TaskTries(After(Init(capacity), steps).core.items[x]);
  }

  /** When the work function has failed, its worker ends the task if that was attempt number
      retryLimit + 1, and otherwise goes on to the next. */
  lemma {:induction false} GivesUpExactly(capacity: nat, steps: seq<Step>, w: WorkerId, choice: Choice)
    requires IsRun(Init(capacity), steps) && QuietRun(Init(capacity), steps)
    requires var s := After(Init(capacity), steps);
      && w in s.workers && w.0 in s.core.items && w.1 == s.core.items[w.0].generation && !s.core.items[w.0].finished
      && s.workers[w].AtReturnFinished? && (s.workers[w].outcome.WorkFailed? || s.workers[w].outcome.DeadlineExceeded?)
    ensures var s := After(Init(capacity), steps);
      var it := s.core.items[w.0];
      && Enabled(s, Worker(w, choice)) && w in Apply(s, Worker(w, choice)).workers
      && Apply(s, Worker(w, choice)).workers[w] ==
           if it.attempt < it.retryLimit + 1 then AtRetryMark
           else AtFinalize(if s.workers[w].outcome.WorkFailed? then TaskState.Failed else TimedOut, TaskError)
  {
    RunTry(Init(capacity), steps);
    assert WorkerTries(After(Init(capacity), steps), w);
  }
}
