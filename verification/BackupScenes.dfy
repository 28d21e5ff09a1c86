/** Building runs: one task and its workers, driven to wherever a worker can stand. */
module BackupScenes {
  import opened BackupTasks
  import opened BackupEngine
  import opened BackupProtocol
  import opened BackupDependencies
  import opened BackupLifecycle

  // ------------------------------------------------------------- possible points

  /** Attempts are numbered from one. */
  predicate Numbered(back: Back) {
    back.ToWork? ==> back.n > 0
  }

  /** What a worker may be about to finalize its task with. */
  predicate Ends(st: TaskState, err: Error) {
    || (st.Completed? && err.NoError?)
    || (st.Cancelled? && err.ErrCancelled?)
    || ((st.TimedOut? || st.Failed?) && err.TaskError?)
  }

  predicate Real(pc: WorkerPc) {
    match pc
    case AtPauseCheck(b) => Numbered(b)
    case AtPauseMark(b) => Numbered(b)
    case AtPauseWait(b) => Numbered(b)
    case AtResumeCheck(b) => Numbered(b)
    case AtResumeMark(b) => Numbered(b)
    case AtWork(n) => n > 0
    case AtReturnCheck(n, _) => n > 0
    case AtReturnFinished(n, _) => n > 0
    case AtFinalize(st, err) => Ends(st, err)
    case _ => true
  }

  ghost predicate RealWorkers(s: Sys) {
    forall w :: w in s.workers ==> Real(s.workers[w])
  }

  lemma RealStep(s: Sys, step: Step)
    requires RealWorkers(s) && Enabled(s, step)
    ensures RealWorkers(Apply(s, step))
  {
    if step.Worker? {
      RealNext(s.core.items[step.w.0], step.w.1, s.workers[step.w], step.choice);
    } else if !step.Pass? {
      OtherSlots(s, step);
    }
  }

  lemma RealNext(it: Item, gen: nat, pc: WorkerPc, choice: Choice)
    requires Real(pc)
    ensures Real(NextPc(it, gen, pc, choice))
  {
  }

  /** Workers only ever stand at possible points, so nothing else can be met. */
  lemma {:induction false} MeetsReal(
    ok: WorkerPc -> bool, more: WorkerPc -> bool, s: Sys, steps: seq<Step>)
    requires RealWorkers(s) && IsRun(s, steps) && RetriesMeet(ok, s, steps)
    requires forall pc :: Real(pc) && ok(pc) ==> more(pc)
    ensures RetriesMeet(more, s, steps)
    decreases |steps|
  {
    if steps != [] {
      RealStep(s, steps[0]);
      MeetsReal(ok, more, Apply(s, steps[0]), steps[1..]);
    }
  }

  // --------------------------------------------------------------- building runs

  /** Some run leads from `s` to `t`, its retries meeting workers in `ok` only. */
  ghost predicate Leads(ok: WorkerPc -> bool, s: Sys, t: Sys) {
    exists steps :: IsRun(s, steps) && RetriesMeet(ok, s, steps) && After(s, steps) == t
  }

  lemma {:induction false} Extend(ok: WorkerPc -> bool, s: Sys, steps: seq<Step>, step: Step)
    requires IsRun(s, steps) && RetriesMeet(ok, s, steps)
    requires Enabled(After(s, steps), step) && RetryMeets(ok, After(s, steps), step)
    ensures IsRun(s, steps + [step]) && RetriesMeet(ok, s, steps + [step])
    ensures After(s, steps + [step]) == Apply(After(s, steps), step)
    decreases |steps|
  {
    if steps == [] {
      assert [] + [step] == [step];
    } else {
      assert (steps + [step])[1..] == steps[1..] + [step];
      Extend(ok, Apply(s, steps[0]), steps[1..], step);
    }
  }

  lemma Then(ok: WorkerPc -> bool, s: Sys, mid: Sys, step: Step, t: Sys)
    requires Leads(ok, s, mid) && Enabled(mid, step) && RetryMeets(ok, mid, step) && Apply(mid, step) == t
    ensures Leads(ok, s, t)
  {
    var steps :| IsRun(s, steps) && RetriesMeet(ok, s, steps) && After(s, steps) == mid;
    Extend(ok, s, steps, step);
  }

  // ---------------------------------------------------------------------- scenes

  const A: Id := "a"

  /** What stands still while one worker of the task A moves: the capacity, the wake
      token, at most one other worker, and which worker it is that moves. */
  datatype Scene = Scene(capacity: nat, wake: bool, others: map<WorkerId, WorkerPc>, w: WorkerId)

  predicate SceneOk(sc: Scene) {
    sc.w !in sc.others && sc.w.0 == A && |sc.others| < sc.capacity && |sc.others| <= 1
  }

  function Held(others: map<WorkerId, WorkerPc>): nat {
    |set v | v in others && HoldsSlot(others[v])|
  }

  lemma HeldFew(others: map<WorkerId, WorkerPc>)
    ensures Held(others) <= |others|
  {
    var holding := set v | v in others && HoldsSlot(others[v]);
    assert others.Keys == holding + (others.Keys - holding) && |others.Keys| == |others|;
  }

  function One(pc: WorkerPc): nat {
    if HoldsSlot(pc) then 1 else 0
  }

  /** The engine after Start with the scheduler asleep and the moving worker at `pc`. */
  function Show(sc: Scene, it: Item, pc: WorkerPc): Sys {
    Sys(Core(map[A := it], true, false, true, sc.wake), AtSelect, false, sc.others[sc.w := pc],
        Held(sc.others) + One(pc), sc.capacity, NotCalled)
  }

  ghost predicate Reached(ok: WorkerPc -> bool, sc: Scene, it: Item, pc: WorkerPc) {
    SceneOk(sc) && Leads(ok, Init(sc.capacity), Show(sc, it, pc))
  }

  /** What the worker's section does to the record. */
  function Touched(it: Item, pc: WorkerPc): Item {
    if Marks(pc) && !it.finished then it.(state := MarkOf(pc))
    else if pc.AtAttempt? then it.(attempt := it.attempt + 1)
    else it
  }

  lemma ShowCore(c: Core, it: Item, gen: nat, pc: WorkerPc)
    requires c.items == map[A := it] && !pc.AtFinalize? && !pc.AtExit?
    ensures WorkerCore(c, A, gen, pc) == c.(items := map[A := Touched(it, pc)])
  {
    assert map[A := it][A := Touched(it, pc)] == map[A := Touched(it, pc)];
  }

  lemma ShowStep(sc: Scene, it: Item, pc: WorkerPc, choice: Choice)
    requires SceneOk(sc) && !pc.AtFinalize? && !pc.AtExit?
    ensures Enabled(Show(sc, it, pc), Worker(sc.w, choice))
    ensures Apply(Show(sc, it, pc), Worker(sc.w, choice)) == Show(sc, Touched(it, pc), NextPc(it, sc.w.1, pc, choice))
  {
    var next := NextPc(it, sc.w.1, pc, choice);
    var s := Show(sc, it, pc);
    HeldFew(sc.others);
    assert s.workers[sc.w := next] == sc.others[sc.w := next];
    ShowCore(s.core, it, sc.w.1, pc);
  }

  lemma Go(ok: WorkerPc -> bool, sc: Scene, it: Item, pc: WorkerPc, choice: Choice)
    requires Reached(ok, sc, it, pc) && !pc.AtFinalize? && !pc.AtExit?
    ensures Reached(ok, sc, Touched(it, pc), NextPc(it, sc.w.1, pc, choice))
  {
    ShowStep(sc, it, pc, choice);
    Then(ok, Init(sc.capacity), Show(sc, it, pc), Worker(sc.w, choice),
         Show(sc, Touched(it, pc), NextPc(it, sc.w.1, pc, choice)));
  }

  lemma SetGate(ok: WorkerPc -> bool, sc: Scene, it: Item, pc: WorkerPc, paused: bool)
    requires Reached(ok, sc, it, pc)
    ensures Reached(ok, sc, it.(gatePaused := paused), pc)
  {
    var s, now := Show(sc, it, pc), it.(gatePaused := paused);
    assert s.core.items[A := now] == map[A := now];
    Then(ok, Init(sc.capacity), s, if paused then Pause(A) else Resume(A), Show(sc, now, pc));
  }

  // ------------------------------------------------------------- the first worker

  /** The engine with A submitted. */
  function TaskOf(limit: nat): Task {
    Task(A, true, [], 0, limit, 0, true)
  }

  function Submitted(limit: nat): Item {
    Item([], limit, Pending, NoError, 0, false, false, 0, [], false, 0, false)
  }

  function Started(capacity: nat): Sys {
    Sys(Core(map[], true, false, true, false), AtPass, false, map[], 0, capacity, NotCalled)
  }

  lemma SubmitOne(limit: nat)
    ensures SubmitCore(Started(1).core, TaskOf(limit)) == Core(map[A := Submitted(limit)], true, false, true, true)
  {
  }

  /** The scene of the first worker. */
  function First(capacity: nat): Scene {
    Scene(capacity, true, map[], (A, 1))
  }

  lemma Begin(ok: WorkerPc -> bool, capacity: nat, limit: nat)
    requires capacity > 0
    ensures Reached(ok, First(capacity), LaunchItem(Submitted(limit)), AtTop)
  {
    var s0, s1, it := Init(capacity), Started(capacity), Submitted(limit);
    assert IsRun(s0, []) && RetriesMeet(ok, s0, []) && After(s0, []) == s0;
    Then(ok, s0, s0, Start, s1);
    SubmitOne(limit);
    var s2 := s1.(core := Core(map[A := it], true, false, true, true));
    Then(ok, s0, s1, Submit(TaskOf(limit)), s2);
    LaunchOnly(it);
    assert map[] + map[(A, 1) := AtTop] == map[][(A, 1) := AtTop];
    assert Held(map[]) == 0 by { HeldFew(map[]); }
    Then(ok, s0, s2, Pass, Show(First(capacity), LaunchItem(it), AtTop));
  }

  /** A pass over a ready task, and over one that is not. */
  lemma LaunchOnly(it: Item)
    ensures PassCore(Core(map[A := it], true, false, true, true)).items == map[A := if Ready(it) then LaunchItem(it) else it]
    ensures PassCore(Core(map[A := it], true, false, true, false)).items == map[A := if Ready(it) then LaunchItem(it) else it]
    ensures Launched(map[A := it]) == if Ready(it) then map[(A, it.generation + 1) := AtTop] else map[]
  {
  }

  // ------------------------------------------------------- driving one worker

  /** The moving worker's own task, unfinished. */
  predicate InHand(sc: Scene, it: Item) {
    !it.finished && it.generation == sc.w.1 && it.dependents == [] && it.depsPending == 0
  }

  /** The task after `k` failed attempts, its worker about to begin the next. */
  function Tried(it: Item, k: nat): Item {
    it.(attempt := k, state := if k == 0 then it.state else Waiting)
  }

  lemma ToGate(ok: WorkerPc -> bool, sc: Scene, it: Item)
    requires Reached(ok, sc, it, AtTop) && InHand(sc, it)
    ensures Reached(ok, sc, it, AtGate)
  {
    Go(ok, sc, it, AtTop, Proceed);
    Go(ok, sc, it, AtOwnerCheck, Proceed);
  }

  lemma ToAcquire(ok: WorkerPc -> bool, sc: Scene, it: Item)
    requires Reached(ok, sc, it, AtTop) && InHand(sc, it) && !it.gatePaused
    ensures Reached(ok, sc, it, AtAcquire)
  {
    ToGate(ok, sc, it);
    Go(ok, sc, it, AtGate, Proceed);
  }

  lemma ToAttempt(ok: WorkerPc -> bool, sc: Scene, it: Item)
    requires Reached(ok, sc, it, AtTop) && InHand(sc, it) && !it.gatePaused
    ensures Reached(ok, sc, it, AtAttempt)
  {
    ToAcquire(ok, sc, it);
    Go(ok, sc, it, AtAcquire, Proceed);
  }

  /** From the top of its loop, the gate being open, the worker enters the work function. */
  lemma Enter(ok: WorkerPc -> bool, sc: Scene, it: Item, n: nat)
    requires Reached(ok, sc, it, AtTop) && InHand(sc, it) && !it.gatePaused && n == it.attempt + 1
    ensures Reached(ok, sc, it.(attempt := n), AtWork(n))
  {
    ToAttempt(ok, sc, it);
    Go(ok, sc, it, AtAttempt, Proceed);
  }

  /** The work function has returned and its worker still owns the task. */
  lemma ReturnWith(ok: WorkerPc -> bool, sc: Scene, it: Item, k: nat, o: Outcome)
    requires Reached(ok, sc, it, AtWork(k)) && InHand(sc, it)
    ensures Reached(ok, sc, it, AtReturnFinished(k, o))
  {
    Go(ok, sc, it, AtWork(k), Return(o));
    Go(ok, sc, it, AtReturnCheck(k, o), Proceed);
  }

  /** An attempt that fails, with another one left. */
  lemma FailOnce(ok: WorkerPc -> bool, sc: Scene, it: Item, k: nat)
    requires Reached(ok, sc, it, AtWork(k)) && InHand(sc, it) && k <= it.retryLimit
    ensures Reached(ok, sc, it, AtRetryMark)
  {
    ReturnWith(ok, sc, it, k, WorkFailed);
    Go(ok, sc, it, AtReturnFinished(k, WorkFailed), Proceed);
  }

  lemma BackToTop(ok: WorkerPc -> bool, sc: Scene, it: Item)
    requires Reached(ok, sc, it, AtRetryMark) && InHand(sc, it)
    ensures Reached(ok, sc, it.(state := Waiting), AtTop)
  {
    Go(ok, sc, it, AtRetryMark, Proceed);
    Go(ok, sc, it.(state := Waiting), AtBackoff, Proceed);
  }

  /** A worker that has just been launched. */
  ghost predicate Opening(ok: WorkerPc -> bool, sc: Scene, it: Item) {
    Reached(ok, sc, it, AtTop) && InHand(sc, it) && !it.gatePaused && it.attempt == 0
  }

  lemma {:induction false} TryTimes(ok: WorkerPc -> bool, sc: Scene, it: Item, k: nat)
    requires Opening(ok, sc, it) && k <= it.retryLimit
    ensures Reached(ok, sc, Tried(it, k), AtTop)
  {
    if k == 0 {
      assert Tried(it, 0) == it;
    } else {
      TryTimes(ok, sc, it, k - 1);
      Enter(ok, sc, Tried(it, k - 1), k);
      var mid := Tried(it, k - 1).(attempt := k);
      FailOnce(ok, sc, mid, k);
      BackToTop(ok, sc, mid);
      assert mid.(state := Waiting) == Tried(it, k);
    }
  }

  // ----------------------------------------------- every point that is not leaving

  /** The attempt a point belongs to, or 0. */
  function NumberOf(pc: WorkerPc): nat {
    match pc
    case AtPauseCheck(b) => if b.ToWork? then b.n else 0
    case AtPauseMark(b) => if b.ToWork? then b.n else 0
    case AtPauseWait(b) => if b.ToWork? then b.n else 0
    case AtResumeCheck(b) => if b.ToWork? then b.n else 0
    case AtResumeMark(b) => if b.ToWork? then b.n else 0
    case AtWork(n) => n
    case AtReturnCheck(n, _) => n
    case AtReturnFinished(n, _) => n
    case _ => 0
  }

  /** The worker stands at `pc`, with the limit it began with. */
  ghost predicate Visited(ok: WorkerPc -> bool, sc: Scene, limit: nat, pc: WorkerPc, p: Item) {
    Reached(ok, sc, p, pc) && InHand(sc, p) && p.retryLimit == limit
  }

  /** The work function is reached for the `n`th time. */
  lemma VisitWork(ok: WorkerPc -> bool, sc: Scene, it: Item, n: nat) returns (p: Item)
    requires Opening(ok, sc, it) && 0 < n <= it.retryLimit + 1
    ensures Visited(ok, sc, it.retryLimit, AtWork(n), p)
  {
    TryTimes(ok, sc, it, n - 1);
    Enter(ok, sc, Tried(it, n - 1), n);
    p := Tried(it, n - 1).(attempt := n);
  }

  /** A pause is entered from the gate or from the work function. */
  lemma VisitPauseCheck(ok: WorkerPc -> bool, sc: Scene, it: Item, b: Back) returns (p: Item)
    requires Opening(ok, sc, it) && Numbered(b) && (b.ToWork? ==> b.n <= it.retryLimit + 1)
    ensures Visited(ok, sc, it.retryLimit, AtPauseCheck(b), p) && p.gatePaused
  {
    if b.ToTop? {
      ToGate(ok, sc, it);
      p := PauseFrom(ok, sc, it, AtGate, Proceed, b);
    } else {
      var q := VisitWork(ok, sc, it, b.n);
      p := PauseFrom(ok, sc, q, AtWork(b.n), Checkpoint, b);
    }
  }

  lemma PauseFrom(ok: WorkerPc -> bool, sc: Scene, it: Item, pc: WorkerPc, choice: Choice, b: Back) returns (p: Item)
    requires Reached(ok, sc, it, pc) && InHand(sc, it)
    requires (pc == AtGate && choice.Proceed? && b.ToTop?) || (b.ToWork? && pc == AtWork(b.n) && choice.Checkpoint?)
    ensures Visited(ok, sc, it.retryLimit, AtPauseCheck(b), p) && p.gatePaused
  {
    SetGate(ok, sc, it, pc, true);
    p := it.(gatePaused := true);
    Go(ok, sc, p, pc, choice);
  }

  lemma VisitPauseMark(ok: WorkerPc -> bool, sc: Scene, it: Item, b: Back) returns (p: Item)
    requires Opening(ok, sc, it) && Numbered(b) && (b.ToWork? ==> b.n <= it.retryLimit + 1)
    ensures Visited(ok, sc, it.retryLimit, AtPauseMark(b), p)
  {
    p := VisitPauseCheck(ok, sc, it, b);
    Go(ok, sc, p, AtPauseCheck(b), Proceed);
  }

  lemma VisitPauseWait(ok: WorkerPc -> bool, sc: Scene, it: Item, b: Back) returns (p: Item)
    requires Opening(ok, sc, it) && Numbered(b) && (b.ToWork? ==> b.n <= it.retryLimit + 1)
    ensures Visited(ok, sc, it.retryLimit, AtPauseWait(b), p)
  {
    var q := VisitPauseMark(ok, sc, it, b);
    Go(ok, sc, q, AtPauseMark(b), Proceed);
    p := q.(state := TaskState.Paused);
  }

  lemma VisitResume(ok: WorkerPc -> bool, sc: Scene, it: Item, b: Back) returns (p: Item)
    requires Opening(ok, sc, it) && Numbered(b) && (b.ToWork? ==> b.n <= it.retryLimit + 1)
    ensures Visited(ok, sc, it.retryLimit, AtResumeCheck(b), p) && Visited(ok, sc, it.retryLimit, AtResumeMark(b), p)
  {
    var q := VisitPauseWait(ok, sc, it, b);
    SetGate(ok, sc, q, AtPauseWait(b), false);
    p := q.(gatePaused := false);
    WakeUp(ok, sc, p, b);
  }

  lemma WakeUp(ok: WorkerPc -> bool, sc: Scene, it: Item, b: Back)
    requires Reached(ok, sc, it, AtPauseWait(b)) && !it.finished
    ensures Reached(ok, sc, it, AtResumeCheck(b)) && Reached(ok, sc, it, AtResumeMark(b))
  {
    Go(ok, sc, it, AtPauseWait(b), Proceed);
    Go(ok, sc, it, AtResumeCheck(b), Proceed);
  }

  lemma VisitAny(ok: WorkerPc -> bool, sc: Scene, it: Item, pc: WorkerPc) returns (p: Item)
    requires Opening(ok, sc, it) && Real(pc) && !Leaving(pc) && NumberOf(pc) <= it.retryLimit
    ensures Visited(ok, sc, it.retryLimit, pc, p)
  {
    match pc
    case AtWork(n) => p := VisitWork(ok, sc, it, n);
    case AtPauseCheck(b) => p := VisitPauseCheck(ok, sc, it, b);
    case AtPauseMark(b) => p := VisitPauseMark(ok, sc, it, b);
    case AtPauseWait(b) => p := VisitPauseWait(ok, sc, it, b);
    case AtResumeCheck(b) => p := VisitResume(ok, sc, it, b);
    case AtResumeMark(b) => p := VisitResume(ok, sc, it, b);
    case AtGate =>
      ToGate(ok, sc, it);
      p := it;
    case AtAcquire =>
      ToAcquire(ok, sc, it);
      p := it;
    case AtAttempt =>
      ToAttempt(ok, sc, it);
      p := it;
  }

  // ------------------------------------------------------------- after a retry

  /** A re-armed run that no worker has; the workers there are of earlier ones. */
  predicate Rearmed(sc: Scene, it: Item) {
    !it.finished && !it.inFlight && it.dependents == [] && it.generation > sc.w.1
  }

  /** All workers of the scene stand at points in `ok`. */
  ghost predicate AllIn(ok: WorkerPc -> bool, sc: Scene, pc: WorkerPc) {
    ok(pc) && forall v :: v in sc.others ==> ok(sc.others[v])
  }

  function Retried(it: Item): Item {
    Rearm(Finish(it, Failed, TaskError))
  }

  /** A watcher fails the task and a client retries it, the workers being where they are. */
  lemma FailAndRetry(ok: WorkerPc -> bool, sc: Scene, it: Item, pc: WorkerPc)
    requires Reached(ok, sc, it, pc) && InHand(sc, it) && AllIn(ok, sc, pc)
    ensures Reached(ok, sc.(wake := true), Retried(it), pc)
  {
    FailIt(ok, sc, it, pc);
    RetryIt(ok, sc.(wake := true), Finish(it, Failed, TaskError), pc);
  }

  lemma FailIt(ok: WorkerPc -> bool, sc: Scene, it: Item, pc: WorkerPc)
    requires Reached(ok, sc, it, pc) && InHand(sc, it)
    ensures Reached(ok, sc.(wake := true), Finish(it, Failed, TaskError), pc)
  {
    var s, failed := Show(sc, it, pc), Finish(it, Failed, TaskError);
    FinalizeLeaf(s.core.items, A, Failed, TaskError);
    assert s.core.items[A := failed] == map[A := failed];
    Then(ok, Init(sc.capacity), s, WatcherFail(A, sc.w.1), Show(sc.(wake := true), failed, pc));
  }

  lemma RetryIt(ok: WorkerPc -> bool, sc: Scene, it: Item, pc: WorkerPc)
    requires Reached(ok, sc, it, pc) && it.finished && !it.state.Completed? && sc.wake && AllIn(ok, sc, pc)
    ensures Reached(ok, sc, Rearm(it), pc)
  {
    assert map[A := it][A := Rearm(it)] == map[A := Rearm(it)];
    Then(ok, Init(sc.capacity), Show(sc, it, pc), Retry(A), Show(sc, Rearm(it), pc));
  }

  /** The same run of the task, not finished; only marks and attempts differ. */
  predicate SameRun(it: Item, p: Item) {
    p == it.(gatePaused := p.gatePaused, state := p.state, attempt := p.attempt)
  }

  /** The old worker can be brought to where it marks the new run Running. */
  ghost predicate Marking(ok: WorkerPc -> bool, sc: Scene, it: Item, p: Item, b: Back) {
    Reached(ok, sc, p, AtResumeMark(b)) && SameRun(it, p) && !p.state.Running?
  }

  lemma MarkFromWait(ok: WorkerPc -> bool, sc: Scene, it: Item, p: Item, b: Back) returns (q: Item)
    requires Reached(ok, sc, p, AtPauseWait(b)) && Rearmed(sc, it) && SameRun(it, p) && !p.state.Running?
    ensures Marking(ok, sc, it, q, b)
  {
    SetGate(ok, sc, p, AtPauseWait(b), false);
    q := p.(gatePaused := false);
    WakeUp(ok, sc, q, b);
  }

  lemma MarkFromPause(ok: WorkerPc -> bool, sc: Scene, it: Item, p: Item, b: Back) returns (q: Item)
    requires Reached(ok, sc, p, AtPauseMark(b)) && Rearmed(sc, it) && SameRun(it, p) && !p.state.Running?
    ensures Marking(ok, sc, it, q, b)
  {
    Go(ok, sc, p, AtPauseMark(b), Proceed);
    q := MarkFromWait(ok, sc, it, p.(state := TaskState.Paused), b);
  }

  lemma MarkFromCheck(ok: WorkerPc -> bool, sc: Scene, it: Item, p: Item, b: Back) returns (q: Item)
    requires Reached(ok, sc, p, AtPauseCheck(b)) && Rearmed(sc, it) && SameRun(it, p) && !p.state.Running?
    ensures Marking(ok, sc, it, q, b)
  {
    SetGate(ok, sc, p, AtPauseCheck(b), true);
    Go(ok, sc, p.(gatePaused := true), AtPauseCheck(b), Proceed);
    q := MarkFromPause(ok, sc, it, p.(gatePaused := true), b);
  }

  lemma MarkFromWork(ok: WorkerPc -> bool, sc: Scene, it: Item, p: Item, n: nat) returns (q: Item)
    requires Reached(ok, sc, p, AtWork(n)) && Rearmed(sc, it) && SameRun(it, p) && !p.state.Running?
    ensures Marking(ok, sc, it, q, ToWork(n))
  {
    Go(ok, sc, p, AtWork(n), Checkpoint);
    q := MarkFromCheck(ok, sc, it, p, ToWork(n));
  }

  lemma MarkFromAttempt(ok: WorkerPc -> bool, sc: Scene, it: Item) returns (q: Item)
    requires Reached(ok, sc, it, AtAttempt) && Rearmed(sc, it) && !it.state.Running?
    ensures Marking(ok, sc, it, q, ToWork(it.attempt + 1))
  {
    Go(ok, sc, it, AtAttempt, Proceed);
    q := MarkFromWork(ok, sc, it, it.(attempt := it.attempt + 1), it.attempt + 1);
  }

  lemma MarkFromGate(ok: WorkerPc -> bool, sc: Scene, it: Item) returns (q: Item)
    requires Reached(ok, sc, it, AtGate) && Rearmed(sc, it) && !it.state.Running?
    ensures Marking(ok, sc, it, q, ToTop)
  {
    SetGate(ok, sc, it, AtGate, true);
    Go(ok, sc, it.(gatePaused := true), AtGate, Proceed);
    q := MarkFromCheck(ok, sc, it, it.(gatePaused := true), ToTop);
  }

  lemma MarkFrom(ok: WorkerPc -> bool, sc: Scene, it: Item, pc: WorkerPc) returns (q: Item, b: Back)
    requires Reached(ok, sc, it, pc) && Rearmed(sc, it) && !Leaving(pc) && !it.state.Running?
    ensures Marking(ok, sc, it, q, b)
  {
    match pc
    case AtGate =>
      b := ToTop;
      q := MarkFromGate(ok, sc, it);
    case AtAcquire =>
      b := ToWork(it.attempt + 1);
      Go(ok, sc, it, pc, Proceed);
      q := MarkFromAttempt(ok, sc, it);
    case AtAttempt =>
      b := ToWork(it.attempt + 1);
      q := MarkFromAttempt(ok, sc, it);
    case AtWork(n) =>
      b := ToWork(n);
      q := MarkFromWork(ok, sc, it, it, n);
    case AtPauseCheck(back) =>
      b := back;
      q := MarkFromCheck(ok, sc, it, it, b);
    case AtPauseMark(back) =>
      b := back;
      q := MarkFromPause(ok, sc, it, it, b);
    case AtPauseWait(back) =>
      b := back;
      q := MarkFromWait(ok, sc, it, it, b);
    case AtResumeCheck(back) =>
      b, q := back, it;
      Go(ok, sc, it, pc, Proceed);
    case AtResumeMark(back) =>
      b, q := back, it;
  }

  /** And marks it. */
  lemma MarkRunning(ok: WorkerPc -> bool, sc: Scene, it: Item, pc: WorkerPc) returns (p: Item, b: Back)
    requires Reached(ok, sc, it, pc) && Rearmed(sc, it) && !Leaving(pc) && !it.state.Running?
    ensures Reached(ok, sc, p, ReturnTo(b)) && SameRun(it, p) && p.state.Running?
  {
    var q;
    q, b := MarkFrom(ok, sc, it, pc);
    Go(ok, sc, q, AtResumeMark(b), Proceed);
    p := q.(state := Running);
  }

  // ------------------------------------------------------------ a second worker

  /** The scene of the worker of a retried run, the first one standing at `pc`. */
  function Second(pc: WorkerPc): Scene {
    Scene(2, false, map[(A, 1) := pc], (A, 3))
  }

  lemma HeldOne(w: WorkerId, pc: WorkerPc)
    ensures Held(map[w := pc]) == One(pc)
  {
    var m := map[w := pc];
    assert (set v | v in m && HoldsSlot(m[v])) == if HoldsSlot(pc) then {w} else {};
  }

  /** The first worker is met at `pc` by a retry, and the new run launched. */
  lemma LaunchSecond(ok: WorkerPc -> bool, limit: nat, pc: WorkerPc) returns (it: Item)
    requires Real(pc) && !Leaving(pc) && ok(pc) && NumberOf(pc) <= limit
    ensures Opening(ok, Second(pc), it) && it.retryLimit == limit
  {
    Begin(ok, 2, limit);
    var p := VisitAny(ok, First(2), LaunchItem(Submitted(limit)), pc);
    FailAndRetry(ok, First(2), p, pc);
    PassAgain(ok, Retried(p), pc);
    it := LaunchItem(Retried(p));
  }

  /** The scheduler takes the token and launches the re-armed run. */
  lemma PassAgain(ok: WorkerPc -> bool, r: Item, pc: WorkerPc)
    requires Reached(ok, First(2), r, pc) && r.generation == 2 && r.state.Pending? && !r.finished && !r.inFlight
    ensures Reached(ok, Second(pc), LaunchItem(r), AtTop)
  {
    var s0 := Show(First(2), r, pc);
    var s1 := s0.(core := s0.core.(wake := false), sched := AtPass);
    Then(ok, Init(2), s0, TakeWake, s1);
    LaunchOnly(r);
    HeldOne((A, 1), pc);
    HeldFew(map[]);
    assert s1.workers + Launched(s1.core.items) == map[(A, 1) := pc][(A, 3) := AtTop];
    Then(ok, Init(2), s1, Pass, Show(Second(pc), LaunchItem(r), AtTop));
  }
}
