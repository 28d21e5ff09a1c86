/** The engine's critical sections.

    `Core` is the state guarded by the engine's mutex; each function on it is
    the effect of one critical section. The class `Engine` runs the sections as
    the source does, by loops and recursion over its fields, and every method is
    proved to have exactly that effect. */
module BackupEngine {
  import opened BackupTasks
  import Tasks = BackupTasks

  /** `wakeMade`: the wake channel exists (the engine was started once);
      `wake`: its single slot holds a token. */
  datatype Core = Core(items: Items, started: bool, closed: bool, wakeMade: bool, wake: bool)

  datatype Task = Task(
    id: Id, hasWork: bool, dependsOn: seq<Id>,
    timeout: int, retry: int, backoff: int, watchersValid: bool)

  datatype Rejection =
    | ErrInvalidTask | ErrCycleDetected | ErrEngineClosed | ErrEngineNotStarted
    | ErrTaskExists | ErrTaskNotFound | ErrInvalidState

  datatype Verdict = Accepted | Rejected(why: Rejection)

  // ------------------------------------------------------------ specification

  /** Of an engine that has not been started. */
  function NewCore(): Core {
    Core(map[], false, false, false, false)
  }

  function Wake(c: Core): Core {
    c.(wake := c.wake || c.wakeMade)
  }

  function FinalizeCore(c: Core, id: Id, st: TaskState, err: Error): Core
    requires id in c.items
  {
    if c.items[id].finished then c
    else Wake(c.(items := FinalizeLocked(c.items, id, st, err)))
  }

  function TransitionCore(c: Core, id: Id, st: TaskState): Core
    requires id in c.items
  {
    if c.items[id].finished || c.items[id].state == st then c
    else c.(items := c.items[id := c.items[id].(state := st)])
  }

  function CancelCore(c: Core, id: Id): Core
    requires id in c.items
  {
    if c.items[id].finished then c
    else if c.items[id].state.Pending? || c.items[id].state.Waiting? then
      Wake(FinalizeCore(c, id, Cancelled, ErrCancelled))
    else Wake(c)
  }

  function RetryVerdict(c: Core, id: Id): Verdict
    requires id in c.items
  {
    if c.closed then Rejected(ErrEngineClosed)
    else if !c.items[id].finished || c.items[id].state.Completed? then Rejected(ErrInvalidState)
    else Accepted
  }

  function Rearm(it: Item): Item {
    it.(finished := false, state := Pending, err := NoError, attempt := 0,
        inFlight := false, generation := it.generation + 1, gatePaused := false, retried := true)
  }

  function RetryCore(c: Core, id: Id): Core
    requires id in c.items
  {
    if RetryVerdict(c, id).Accepted? then Wake(c.(items := c.items[id := Rearm(c.items[id])])) else c
  }

  function LaunchItem(it: Item): Item {
    it.(state := Running, inFlight := true, generation := it.generation + 1)
  }

  /** One scheduler pass: every ready task is handed to a new worker. */
  function PassCore(c: Core): Core {
    c.(items := map x | x in c.items :: if Ready(c.items[x]) then LaunchItem(c.items[x]) else c.items[x])
  }

  function StartCore(c: Core): Core {
    if c.closed || c.started then c else c.(started := true, wakeMade := true, wake := false)
  }

  function Validate(t: Task): Verdict {
    if t.id == "" || !t.hasWork || t.timeout < 0 || t.retry < 0 || t.backoff < 0 then Rejected(ErrInvalidTask)
    else ValidateDeps(t.id, t.dependsOn, t.watchersValid)
  }

  function ValidateDeps(id: Id, deps: seq<Id>, watchersValid: bool): Verdict {
    if deps == [] then if watchersValid then Accepted else Rejected(ErrInvalidTask)
    else if deps[0] == "" then Rejected(ErrInvalidTask)
    else if deps[0] == id then Rejected(ErrCycleDetected)
    else ValidateDeps(id, deps[1..], watchersValid)
  }

  function SubmitVerdict(c: Core, t: Task): Verdict {
    if Validate(t).Rejected? then Validate(t)
    else if c.closed then Rejected(ErrEngineClosed)
    else if !c.started then Rejected(ErrEngineNotStarted)
    else if t.id in c.items then Rejected(ErrTaskExists)
    else if exists d :: d in t.dependsOn && d !in c.items then Rejected(ErrTaskNotFound)
    else Accepted
  }

  datatype Registration = Registration(items: Items, pending: nat, depErr: Error)

  function RegisterOne(g: Registration, id: Id, d: Id): Registration
    requires d in g.items
  {
    var dep := g.items[d];
    var items := g.items[d := dep.(dependents := dep.dependents + [id])];
    if !dep.finished then Registration(items, g.pending + 1, g.depErr)
    else if dep.state.Completed? || !g.depErr.NoError? then Registration(items, g.pending, g.depErr)
    else Registration(items, g.pending, DependencyError(dep, d))
  }

  /** The registration loop of Submit, from the suffix `deps` on. */
  function Register(g: Registration, id: Id, deps: seq<Id>): (r: Registration)
    requires forall d :: d in deps ==> d in g.items
    ensures r.items.Keys == g.items.Keys
    decreases |deps|
  {
    if deps == [] then g else Register(RegisterOne(g, id, deps[0]), id, deps[1..])
  }

  function NewItem(t: Task, g: Registration): Item
    requires t.retry >= 0
  {
    Item(t.dependsOn, t.retry, if g.pending > 0 && g.depErr.NoError? then Waiting else Pending,
         NoError, 0, false, false, g.pending, [], false, 0, false)
  }

  function SubmitCore(c: Core, t: Task): Core {
    if SubmitVerdict(c, t).Rejected? then c
    else
      var g := Register(Registration(c.items, 0, NoError), t.id, t.dependsOn);
      var added := c.(items := g.items[t.id := NewItem(t, g)]);
      if g.depErr.NoError? then Wake(added) else FinalizeCore(added, t.id, Failed, g.depErr)
  }

  function ExitOne(c: Core, x: Id): (r: Core)
    requires x in c.items
    ensures AllEvolved(c.items, r.items)
  {
    if c.items[x].state.Pending? || c.items[x].state.Waiting?
    then FinalizeCore(c, x, Cancelled, ErrCancelled) else c
  }

  /** The scheduler's exit loop over the tasks in the order `order`. */
  function ExitLoop(c: Core, order: seq<Id>): (r: Core)
    requires forall x :: x in order ==> x in c.items
    ensures AllEvolved(c.items, r.items)
    decreases |order|
  {
    if order == [] then c
    else
      var mid := ExitOne(c, order[0]);
      var r := ExitLoop(mid, order[1..]);
      EvolvedTrans(c.items, mid.items, r.items);
      r
  }

  function SchedulerExitCore(c: Core, order: seq<Id>): Core
    requires forall x :: x in order ==> x in c.items
  {
    ExitLoop(c.(started := false), order)
  }

  /** The loop of a timed-out Shutdown over the tasks in the order `order`. */
  function ForceLoop(c: Core, order: seq<Id>): (r: Core)
    requires forall x :: x in order ==> x in c.items
    ensures AllEvolved(c.items, r.items)
    decreases |order|
  {
    if order == [] then c
    else
      var mid := FinalizeCore(c, order[0], Cancelled, ErrCancelled);
      var r := ForceLoop(mid, order[1..]);
      EvolvedTrans(c.items, mid.items, r.items);
      r
  }

  /** `order` visits every task, as a range over the item map does. */
  ghost predicate Visits(order: seq<Id>, items: Items) {
    forall x :: x in order <==> x in items
  }

  // ----------------------------------------------------------- implementation

  /** One turn more of the exit loop. */
  lemma {:induction false} ExitSnoc(c: Core, order: seq<Id>, i: nat)
    requires i < |order| && forall x :: x in order ==> x in c.items
    ensures ExitLoop(c, order[..i + 1]) == ExitOne(ExitLoop(c, order[..i]), order[i])
    decreases i
  {
    if i > 0 {
      ExitSnoc(ExitOne(c, order[0]), order[1..], i - 1);
      assert order[1..][..i] == order[..i + 1][1..] && order[1..][..i - 1] == order[..i][1..];
    } else {
      assert order[..1] == [order[0]] && order[..1][1..] == [];
    }
  }

  lemma {:induction false} ForceSnoc(c: Core, order: seq<Id>, i: nat)
    requires i < |order| && forall x :: x in order ==> x in c.items
    ensures ForceLoop(c, order[..i + 1]) == FinalizeCore(ForceLoop(c, order[..i]), order[i], Cancelled, ErrCancelled)
    decreases i
  {
    if i > 0 {
      ForceSnoc(FinalizeCore(c, order[0], Cancelled, ErrCancelled), order[1..], i - 1);
      assert order[1..][..i] == order[..i + 1][1..] && order[1..][..i - 1] == order[..i][1..];
    } else {
      assert order[..1] == [order[0]] && order[..1][1..] == [];
    }
  }

  /** Launching every ready task, and no other, is the scheduler's pass. */
  lemma AllLaunched(c: Core, items: Items, ready: seq<Id>)
    requires items.Keys == c.items.Keys && forall x :: x in ready <==> x in c.items && Ready(c.items[x])
    requires forall x :: x in c.items && x !in ready ==> items[x] == c.items[x]
    requires forall k :: 0 <= k < |ready| ==> ready[k] in c.items && items[ready[k]] == LaunchItem(c.items[ready[k]])
    ensures c.(items := items) == PassCore(c)
  {
  }

  class Engine {
    var items: Items
    var started: bool
    var closed: bool
    var wakeMade: bool
    var wake: bool

    ghost function Now(): Core
      reads this
    {
      Core(items, started, closed, wakeMade, wake)
    }

    constructor ()
      ensures Now() == NewCore()
    {
      items, started, closed, wakeMade, wake := map[], false, false, false, false;
    }

    method Start() returns (v: Verdict)
      modifies this`started, this`wakeMade, this`wake
      ensures Now() == StartCore(old(Now()))
      ensures v == if old(closed) then Rejected(ErrEngineClosed) else Accepted
    {
      if closed { return Rejected(ErrEngineClosed); }
      if started { return Accepted; }
      wakeMade, wake := true, false;
      started := true;
      return Accepted;
    }

    method WakeLocked()
      modifies this`wake
      ensures Now() == Wake(old(Now()))
    {
      if !wakeMade { return; }
      wake := true;
    }

    method FinalizeLocked(id: Id, st: TaskState, err: Error)
      requires id in items
      modifies this`items, this`wake
      ensures items == Tasks.FinalizeLocked(old(items), id, st, err)
      ensures wake == (old(wake) || (wakeMade && !old(items[id].finished)))
      decreases Remaining(items), 0
    {
      if items[id].finished { return; }
      MarkEvolves(items, id, st, err);
      items := Mark(items, id, st, err);
      OnTerminalLocked(id);
      WakeLocked();
    }

    method OnTerminalLocked(id: Id)
      requires id in items && items[id].finished
      modifies this`items, this`wake
      ensures items == OnTerminal(old(items), id, old(items[id].dependents))
      ensures wake == old(wake) || (wake && wakeMade)
      decreases Remaining(items), 2
    {
      var dependents := items[id].dependents;
      ghost var before := items;
      var i := 0;
      while i < |dependents|
        invariant 0 <= i <= |dependents|
        invariant AllEvolved(before, items)
        invariant OnTerminal(items, id, dependents[i..]) == OnTerminal(before, id, dependents)
        invariant wake == old(wake) || (wake && wakeMade)
      {
        ghost var now := items;
        EvolvedShrinks(before, items);
        assert Evolved(before[id], items[id]);
        assert dependents[i..][1..] == dependents[i + 1..];
        NotifyDependent(id, dependents[i]);
        EvolvedTrans(before, now, items);
        i := i + 1;
      }
    }

    /** The body of the loop over dependents. */
    method NotifyDependent(id: Id, d: Id)
      requires id in items && items[id].finished
      modifies this`items, this`wake
      ensures items == OnTerminalOne(old(items), id, d)
      ensures wake == old(wake) || (wake && wakeMade)
      decreases Remaining(items), 1
    {
      if d !in items || items[d].inFlight || items[d].finished { return; }
      if items[id].state.Completed? {
        if items[d].depsPending > 0 {
          items := items[d := items[d].(depsPending := items[d].depsPending - 1)];
        }
      } else if items[id].state.Cancelled? {
        FinalizeLocked(d, Failed, DependencyCancelled(id));
      } else {
        FinalizeLocked(d, Failed, DependencyFailed(id));
      }
    }

    /** `finalize`: the same section seen as a step of the whole guarded state. */
    method Finalize(id: Id, st: TaskState, err: Error)
      requires id in items
      modifies this`items, this`wake
      ensures Now() == FinalizeCore(old(Now()), id, st, err)
    {
      FinalizeLocked(id, st, err);
    }

    method Transition(id: Id, st: TaskState)
      requires id in items
      modifies this`items
      ensures Now() == TransitionCore(old(Now()), id, st)
    {
      if items[id].finished || items[id].state == st { return; }
      items := items[id := items[id].(state := st)];
    }

    method CancelLocked(id: Id) returns (v: Verdict)
      requires id in items
      modifies this`items, this`wake
      ensures Now() == CancelCore(old(Now()), id)
      ensures v.Accepted? <==> !old(items[id].finished)
    {
      if items[id].finished { return Rejected(ErrInvalidState); }
      if items[id].state.Pending? || items[id].state.Waiting? {
        Finalize(id, Cancelled, ErrCancelled);
      }
      WakeLocked();
      return Accepted;
    }

    method Retry(id: Id) returns (v: Verdict)
      requires id in items
      modifies this`items, this`wake
      ensures Now() == RetryCore(old(Now()), id) && v == RetryVerdict(old(Now()), id)
    {
      if closed { return Rejected(ErrEngineClosed); }
      if !items[id].finished { return Rejected(ErrInvalidState); }
      if items[id].state.Completed? { return Rejected(ErrInvalidState); }
      var it := items[id].(finished := false, state := Pending, err := NoError, attempt := 0);
      it := it.(inFlight := false, generation := it.generation + 1, gatePaused := false, retried := true);
      items := items[id := it];
      WakeLocked();
      return Accepted;
    }

    method Submit(t: Task) returns (v: Verdict)
      modifies this`items, this`wake
      ensures Now() == SubmitCore(old(Now()), t) && v == SubmitVerdict(old(Now()), t)
    {
      v := Validate(t);
      if v.Rejected? { return; }
      if closed { return Rejected(ErrEngineClosed); }
      if !started { return Rejected(ErrEngineNotStarted); }
      if t.id in items { return Rejected(ErrTaskExists); }
      var k := 0;
      while k < |t.dependsOn|
        invariant 0 <= k <= |t.dependsOn|
        invariant forall j :: 0 <= j < k ==> t.dependsOn[j] in items
      {
        if t.dependsOn[k] !in items { return Rejected(ErrTaskNotFound); }
        k := k + 1;
      }

      var pending, depErr := RegisterLocked(t.id, t.dependsOn);
      var st := Pending;
      if pending > 0 && depErr.NoError? { st := Waiting; }
      items := items[t.id := Item(t.dependsOn, t.retry, st, NoError, 0, false, false, pending, [], false, 0, false)];
      if !depErr.NoError? {
        Finalize(t.id, Failed, depErr);
        return Accepted;
      }
      WakeLocked();
      return Accepted;
    }

    /** The second loop of Submit: links the new task to its dependencies and counts
        those not finished; `depErr` is the first one that has failed. */
    method RegisterLocked(id: Id, dependsOn: seq<Id>) returns (pending: nat, depErr: Error)
      requires forall j :: 0 <= j < |dependsOn| ==> dependsOn[j] in items
      modifies this`items
      ensures Registration(items, pending, depErr) == Register(Registration(old(items), 0, NoError), id, dependsOn)
    {
      pending, depErr := 0, NoError;
      ghost var start := Registration(items, 0, NoError);
      var i := 0;
      while i < |dependsOn|
        invariant 0 <= i <= |dependsOn|
        invariant items.Keys == start.items.Keys
        invariant Register(Registration(items, pending, depErr), id, dependsOn[i..]) == Register(start, id, dependsOn)
      {
        var d := dependsOn[i];
        assert dependsOn[i..][1..] == dependsOn[i + 1..];
        var dep := items[d];
        items := items[d := dep.(dependents := dep.dependents + [id])];
        if !dep.finished {
          pending := pending + 1;
        } else if dep.state.Completed? || !depErr.NoError? {
        } else if dep.state.Cancelled? {
          depErr := DependencyCancelled(d);
        } else {
          depErr := DependencyFailed(d);
        }
        i := i + 1;
      }
    }

    /** Ready tasks in some order, each once. */
    method PickReadyLocked() returns (ready: seq<Id>)
      ensures forall x :: x in ready <==> x in items && Ready(items[x])
      ensures forall i, j :: 0 <= i < j < |ready| ==> ready[i] != ready[j]
    {
      ready := [];
      var todo := items.Keys;
      while todo != {}
        invariant todo <= items.Keys
        invariant forall x :: x in ready <==> x in items && x !in todo && Ready(items[x])
        invariant forall i, j :: 0 <= i < j < |ready| ==> ready[i] != ready[j]
        decreases todo
      {
        var x :| x in todo;
        todo := todo - {x};
        if !items[x].inFlight && !items[x].finished {
          if items[x].state.Pending? || (items[x].state.Waiting? && items[x].depsPending == 0) {
            ready := ready + [x];
          }
        }
      }
    }

    /** Starts one worker per ready task; `spawned` are the goroutines started. */
    method LaunchLocked(ready: seq<Id>) returns (spawned: seq<(Id, nat)>)
      requires forall x :: x in ready <==> x in items && Ready(items[x])
      requires forall i, j :: 0 <= i < j < |ready| ==> ready[i] != ready[j]
      modifies this`items
      ensures Now() == PassCore(old(Now()))
      ensures |spawned| == |ready|
      ensures forall k :: 0 <= k < |ready| ==>
        spawned[k] == (ready[k], old(items)[ready[k]].generation + 1)
    {
      ghost var before := items;
      spawned := [];
      var i := 0;
      while i < |ready|
        invariant 0 <= i <= |ready| && |spawned| == i
        invariant items.Keys == before.Keys
        invariant forall x :: x in before && x !in ready[..i] ==> items[x] == before[x]
        invariant forall k :: 0 <= k < i ==> items[ready[k]] == LaunchItem(before[ready[k]])
        invariant forall k :: 0 <= k < i ==> spawned[k] == (ready[k], before[ready[k]].generation + 1)
      {
        var x := ready[i];
        assert x !in ready[..i] && x in ready;
        if items[x].inFlight || items[x].finished { assert false; }
        items := items[x := items[x].(state := Running, inFlight := true, generation := items[x].generation + 1)];
        spawned := spawned + [(x, items[x].generation)];
        i := i + 1;
      }
      assert ready[..i] == ready;
      AllLaunched(old(Now()), items, ready);
    }

    /** The critical section of the scheduler loop. */
    method SchedulerPass() returns (spawned: seq<(Id, nat)>)
      modifies this`items
      ensures Now() == PassCore(old(Now()))
      ensures forall x, g :: (x, g) in spawned <==>
                x in old(items) && Ready(old(items)[x]) && g == old(items)[x].generation + 1
    {
      var ready := PickReadyLocked();
      ghost var before := items;
      spawned := LaunchLocked(ready);
      forall x | x in before && Ready(before[x]) ensures (x, before[x].generation + 1) in spawned {
        var k :| 0 <= k < |ready| && ready[k] == x;
        assert spawned[k] == (x, before[x].generation + 1);
      }
    }

    /** The order in which a range over the item map visits its keys. */
    method RangeOrder() returns (order: seq<Id>)
      ensures Visits(order, items)
    {
      order := [];
      var todo := items.Keys;
      while todo != {}
        invariant todo <= items.Keys
        invariant forall x :: x in order <==> x in items && x !in todo
        decreases todo
      {
        var x :| x in todo;
        todo := todo - {x};
        order := order + [x];
      }
    }

    method OnSchedulerExit() returns (order: seq<Id>)
      modifies this`items, this`wake, this`started
      ensures Visits(order, old(items))
      ensures Now() == SchedulerExitCore(old(Now()), order)
    {
      started := false;
      ghost var start := Now();
      order := RangeOrder();
      var i := 0;
      while i < |order|
        invariant 0 <= i <= |order| && items.Keys == start.items.Keys
        invariant Now() == ExitLoop(start, order[..i])
      {
        ExitSnoc(start, order, i);
        ExitTurn(order[i]);
        i := i + 1;
      }
      assert order[..i] == order;
    }

    method ExitTurn(x: Id)
      requires x in items
      modifies this`items, this`wake
      ensures Now() == ExitOne(old(Now()), x)
    {
      if !items[x].finished {
        if items[x].state.Pending? || items[x].state.Waiting? {
          Finalize(x, Cancelled, ErrCancelled);
        }
      }
    }

    /** The critical section of a Shutdown whose context expired. */
    method ForceFinalize() returns (order: seq<Id>)
      modifies this`items, this`wake
      ensures Visits(order, old(items))
      ensures Now() == ForceLoop(old(Now()), order)
    {
      ghost var start := Now();
      order := RangeOrder();
      var i := 0;
      while i < |order|
        invariant 0 <= i <= |order| && items.Keys == start.items.Keys
        invariant Now() == ForceLoop(start, order[..i])
      {
        ForceSnoc(start, order, i);
        Finalize(order[i], Cancelled, ErrCancelled);
        i := i + 1;
      }
      assert order[..i] == order;
    }
  }
}
