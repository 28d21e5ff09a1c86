/** The task records of the backup engine and the operations that finish a task.

    A record is the engine's `taskItem`: the fields guarded by the task's own
    lock and the scheduling fields guarded by the engine's lock. Contexts are
    not recorded: their cancellation is a free choice of the environment. */
module BackupTasks {

  type Id = string

  datatype TaskState =
    | Pending | Waiting | Running | Paused
    | Completed | Failed | Cancelled | TimedOut
  {
    predicate Terminal() {
      Completed? || Failed? || Cancelled? || TimedOut?
    }
  }

  datatype Error =
    | NoError
    | ErrCancelled
    | DependencyCancelled(on: Id)
    | DependencyFailed(on: Id)
    | TaskError

  /** `retried` is a history variable: whether a manual Retry ever hit the task. */
  datatype Item = Item(
    dependsOn: seq<Id>,
    retryLimit: nat,
    state: TaskState,
    err: Error,
    attempt: nat,
    finished: bool,
    gatePaused: bool,
    depsPending: nat,
    dependents: seq<Id>,
    inFlight: bool,
    generation: nat,
    retried: bool)

  type Items = map<Id, Item>

  function Unfinished(items: Items): set<Id> {
    set x | x in items && !items[x].finished
  }

  function Remaining(items: Items): nat {
    |Unfinished(items)|
  }

  lemma SubsetSize(a: set<Id>, b: set<Id>)
    requires a <= b
    ensures |a| <= |b|
    ensures a != b ==> |a| < |b|
  {
    assert b == a + (b - a);
  }

  /** The scheduler's ready test for one task. */
  predicate Ready(it: Item) {
    !it.inFlight && !it.finished && (it.state.Pending? || (it.state.Waiting? && it.depsPending == 0))
  }

  function Finish(it: Item, st: TaskState, err: Error): Item {
    it.(finished := true, state := st, err := err)
  }

  /** A task that a finishing dependency still acts on. */
  predicate Open(items: Items, x: Id) {
    x in items && !items[x].inFlight && !items[x].finished
  }

  /** What finishing tasks may change in a record: nothing about its shape,
      nothing at all once it is finished, and its outcome only by finishing it. */
  predicate Evolved(a: Item, b: Item) {
    && (a.finished ==> b == a)
    && (!b.finished ==> b.state == a.state && b.err == a.err)
    && b.dependsOn == a.dependsOn && b.dependents == a.dependents && b.retryLimit == a.retryLimit
    && b.attempt == a.attempt && b.gatePaused == a.gatePaused && b.inFlight == a.inFlight
    && b.generation == a.generation && b.retried == a.retried
  }

  ghost predicate AllEvolved(before: Items, after: Items) {
    && after.Keys == before.Keys
    && forall x :: x in before ==> Evolved(before[x], after[x])
  }

  lemma EvolvedTrans(a: Items, b: Items, c: Items)
    requires AllEvolved(a, b) && AllEvolved(b, c)
    ensures AllEvolved(a, c)
  {
  }

  lemma EvolvedShrinks(before: Items, after: Items)
    requires AllEvolved(before, after)
    ensures Remaining(after) <= Remaining(before)
  {
    forall x | x in Unfinished(after) ensures x in Unfinished(before) {
      assert Evolved(before[x], after[x]);
    }
    SubsetSize(Unfinished(after), Unfinished(before));
  }

  function Mark(items: Items, id: Id, st: TaskState, err: Error): Items
    requires id in items
  {
    items[id := Finish(items[id], st, err)]
  }

  lemma MarkEvolves(items: Items, id: Id, st: TaskState, err: Error)
    requires id in items && !items[id].finished
    ensures AllEvolved(items, Mark(items, id, st, err))
    ensures Remaining(Mark(items, id, st, err)) < Remaining(items)
  {
    assert id in Unfinished(items) && id !in Unfinished(Mark(items, id, st, err));
    SubsetSize(Unfinished(Mark(items, id, st, err)), Unfinished(items));
  }

  function DependencyError(parent: Item, id: Id): Error {
    if parent.state.Cancelled? then DependencyCancelled(id) else DependencyFailed(id)
  }

  /** One critical section's worth of finishing a task: mark it, then act on its
      dependents, which may finish further tasks. */
  function FinalizeLocked(items: Items, id: Id, st: TaskState, err: Error): (r: Items)
    requires id in items
    ensures AllEvolved(items, r)
    ensures r[id].finished
    decreases Remaining(items), 0, 0
  {
    if items[id].finished then items
    else
      MarkEvolves(items, id, st, err);
      var marked := Mark(items, id, st, err);
      var r := OnTerminal(marked, id, items[id].dependents);
      assert Evolved(marked[id], r[id]);
      EvolvedTrans(items, marked, r);
      r
  }

  /** The loop over the dependents of a finished task, from the suffix `rest` on. */
  function OnTerminal(items: Items, id: Id, rest: seq<Id>): (r: Items)
    requires id in items && items[id].finished
    ensures AllEvolved(items, r)
    decreases Remaining(items), 2, |rest|
  {
    if rest == [] then items
    else
      var mid := OnTerminalOne(items, id, rest[0]);
      assert Evolved(items[id], mid[id]);
      EvolvedShrinks(items, mid);
      var r := OnTerminal(mid, id, rest[1..]);
      EvolvedTrans(items, mid, r);
      r
  }

  function OnTerminalOne(items: Items, id: Id, d: Id): (r: Items)
    requires id in items && items[id].finished
    ensures AllEvolved(items, r)
    decreases Remaining(items), 1, 0
  {
    if !Open(items, d) then items
    else if items[id].state.Completed? then
      items[d := items[d].(depsPending := if items[d].depsPending > 0 then items[d].depsPending - 1 else 0)]
    else FinalizeLocked(items, d, Failed, DependencyError(items[id], id))
  }
}
