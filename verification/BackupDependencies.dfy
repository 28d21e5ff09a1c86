/** Dependency safety: a task that was never manually retried is handed to a
    worker only when every task it depends on is Completed. Holds in every run,
    whatever the interleaving of workers, watchers and retries. */
module BackupDependencies {
  import opened BackupTasks
  import opened BackupCascade
  import opened BackupEngine
  import opened BackupProtocol

  /** Number of dependency occurrences not yet Completed. */
  function Missing(items: Items, deps: seq<Id>): nat {
    if deps == [] then 0
    else (if deps[0] in items && items[deps[0]].state.Completed? then 0 else 1) + Missing(items, deps[1..])
  }

  predicate Done(items: Items, d: Id) {
    d in items && items[d].finished && items[d].state.Completed?
  }

  /** `dependents` lists are exactly the reversed `dependsOn` lists. */
  ghost predicate Graph(items: Items) {
    && (forall b, d :: b in items && d in items[b].dependsOn ==> d in items)
    && (forall a, b {:trigger EdgesAgree(items, a, b)} :: a in items ==> EdgesAgree(items, a, b))
  }

  /** `b` is listed as often among the dependents of `a` as `a` among its dependencies. */
  ghost predicate EdgesAgree(items: Items, a: Id, b: Id)
    requires a in items
  {
    Occurs(items[a].dependents, b) == if b in items then Occurs(items[b].dependsOn, a) else 0
  }

  /** The graph is in the edges alone. */
  lemma SameGraph(items: Items, after: Items)
    requires Graph(items) && after.Keys == items.Keys
    requires forall x :: x in items ==> after[x].dependsOn == items[x].dependsOn && after[x].dependents == items[x].dependents
    ensures Graph(after)
  {
    forall a, b | a in after ensures EdgesAgree(after, a, b) {
      assert EdgesAgree(items, a, b);
    }
  }

  /** The bookkeeping of one task that no worker has taken yet. */
  ghost predicate Accounted(items: Items, x: Id)
    requires x in items
  {
    var it := items[x];
    && !it.inFlight && !it.retried
    && (!it.finished ==>
          && it.depsPending == Missing(items, it.dependsOn)
          && (it.state.Waiting? || (it.state.Pending? && it.depsPending == 0))
          && forall d :: d in it.dependsOn ==> Done(items, d) || (d in items && !items[d].finished))
  }

  ghost predicate TaskOk(items: Items, x: Id)
    requires x in items
  {
    var it := items[x];
    && (it.finished <==> it.state.Terminal())
    && (it.generation == 0 ==> Accounted(items, x))
    && (it.generation > 0 && !it.retried ==> forall d :: d in it.dependsOn ==> Done(items, d))
  }

  ghost predicate TasksOk(items: Items) {
    Graph(items) && forall x {:trigger TaskOk(items, x)} :: x in items ==> TaskOk(items, x)
  }

  // ----------------------------------------------------------- counting facts

  lemma {:induction false} OccursIn(s: seq<Id>, x: Id)
    ensures Occurs(s, x) > 0 <==> x in s
  {
    if s != [] { OccursIn(s[1..], x); }
  }

  lemma {:induction false} OccursAppend(s: seq<Id>, x: Id, y: Id)
    ensures Occurs(s + [x], y) == Occurs(s, y) + if x == y then 1 else 0
  {
    if s == [] {
      assert s + [x] == [x];
    } else {
      assert (s + [x])[1..] == s[1..] + [x];
      OccursAppend(s[1..], x, y);
    }
  }

  /** Missing depends only on which dependencies are Completed. */
  lemma {:induction false} MissingSame(a: Items, b: Items, deps: seq<Id>)
    requires forall d :: d in deps ==> d in a && d in b && (a[d].state.Completed? <==> b[d].state.Completed?)
    ensures Missing(a, deps) == Missing(b, deps)
  {
    if deps != [] { MissingSame(a, b, deps[1..]); }
  }

  lemma {:induction false} MissingDrop(a: Items, b: Items, id: Id, deps: seq<Id>)
    requires id in a && id in b && !a[id].state.Completed? && b[id].state.Completed?
    requires forall d :: d in deps && d != id ==>
      d in a && d in b && (a[d].state.Completed? <==> b[d].state.Completed?)
    ensures Missing(a, deps) == Missing(b, deps) + Occurs(deps, id)
  {
    if deps != [] { MissingDrop(a, b, id, deps[1..]); }
  }

  lemma {:induction false} MissingZero(items: Items, deps: seq<Id>)
    requires Missing(items, deps) == 0
    ensures forall d :: d in deps ==> d in items && items[d].state.Completed?
  {
    if deps != [] { MissingZero(items, deps[1..]); }
  }

  lemma GraphEdge(items: Items, a: Id, b: Id)
    requires Graph(items) && b in items && a in items[b].dependsOn
    ensures a in items && b in items[a].dependents
  {
    assert EdgesAgree(items, a, b);
    OccursIn(items[b].dependsOn, a);
    OccursIn(items[a].dependents, b);
  }

  // -------------------------------------------------- updates of one record

  /** Replacing one record by one with the same edges, Completed exactly when the
      old one was and finished only if the old one was, disturbs no other task. */
  lemma UpdateKeeps(items: Items, x: Id, it: Item)
    requires TasksOk(items) && x in items
    requires it.dependsOn == items[x].dependsOn && it.dependents == items[x].dependents
    requires it.state.Completed? <==> items[x].state.Completed?
    requires it.finished ==> items[x].finished
    requires Done(items, x) ==> it.finished
    requires TaskOk(items[x := it], x)
    ensures TasksOk(items[x := it])
  {
    var after := items[x := it];
    SameGraph(items, after);
    forall y | y in after ensures TaskOk(after, y) {
      assert TaskOk(items, y);
      if y != x { SettledKeeps(items, after, y); }
    }
  }

  /** A record that did not change stays in order when the Completed tasks are the
      same and no task finished. */
  lemma SettledKeeps(items: Items, after: Items, y: Id)
    requires Graph(items) && y in items && TaskOk(items, y)
    requires items.Keys <= after.Keys && SameTask(items[y], after[y])
    requires forall d :: d in items ==>
      && (items[d].state.Completed? <==> after[d].state.Completed?)
      && (after[d].finished ==> items[d].finished) && (Done(items, d) ==> after[d].finished)
    ensures TaskOk(after, y)
  {
    MissingSame(items, after, items[y].dependsOn);
    forall d | d in items[y].dependsOn && Done(items, d) ensures Done(after, d) {}
  }

  /** Equal up to the list of dependents. */
  predicate SameTask(a: Item, b: Item) {
    a == b.(dependents := a.dependents)
  }

  // ------------------------------------------------------------ finishing one

  lemma {:induction false} CompleteKeeps(items: Items, id: Id, err: Error)
    requires TasksOk(items) && id in items && !items[id].finished
    requires items[id].generation > 0
    ensures TasksOk(FinalizeLocked(items, id, Completed, err))
  {
    var r := FinalizeLocked(items, id, Completed, err);
    CompletionExact(items, id, err);
    forall y | y in r ensures TaskOk(r, y) {
      assert TaskOk(items, y) && TaskOk(items, id);
      CompleteKeepsOne(items, r, id, y);
    }
    SameGraph(items, r);
  }

  lemma CompleteKeepsOne(items: Items, r: Items, id: Id, y: Id)
    requires Graph(items) && id in items && y in items && TaskOk(items, y) && TaskOk(items, id)
    requires !items[id].finished && items[id].generation > 0
    requires r.Keys == items.Keys && Done(r, id)
    requires SameEdges(items[id], r[id])
    requires forall x :: x in items && x != id ==>
      r[x] == if Open(items, x)
              then items[x].(depsPending := Drop(items[x].depsPending, Occurs(items[id].dependents, x)))
              else items[x]
    ensures TaskOk(r, y)
  {
    if y != id && items[y].generation == 0 && !items[y].finished {
      assert EdgesAgree(items, id, y);
      MissingDrop(items, r, id, items[y].dependsOn);
    }
    forall d | d in items[y].dependsOn && Done(items, d) ensures Done(r, d) {}
  }

  predicate SameEdges(a: Item, b: Item) {
    && b.dependsOn == a.dependsOn && b.dependents == a.dependents
    && b.generation == a.generation && b.retried == a.retried && b.inFlight == a.inFlight
  }

  lemma {:induction false} FailKeeps(items: Items, id: Id, st: TaskState, err: Error)
    requires TasksOk(items) && id in items && !items[id].finished
    requires st.Terminal() && !st.Completed?
    ensures TasksOk(FinalizeLocked(items, id, st, err))
  {
    var r := FinalizeLocked(items, id, st, err);
    FailedOnly(items, id, st, err);
    FinalizeCloses(items, id, st, err);
    forall y | y in r ensures TaskOk(r, y) {
      assert TaskOk(items, y);
      FailKeepsOne(items, r, y);
    }
    forall x | x in items ensures SameEdges(items[x], r[x]) {
      assert Evolved(items[x], r[x]);
    }
    SameGraph(items, r);
  }

  lemma {:induction false} FailedOnly(items: Items, id: Id, st: TaskState, err: Error)
    requires id in items && !items[id].finished && st.Terminal() && !st.Completed?
    ensures var r := FinalizeLocked(items, id, st, err);
      forall x :: x in items ==>
        if Newly(items, r, x) then r[x].state.Terminal() && !r[x].state.Completed? else r[x] == items[x]
  {
    var r := FinalizeLocked(items, id, st, err);
    CascadeExact(items, id, st, err);
    forall x | x in items
      ensures if Newly(items, r, x) then r[x].state.Terminal() && !r[x].state.Completed? else r[x] == items[x]
    {
      if x != id && Reaches(items, id, x) {
        var p :| Blamed(items, r, id, x, p);
      } else {
        ReachesSelf(items, id);
      }
    }
  }

  lemma FailKeepsOne(items: Items, r: Items, y: Id)
    requires TasksOk(items) && y in items
    requires AllEvolved(items, r) && ClosedUnder(items, r)
    requires forall x :: x in items ==>
      if Newly(items, r, x) then r[x].state.Terminal() && !r[x].state.Completed? else r[x] == items[x]
    ensures TaskOk(r, y)
  {
    assert TaskOk(items, y) && Evolved(items[y], r[y]);
    forall d | d in items[y].dependsOn ensures d in items && (Done(items, d) <==> Done(r, d)) {
      assert TaskOk(items, d);
    }
    if !r[y].finished && items[y].generation == 0 {
      forall d | d in items[y].dependsOn ensures r[d] == items[d] {
        GraphEdge(items, d, y);
        assert Edge(items, d, y);
      }
      MissingSame(items, r, items[y].dependsOn);
    }
  }

  lemma {:induction false} FinalizeKeeps(items: Items, id: Id, st: TaskState, err: Error)
    requires TasksOk(items) && id in items && st.Terminal()
    requires st.Completed? ==> items[id].generation > 0
    ensures TasksOk(FinalizeLocked(items, id, st, err))
  {
    if items[id].finished {
    } else if st.Completed? {
      CompleteKeeps(items, id, err);
    } else {
      FailKeeps(items, id, st, err);
    }
  }

  // ------------------------------------------------------------------- submit

  lemma {:induction false} RegisterSame(g: Registration, id: Id, deps: seq<Id>, x: Id)
    requires x in g.items && forall d :: d in deps ==> d in g.items
    ensures SameTask(g.items[x], Register(g, id, deps).items[x])
    decreases |deps|
  {
    if deps != [] { RegisterSame(RegisterOne(g, id, deps[0]), id, deps[1..], x); }
  }

  lemma {:induction false} RegisterOccurs(g: Registration, id: Id, deps: seq<Id>, x: Id, b: Id)
    requires x in g.items && forall d :: d in deps ==> d in g.items
    ensures Occurs(Register(g, id, deps).items[x].dependents, b)
         == Occurs(g.items[x].dependents, b) + if b == id then Occurs(deps, x) else 0
    decreases |deps|
  {
    if deps != [] {
      var h := RegisterOne(g, id, deps[0]);
      RegisterOccurs(h, id, deps[1..], x, b);
      OccursAppend(g.items[x].dependents, id, b);
    }
  }

  lemma SameRegistered(g: Registration, id: Id, d: Id)
    requires d in g.items
    ensures var h := RegisterOne(g, id, d).items;
      h.Keys == g.items.Keys && forall x :: x in g.items ==> SameTask(g.items[x], h[x])
  {
  }

  /** Without a dependency error, every dependency is Completed or still running,
      and the pending count is the number of those not Completed. */
  lemma {:induction false} RegisterPending(g: Registration, id: Id, deps: seq<Id>)
    requires forall d :: d in deps ==> d in g.items
    requires forall x :: x in g.items ==> (g.items[x].finished <==> g.items[x].state.Terminal())
    requires Register(g, id, deps).depErr.NoError?
    ensures g.depErr.NoError?
    ensures Register(g, id, deps).pending == g.pending + Missing(g.items, deps)
    ensures forall d :: d in deps ==> Done(g.items, d) || !g.items[d].finished
    decreases |deps|
  {
    if deps != [] {
      var h := RegisterOne(g, id, deps[0]);
      SameRegistered(g, id, deps[0]);
      RegisterPending(h, id, deps[1..]);
      MissingSame(g.items, h.items, deps[1..]);
      forall d | d in deps[1..] ensures Done(g.items, d) || !g.items[d].finished {
        assert Done(h.items, d) || !h.items[d].finished;
      }
    }
  }

  /** What the registration of `deps` has done to the records. */
  ghost predicate Registered(before: Items, after: Items, id: Id, deps: seq<Id>) {
    && after.Keys == before.Keys
    && (forall x :: x in before ==> SameTask(before[x], after[x]))
    && (forall x, b :: x in before ==>
          Occurs(after[x].dependents, b)
          == Occurs(before[x].dependents, b) + if b == id then Occurs(deps, x) else 0)
  }

  lemma {:induction false} RegisterOk(items: Items, id: Id, deps: seq<Id>)
    requires forall d :: d in deps ==> d in items
    ensures Registered(items, Register(Registration(items, 0, NoError), id, deps).items, id, deps)
  {
    var g := Registration(items, 0, NoError);
    forall x | x in items ensures SameTask(items[x], Register(g, id, deps).items[x]) {
      RegisterSame(g, id, deps, x);
    }
    forall x, b | x in items
      ensures Occurs(Register(g, id, deps).items[x].dependents, b)
           == Occurs(items[x].dependents, b) + if b == id then Occurs(deps, x) else 0
    {
      RegisterOccurs(g, id, deps, x, b);
    }
  }

  ghost predicate PendingRight(items: Items, g: Registration, deps: seq<Id>)
    requires forall d :: d in deps ==> d in items
  {
    g.depErr.NoError? ==>
      && g.pending == Missing(items, deps)
      && forall d :: d in deps ==> Done(items, d) || !items[d].finished
  }

  lemma NewTaskKeeps(items: Items, g: Registration, t: Task)
    requires TasksOk(items) && t.id !in items && t.id !in t.dependsOn && t.retry >= 0
    requires forall d :: d in t.dependsOn ==> d in items
    requires Registered(items, g.items, t.id, t.dependsOn) && PendingRight(items, g, t.dependsOn)
    ensures var added := g.items[t.id := NewItem(t, g)];
      TasksOk(if g.depErr.NoError? then added else FinalizeLocked(added, t.id, Failed, g.depErr))
  {
    var it := NewItem(t, g);
    if g.depErr.NoError? {
      AddedOk(items, g.items, t.id, it);
    } else {
      AddedOk(items, g.items, t.id, Finish(it, Failed, g.depErr));
      FinalizeLeaf(g.items[t.id := it], t.id, Failed, g.depErr);
      var failed := Finish(it, Failed, g.depErr);
      assert g.items[t.id := it][t.id := failed] == g.items[t.id := failed];
    }
  }

  lemma {:induction false} RegisterRight(items: Items, id: Id, deps: seq<Id>)
    requires TasksOk(items) && forall d :: d in deps ==> d in items
    ensures PendingRight(items, Register(Registration(items, 0, NoError), id, deps), deps)
  {
    assert forall x :: x in items ==> TaskOk(items, x);
    if Register(Registration(items, 0, NoError), id, deps).depErr.NoError? {
      RegisterPending(Registration(items, 0, NoError), id, deps);
    }
  }

  lemma SubmitKeeps(c: Core, t: Task)
    requires TasksOk(c.items)
    ensures TasksOk(SubmitCore(c, t).items)
  {
    if SubmitVerdict(c, t).Accepted? {
      var g := Register(Registration(c.items, 0, NoError), t.id, t.dependsOn);
      RegisterOk(c.items, t.id, t.dependsOn);
      RegisterRight(c.items, t.id, t.dependsOn);
      ValidHasNoSelf(t.id, t.dependsOn, t.watchersValid);
      NewTaskKeeps(c.items, g, t);
    }
  }

  lemma {:induction false} FinalizeLeaf(items: Items, id: Id, st: TaskState, err: Error)
    requires id in items && !items[id].finished && items[id].dependents == []
    ensures FinalizeLocked(items, id, st, err) == items[id := Finish(items[id], st, err)]
  {
  }

  lemma {:induction false} ValidHasNoSelf(id: Id, deps: seq<Id>, w: bool)
    requires ValidateDeps(id, deps, w).Accepted?
    ensures id !in deps
  {
    if deps != [] { ValidHasNoSelf(id, deps[1..], w); }
  }

  /** Adding a fresh record whose own bookkeeping is right keeps all others. */
  lemma {:induction false} AddedOk(before: Items, registered: Items, id: Id, it: Item)
    requires TasksOk(before) && id !in before && id !in it.dependsOn
    requires forall d :: d in it.dependsOn ==> d in before
    requires Registered(before, registered, id, it.dependsOn)
    requires it.dependents == [] && it.generation == 0 && !it.retried && !it.inFlight
    requires it.finished <==> it.state.Terminal()
    requires !it.finished ==> it.depsPending == Missing(before, it.dependsOn)
    requires !it.finished ==> it.state == if it.depsPending > 0 then Waiting else Pending
    requires !it.finished ==> forall d :: d in it.dependsOn ==> Done(before, d) || !before[d].finished
    ensures TasksOk(registered[id := it])
  {
    var after := registered[id := it];
    forall y | y in after ensures TaskOk(after, y) {
      if y == id {
        MissingSame(before, after, it.dependsOn);
        AddedDone(before, after, it.dependsOn);
      } else {
        SettledKeeps(before, after, y);
      }
    }
    AddedGraph(before, registered, id, it);
  }

  lemma AddedDone(before: Items, after: Items, deps: seq<Id>)
    requires forall d :: d in deps ==> d in before && d in after && SameTask(before[d], after[d])
    ensures forall d :: d in deps && Done(before, d) ==> Done(after, d)
  {
  }

  lemma AddedGraph(before: Items, registered: Items, id: Id, it: Item)
    requires Graph(before) && id !in before && id !in it.dependsOn
    requires forall d :: d in it.dependsOn ==> d in before
    requires Registered(before, registered, id, it.dependsOn)
    requires it.dependents == []
    ensures Graph(registered[id := it])
  {
    var after := registered[id := it];
    forall a, b | a in after ensures EdgesAgree(after, a, b) {
      if a in before { assert EdgesAgree(before, a, b); }
      assert b in before ==> SameTask(before[b], after[b]);
      if a == id && b in after {
        OccursIn(after[b].dependsOn, id);
      }
    }
  }

  // ------------------------------------------------------- the other sections

  lemma TransitionKeeps(c: Core, id: Id, st: TaskState)
    requires TasksOk(c.items) && id in c.items && c.items[id].generation > 0 && !st.Terminal()
    ensures TasksOk(TransitionCore(c, id, st).items)
  {
    assert TaskOk(c.items, id);
    if !c.items[id].finished && c.items[id].state != st {
      StillDone(c.items, id, c.items[id].(state := st));
      UpdateKeeps(c.items, id, c.items[id].(state := st));
    }
  }

  /** Updating a record that is not Completed leaves the Completed ones alone. */
  lemma StillDone(items: Items, x: Id, it: Item)
    requires x in items && (Done(items, x) ==> it.finished && it.state.Completed?)
    ensures forall d :: Done(items, d) ==> Done(items[x := it], d)
  {
  }

  lemma AuxKeeps(items: Items, x: Id, it: Item)
    requires TasksOk(items) && x in items
    requires it == items[x].(attempt := it.attempt, gatePaused := it.gatePaused, inFlight := it.inFlight)
    requires it.inFlight ==> items[x].inFlight
    ensures TasksOk(items[x := it])
  {
    assert TaskOk(items, x);
    StillDone(items, x, it);
    MissingSame(items, items[x := it], it.dependsOn);
    UpdateKeeps(items, x, it);
  }

  lemma RetryKeeps(c: Core, id: Id)
    requires TasksOk(c.items) && id in c.items
    ensures TasksOk(RetryCore(c, id).items)
  {
    assert TaskOk(c.items, id);
    if RetryVerdict(c, id).Accepted? {
      UpdateKeeps(c.items, id, Rearm(c.items[id]));
    }
  }

  lemma CancelKeeps(c: Core, id: Id)
    requires TasksOk(c.items) && id in c.items
    ensures TasksOk(CancelCore(c, id).items)
  {
    FinalizeKeeps(c.items, id, Cancelled, ErrCancelled);
  }

  lemma PassKeeps(c: Core)
    requires TasksOk(c.items)
    ensures TasksOk(PassCore(c).items)
  {
    var after := PassCore(c).items;
    forall y | y in after ensures TaskOk(after, y) {
      PassKeepsOne(c.items, after, y);
    }
    SameGraph(c.items, after);
  }

  lemma PassKeepsOne(items: Items, after: Items, y: Id)
    requires TasksOk(items) && y in items && after.Keys == items.Keys
    requires forall d :: d in items ==> after[d] == if Ready(items[d]) then LaunchItem(items[d]) else items[d]
    ensures TaskOk(after, y)
  {
    forall d | d in items
      ensures items[d].state.Completed? <==> after[d].state.Completed?
      ensures items[d].finished == after[d].finished
      ensures Done(items, d) ==> Done(after, d)
    {
      assert TaskOk(items, d);
    }
    if !Ready(items[y]) {
      SettledKeeps(items, after, y);
    } else if !items[y].retried {
      ReadyIsSafe(items, y);
    }
  }

  /** The ready test admits a never retried task only over Completed dependencies. */
  lemma ReadyIsSafe(items: Items, x: Id)
    requires TasksOk(items) && x in items && Ready(items[x]) && !items[x].retried
    ensures forall d :: d in items[x].dependsOn ==> Done(items, d)
  {
    assert TaskOk(items, x);
    if items[x].generation == 0 {
      MissingZero(items, items[x].dependsOn);
      forall d | d in items[x].dependsOn ensures Done(items, d) {
        assert TaskOk(items, d);
      }
    }
  }

  lemma {:induction false} ExitKeeps(c: Core, order: seq<Id>)
    requires TasksOk(c.items) && forall x :: x in order ==> x in c.items
    ensures TasksOk(ExitLoop(c, order).items)
    decreases |order|
  {
    if order != [] {
      FinalizeKeeps(c.items, order[0], Cancelled, ErrCancelled);
      ExitKeeps(ExitOne(c, order[0]), order[1..]);
    }
  }

  lemma {:induction false} ForceKeeps(c: Core, order: seq<Id>)
    requires TasksOk(c.items) && forall x :: x in order ==> x in c.items
    ensures TasksOk(ForceLoop(c, order).items)
    decreases |order|
  {
    if order != [] {
      FinalizeKeeps(c.items, order[0], Cancelled, ErrCancelled);
      ForceKeeps(FinalizeCore(c, order[0], Cancelled, ErrCancelled), order[1..]);
    }
  }

  // --------------------------------------------------------- the step system

  /** A worker names an existing task and a generation it had; only terminal
      outcomes are ever handed to finalize; a worker on its way out has lost the
      task or finished it. */
  ghost predicate WorkerOk(items: Items, w: WorkerId, pc: WorkerPc) {
    && w.0 in items && 1 <= w.1 <= items[w.0].generation
    && (pc.AtFinalize? ==> pc.st.Terminal())
    && (pc.AtExit? ==> items[w.0].finished || items[w.0].generation != w.1)
  }

  ghost predicate WorkersOk(s: Sys) {
    forall w :: w in s.workers ==> WorkerOk(s.core.items, w, s.workers[w])
  }

  ghost predicate SafeState(s: Sys) {
    TasksOk(s.core.items) && WorkersOk(s)
  }

  /** Every section keeps the tasks, never lowers a generation, un-finishes a task
      only by giving it a new generation, and leaves Completed tasks Completed. */
  predicate Moves(a: Item, b: Item) {
    && b.generation >= a.generation
    && (a.finished && !b.finished ==> b.generation > a.generation)
    && (a.finished && a.state.Completed? ==> b.finished && b.state.Completed?)
  }

  ghost predicate Advances(before: Items, after: Items) {
    forall x :: x in before ==> x in after && Moves(before[x], after[x])
  }

  lemma AdvancesKeepsWorkers(s: Sys, core: Core)
    requires WorkersOk(s) && Advances(s.core.items, core.items)
    ensures WorkersOk(s.(core := core))
  {
  }

  lemma EvolvedAdvances(before: Items, after: Items)
    requires AllEvolved(before, after)
    ensures Advances(before, after)
  {
  }

  lemma SubmitAdvances(c: Core, t: Task)
    ensures Advances(c.items, SubmitCore(c, t).items)
  {
    if SubmitVerdict(c, t).Accepted? {
      var g := Register(Registration(c.items, 0, NoError), t.id, t.dependsOn);
      RegisterOk(c.items, t.id, t.dependsOn);
      var added := g.items[t.id := NewItem(t, g)];
      RegisteredAdvances(c.items, g.items, t.id, NewItem(t, g));
      if !g.depErr.NoError? {
        EvolvedAdvances(added, FinalizeLocked(added, t.id, Failed, g.depErr));
        AdvancesTrans(c.items, added, FinalizeLocked(added, t.id, Failed, g.depErr));
      }
    }
  }

  lemma RegisteredAdvances(items: Items, registered: Items, id: Id, it: Item)
    requires id !in items && registered.Keys == items.Keys
    requires forall x :: x in items ==> SameTask(items[x], registered[x])
    ensures Advances(items, registered[id := it])
  {
  }

  lemma AdvancesTrans(a: Items, b: Items, c: Items)
    requires Advances(a, b) && Advances(b, c)
    ensures Advances(a, c)
  {
  }

  lemma OneAdvances(items: Items, x: Id, it: Item)
    requires x in items && Moves(items[x], it)
    ensures Advances(items, items[x := it])
  {
  }

  lemma WorkerStepKeeps(s: Sys, w: WorkerId, choice: Choice)
    requires SafeState(s) && w in s.workers
    requires Enabled(s, Worker(w, choice))
    ensures SafeState(WorkerApply(s, w, choice))
  {
    var pc := s.workers[w];
    var c := s.core;
    assert WorkerOk(c.items, w, pc);
    WorkerCoreKeeps(c, w, pc);
    WorkerAdvances(c, w, pc);
    AdvancesKeepsWorkers(s, WorkerCore(c, w.0, w.1, pc));
    var after := WorkerApply(s, w, choice);
    if !pc.AtExit? {
      NextPcOk(c, w, pc, choice);
    }
  }

  lemma WorkerCoreKeeps(c: Core, w: WorkerId, pc: WorkerPc)
    requires TasksOk(c.items) && WorkerOk(c.items, w, pc)
    ensures TasksOk(WorkerCore(c, w.0, w.1, pc).items)
  {
    var id := w.0;
    if Marks(pc) {
      TransitionKeeps(c, id, MarkOf(pc));
      assert WorkerCore(c, id, w.1, pc) == TransitionCore(c, id, MarkOf(pc));
    } else if pc.AtAttempt? {
      AuxKeeps(c.items, id, c.items[id].(attempt := c.items[id].attempt + 1));
    } else if pc.AtFinalize? {
      FinalizeKeeps(c.items, id, pc.st, pc.err);
      assert WorkerCore(c, id, w.1, pc) == FinalizeCore(c, id, pc.st, pc.err);
    } else if pc.AtExit? {
      AuxKeeps(c.items, id, c.items[id].(inFlight := false));
    } else {
      assert WorkerCore(c, id, w.1, pc) == c;
    }
  }

  lemma WorkerAdvances(c: Core, w: WorkerId, pc: WorkerPc)
    requires w.0 in c.items
    ensures Advances(c.items, WorkerCore(c, w.0, w.1, pc).items)
  {
    if pc.AtFinalize? {
      EvolvedAdvances(c.items, FinalizeLocked(c.items, w.0, pc.st, pc.err));
    } else {
      OneAdvances(c.items, w.0, WorkerCore(c, w.0, w.1, pc).items[w.0]);
    }
  }

  lemma NextPcOk(c: Core, w: WorkerId, pc: WorkerPc, choice: Choice)
    requires WorkerOk(c.items, w, pc) && !pc.AtExit?
    ensures WorkerOk(WorkerCore(c, w.0, w.1, pc).items, w, NextPc(c.items[w.0], w.1, pc, choice))
  {
    if pc.AtFinalize? {
      EvolvedAdvances(c.items, FinalizeLocked(c.items, w.0, pc.st, pc.err));
    }
  }

  /** No step un-finishes a task within its generation or undoes a completion. */
  lemma StepAdvances(s: Sys, step: Step)
    requires Enabled(s, step)
    ensures Advances(s.core.items, Apply(s, step).core.items)
  {
    var c := s.core;
    match step
    case Submit(t) => SubmitAdvances(c, t);
    case Cancel(id) => CancelAdvances(c, id);
    case WatcherCancel(id, gen) => CancelAdvances(c, id);
    case WatcherFail(id, gen) => EvolvedAdvances(c.items, FinalizeLocked(c.items, id, Failed, TaskError));
    case SchedulerExit(order) => EvolvedAdvances(c.items, SchedulerExitCore(c, order).items);
    case Worker(w, choice) => WorkerAdvances(c, w, s.workers[w]);
    case TimedOutShutdown(order) => EvolvedAdvances(c.items, ForceLoop(c, order).items);
    case _ =>
  }

  lemma CancelAdvances(c: Core, id: Id)
    requires id in c.items
    ensures Advances(c.items, CancelCore(c, id).items)
  {
  }

  lemma StepKeepsTasks(s: Sys, step: Step)
    requires SafeState(s) && Enabled(s, step) && !step.Worker?
    ensures TasksOk(Apply(s, step).core.items)
  {
    var c := s.core;
    match step
    case Submit(t) => SubmitKeeps(c, t);
    case Cancel(id) => CancelKeeps(c, id);
    case Pause(id) => AuxKeeps(c.items, id, c.items[id].(gatePaused := true));
    case Resume(id) => AuxKeeps(c.items, id, c.items[id].(gatePaused := false));
    case Retry(id) => RetryKeeps(c, id);
    case WatcherCancel(id, gen) => CancelKeeps(c, id);
    case WatcherFail(id, gen) => FinalizeKeeps(c.items, id, Failed, TaskError);
    case Pass => PassKeeps(c);
    case SchedulerExit(order) => ExitKeeps(c.(started := false), order);
    case TimedOutShutdown(order) => ForceKeeps(c, order);
    case _ =>
  }

  lemma StepKeeps(s: Sys, step: Step)
    requires SafeState(s) && Enabled(s, step)
    ensures SafeState(Apply(s, step))
  {
    if step.Worker? {
      WorkerStepKeeps(s, step.w, step.choice);
    } else {
      StepKeepsTasks(s, step);
      StepAdvances(s, step);
      AdvancesKeepsWorkers(s, Apply(s, step).core);
      if step.Pass? { PassStepKeeps(s); }
    }
  }

  lemma PassStepKeeps(s: Sys)
    requires SafeState(s) && Enabled(s, Pass)
    ensures SafeState(Apply(s, Pass))
  {
    PassKeeps(s.core);
    AdvancesKeepsWorkers(s, PassCore(s.core));
    var after := Apply(s, Pass);
    forall w | w in after.workers ensures WorkerOk(after.core.items, w, after.workers[w]) {
      if w !in Launched(s.core.items) {
        assert w in s.workers && after.workers[w] == s.workers[w];
      }
    }
  }

  lemma {:induction false} RunSafe(s: Sys, steps: seq<Step>)
    requires SafeState(s) && IsRun(s, steps)
    ensures SafeState(After(s, steps))
    decreases |steps|
  {
    if steps != [] {
      StepKeeps(s, steps[0]);
      RunSafe(Apply(s, steps[0]), steps[1..]);
    }
  }

  // ----------------------------------------------------------------- theorems

  /** Dependency safety. In every run, whenever the scheduler makes a pass, each
      task it hands to a worker and that was never manually retried has only
      Completed dependencies, and a Completed task never changes state again. */
  lemma {:induction false} DependencySafety(capacity: nat, steps: seq<Step>, x: Id, d: Id)
    requires IsRun(Init(capacity), steps)
    requires var s := After(Init(capacity), steps);
      && Enabled(s, Pass) && x in s.core.items && !s.core.items[x].retried
      && (x, s.core.items[x].generation + 1) in Apply(s, Pass).workers && d in s.core.items[x].dependsOn
    ensures Done(After(Init(capacity), steps).core.items, d)
  {
    RunSafe(Init(capacity), steps);
    var s, w := After(Init(capacity), steps), (x, After(Init(capacity), steps).core.items[x].generation + 1);
    assert w !in s.workers;
    ReadyIsSafe(s.core.items, x);
  }

  /** The counter behind the ready test: in every run, a task no worker has taken
      yet and that is not finished counts exactly the dependency occurrences that
      are not Completed, and none of its dependencies has failed. */
  lemma {:induction false} PendingCountExact(capacity: nat, steps: seq<Step>, x: Id)
    requires IsRun(Init(capacity), steps)
    requires var s := After(Init(capacity), steps);
      x in s.core.items && s.core.items[x].generation == 0 && !s.core.items[x].finished
    ensures var items := After(Init(capacity), steps).core.items;
      && items[x].depsPending == Missing(items, items[x].dependsOn)
      && forall d :: d in items[x].dependsOn ==> d in items && (items[d].finished ==> items[d].state.Completed?)
  {
    RunSafe(Init(capacity), steps);
    assert TaskOk(After(Init(capacity), steps).core.items, x);
  }

  /** Completed is absorbing: no step changes the outcome of a Completed task. */
  lemma CompletedAbsorbing(s: Sys, step: Step, d: Id)
    requires Enabled(s, step) && Done(s.core.items, d)
    ensures Done(Apply(s, step).core.items, d)
  {
    StepAdvances(s, step);
  }
}
