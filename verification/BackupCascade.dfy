/** What finishing one task does to all the others.

    A failure travels along `dependents` edges through tasks that are neither
    finished nor owned by a worker. The theorem `CascadeExact` gives the exact
    set of tasks it finishes; `CompletionExact` gives the counters a success
    leaves behind. */
module BackupCascade {
  import opened BackupTasks

  predicate Edge(items: Items, a: Id, b: Id) {
    a in items && b in items[a].dependents && Open(items, b)
  }

  ghost predicate Chain(items: Items, p: seq<Id>) {
    |p| > 0 && forall i :: 0 <= i < |p| - 1 ==> Edge(items, p[i], p[i + 1])
  }

  ghost predicate Reaches(items: Items, a: Id, b: Id) {
    exists p :: Chain(items, p) && p[0] == a && p[|p| - 1] == b
  }

  predicate Newly(items: Items, r: Items, x: Id) {
    x in items && x in r && !items[x].finished && r[x].finished
  }

  // ---------------------------------------------------------------- soundness

  lemma ReachesSelf(items: Items, a: Id)
    ensures Reaches(items, a, a)
  {
    assert Chain(items, [a]);
  }

  lemma ReachesStep(items: Items, a: Id, b: Id, c: Id)
    requires Edge(items, a, b) && Reaches(items, b, c)
    ensures Reaches(items, a, c)
  {
    var p :| Chain(items, p) && p[0] == b && p[|p| - 1] == c;
    var q := [a] + p;
    forall i | 0 <= i < |q| - 1 ensures Edge(items, q[i], q[i + 1]) {
      if i > 0 { assert Edge(items, p[i - 1], p[i]); }
    }
    assert Chain(items, q);
  }

  lemma ReachesEarlier(items: Items, later: Items, a: Id, b: Id)
    requires AllEvolved(items, later) && Reaches(later, a, b)
    ensures Reaches(items, a, b)
  {
  }

  lemma {:induction false} FinalizeReaches(items: Items, id: Id, st: TaskState, err: Error, x: Id)
    requires id in items && !st.Completed?
    requires Newly(items, FinalizeLocked(items, id, st, err), x)
    ensures Reaches(items, id, x)
    decreases Remaining(items), 0, 0
  {
    var marked := Mark(items, id, st, err);
    if x == id {
      ReachesSelf(items, id);
    } else {
      MarkEvolves(items, id, st, err);
      OnTerminalReaches(marked, id, items[id].dependents, x);
      var d :| d in items[id].dependents && Open(marked, d) && Reaches(marked, d, x);
      assert AllEvolved(items, marked);
      ReachesEarlier(items, marked, d, x);
      ReachesStep(items, id, d, x);
    }
  }

  lemma {:induction false} OnTerminalReaches(items: Items, id: Id, rest: seq<Id>, x: Id)
    requires id in items && items[id].finished && !items[id].state.Completed?
    requires Newly(items, OnTerminal(items, id, rest), x)
    ensures exists d :: d in rest && Open(items, d) && Reaches(items, d, x)
    decreases Remaining(items), 1, |rest|
  {
    var mid := OnTerminalOne(items, id, rest[0]);
    if Newly(items, mid, x) {
      FinalizeReaches(items, rest[0], Failed, DependencyError(items[id], id), x);
    } else {
      assert Evolved(items[id], mid[id]) && Evolved(items[x], mid[x]);
      EvolvedShrinks(items, mid);
      OnTerminalReaches(mid, id, rest[1..], x);
      var d :| d in rest[1..] && Open(mid, d) && Reaches(mid, d, x);
      assert Evolved(items[d], mid[d]);
      ReachesEarlier(items, mid, d, x);
    }
  }

  // ------------------------------------------------------------- completeness

  /** Everything open below a newly finished task is finished as well. */
  ghost predicate ClosedUnder(items: Items, r: Items) {
    forall x, y :: Newly(items, r, x) && Edge(items, x, y) ==> y in r && r[y].finished
  }

  lemma {:induction false} FinalizeCloses(items: Items, id: Id, st: TaskState, err: Error)
    requires id in items && !st.Completed?
    ensures ClosedUnder(items, FinalizeLocked(items, id, st, err))
    decreases Remaining(items), 0, 0
  {
    if !items[id].finished {
      var marked := Mark(items, id, st, err);
      MarkEvolves(items, id, st, err);
      OnTerminalCloses(marked, id, items[id].dependents);
      MarkCloses(items, id, st, err, OnTerminal(marked, id, items[id].dependents));
    }
  }

  lemma MarkCloses(items: Items, id: Id, st: TaskState, err: Error, r: Items)
    requires id in items && !items[id].finished
    requires AllEvolved(Mark(items, id, st, err), r) && ClosedUnder(Mark(items, id, st, err), r)
    requires forall d :: d in items[id].dependents && Open(Mark(items, id, st, err), d) ==> r[d].finished
    ensures ClosedUnder(items, r)
  {
    var marked := Mark(items, id, st, err);
    forall x, y | Newly(items, r, x) && Edge(items, x, y) ensures y in r && r[y].finished {
      assert Evolved(marked[y], r[y]);
      if x != id && y != id {
        assert Newly(marked, r, x) && Edge(marked, x, y);
      }
    }
  }

  lemma {:induction false} OnTerminalCloses(items: Items, id: Id, rest: seq<Id>)
    requires id in items && items[id].finished && !items[id].state.Completed?
    ensures ClosedUnder(items, OnTerminal(items, id, rest))
    ensures forall d :: d in rest && Open(items, d) ==> OnTerminal(items, id, rest)[d].finished
    decreases Remaining(items), 1, |rest|
  {
    if rest != [] {
      var mid := OnTerminalOne(items, id, rest[0]);
      var r := OnTerminal(mid, id, rest[1..]);
      assert Evolved(items[id], mid[id]);
      if Open(items, rest[0]) {
        FinalizeCloses(items, rest[0], Failed, DependencyError(items[id], id));
      }
      EvolvedShrinks(items, mid);
      OnTerminalCloses(mid, id, rest[1..]);
      forall x, y | Newly(items, r, x) && Edge(items, x, y) ensures r[y].finished {
        assert Evolved(items[x], mid[x]) && Evolved(items[y], mid[y]) && Evolved(mid[y], r[y]);
        if !mid[y].finished {
          assert Edge(mid, x, y);
        }
      }
      forall d | d in rest && Open(items, d) ensures r[d].finished {
        assert Evolved(items[d], mid[d]) && Evolved(mid[d], r[d]);
        if d != rest[0] { assert d in rest[1..]; }
      }
    }
  }

  lemma {:induction false} ChainFinished(items: Items, r: Items, p: seq<Id>, i: nat)
    requires AllEvolved(items, r) && ClosedUnder(items, r)
    requires Chain(items, p) && i < |p| && Newly(items, r, p[0])
    ensures Newly(items, r, p[i])
  {
    if i > 0 {
      ChainFinished(items, r, p, i - 1);
      assert Edge(items, p[i - 1], p[i]);
    }
  }

  // ------------------------------------------------------------------ outcome

  /** `x` was failed by its dependency `parent`, which finished in the same
      cascade (or is the finished task `root` whose dependents are being visited). */
  predicate Blamed(items: Items, r: Items, root: Id, x: Id, parent: Id)
    requires r.Keys == items.Keys && x in items
  {
    && Edge(items, parent, x)
    && (parent == root || Newly(items, r, parent)) && r[parent].finished && !r[parent].state.Completed?
    && r[x] == Finish(items[x], Failed,
                      if r[parent].state.Cancelled? then DependencyCancelled(parent) else DependencyFailed(parent))
  }

  ghost predicate Outcome(items: Items, r: Items, root: Id, x: Id)
    requires r.Keys == items.Keys && x in items
  {
    r[x] == items[x] || exists parent :: Blamed(items, r, root, x, parent)
  }

  lemma OutcomeTrans(a: Items, b: Items, c: Items, root: Id, x: Id)
    requires AllEvolved(a, b) && AllEvolved(b, c) && x in a
    requires Outcome(a, b, root, x) && Outcome(b, c, root, x)
    ensures Outcome(a, c, root, x)
  {
    if b[x] != a[x] {
      var p :| Blamed(a, b, root, x, p);
      assert Evolved(b[x], c[x]) && Evolved(b[p], c[p]);
      assert Blamed(a, c, root, x, p);
    } else if c[x] != b[x] {
      var p :| Blamed(b, c, root, x, p);
      assert Evolved(a[p], b[p]);
      assert Blamed(a, c, root, x, p);
    }
  }

  lemma {:induction false} FinalizeOutcome(items: Items, id: Id, st: TaskState, err: Error, x: Id)
    requires id in items && !st.Completed? && x in items && x != id
    ensures Outcome(items, FinalizeLocked(items, id, st, err), id, x)
    decreases Remaining(items), 0, 0
  {
    if !items[id].finished {
      var marked := Mark(items, id, st, err);
      MarkEvolves(items, id, st, err);
      var r := OnTerminal(marked, id, items[id].dependents);
      OnTerminalOutcome(marked, id, items[id].dependents, x);
      if r[x] != items[x] {
        var p :| Blamed(marked, r, id, x, p);
        assert Blamed(items, r, id, x, p);
      }
    }
  }

  lemma {:induction false} OnTerminalOutcome(items: Items, id: Id, rest: seq<Id>, x: Id)
    requires id in items && items[id].finished && !items[id].state.Completed?
    requires x in items && forall d :: d in rest ==> d in items[id].dependents
    ensures Outcome(items, OnTerminal(items, id, rest), id, x)
    decreases Remaining(items), 1, |rest|
  {
    if rest != [] {
      var d := rest[0];
      var mid := OnTerminalOne(items, id, d);
      assert Evolved(items[id], mid[id]);
      if Open(items, d) && x != d {
        FinalizeOutcome(items, d, Failed, DependencyError(items[id], id), x);
        if mid[x] != items[x] {
          var p :| Blamed(items, mid, d, x, p);
          assert Blamed(items, mid, id, x, p);
        }
      } else if Open(items, d) {
        FinalizeRoot(items, d, Failed, DependencyError(items[id], id));
        assert Blamed(items, mid, id, x, id);
      }
      EvolvedShrinks(items, mid);
      OnTerminalOutcome(mid, id, rest[1..], x);
      OutcomeTrans(items, mid, OnTerminal(items, id, rest), id, x);
    }
  }

  lemma {:induction false} FinalizeRoot(items: Items, id: Id, st: TaskState, err: Error)
    requires id in items && !items[id].finished
    ensures FinalizeLocked(items, id, st, err)[id] == Finish(items[id], st, err)
  {
  }

  // ----------------------------------------------------------------- theorems

  /** Failure cascade exactness: finishing an unfinished task as anything but
      Completed finishes exactly the tasks its failure reaches; the task itself
      gets the given outcome, every other one fails on a dependency that the same
      cascade finished, and no other record changes in any field. */
  lemma {:induction false} CascadeExact(items: Items, id: Id, st: TaskState, err: Error)
    requires id in items && !items[id].finished && !st.Completed?
    ensures var r := FinalizeLocked(items, id, st, err);
      && r.Keys == items.Keys
      && r[id] == Finish(items[id], st, err)
      && (forall x :: Newly(items, r, x) <==> x in items && Reaches(items, id, x))
      && (forall x :: x in items && x != id ==>
            if Reaches(items, id, x) then exists p :: Blamed(items, r, id, x, p) && Reaches(items, id, p)
            else r[x] == items[x])
  {
    var r := FinalizeLocked(items, id, st, err);
    FinalizeRoot(items, id, st, err);
    FinalizeCloses(items, id, st, err);
    forall x | x in items && Reaches(items, id, x) ensures Newly(items, r, x) {
      var p :| Chain(items, p) && p[0] == id && p[|p| - 1] == x;
      ChainFinished(items, r, p, |p| - 1);
    }
    forall x | Newly(items, r, x) ensures Reaches(items, id, x) {
      FinalizeReaches(items, id, st, err, x);
    }
    forall x | x in items && x != id
      ensures if Reaches(items, id, x) then exists p :: Blamed(items, r, id, x, p) && Reaches(items, id, p)
              else r[x] == items[x]
    {
      FinalizeOutcome(items, id, st, err, x);
      if Reaches(items, id, x) {
        assert Newly(items, r, x);
        var p :| Blamed(items, r, id, x, p);
        assert Newly(items, r, p);
      }
    }
  }

  // ------------------------------------------------------------------ success

  /** Number of occurrences of `x` in `s`. */
  function Occurs(s: seq<Id>, x: Id): nat {
    if s == [] then 0 else (if s[0] == x then 1 else 0) + Occurs(s[1..], x)
  }

  function Drop(n: nat, k: nat): nat {
    if n >= k then n - k else 0
  }

  lemma {:induction false} OnTerminalCounts(items: Items, id: Id, rest: seq<Id>, x: Id)
    requires id in items && items[id].finished && items[id].state.Completed? && x in items
    ensures OnTerminal(items, id, rest)[x]
         == if Open(items, x) then items[x].(depsPending := Drop(items[x].depsPending, Occurs(rest, x)))
            else items[x]
    decreases |rest|
  {
    if rest != [] {
      var mid := OnTerminalOne(items, id, rest[0]);
      assert Evolved(items[id], mid[id]);
      OnTerminalCounts(mid, id, rest[1..], x);
    }
  }

  /** Finishing an unfinished task as Completed finishes nothing else: every other
      open task loses one pending dependency per edge from the finished task, never
      going below zero, and no other field of any record changes. */
  lemma {:induction false} CompletionExact(items: Items, id: Id, err: Error)
    requires id in items && !items[id].finished
    ensures var r := FinalizeLocked(items, id, Completed, err);
      && r.Keys == items.Keys
      && r[id] == Finish(items[id], Completed, err)
      && (forall x :: x in items && x != id ==>
            r[x] == if Open(items, x)
                    then items[x].(depsPending := Drop(items[x].depsPending, Occurs(items[id].dependents, x)))
                    else items[x])
  {
    var marked := Mark(items, id, Completed, err);
    FinalizeRoot(items, id, Completed, err);
    forall x | x in items && x != id
      ensures FinalizeLocked(items, id, Completed, err)[x]
           == if Open(items, x)
              then items[x].(depsPending := Drop(items[x].depsPending, Occurs(items[id].dependents, x)))
              else items[x]
    {
      OnTerminalCounts(marked, id, items[id].dependents, x);
    }
  }
}
