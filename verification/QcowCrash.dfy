/** What a crash may leave behind. Writes reach the medium in any order, in part or not at
    all, until the file is synced. The tables are synced before the L1 table is written;
    that writing may fail, or the sync after it, and the image be used on. */
module QcowCrash {
  import QcowLru
  import opened QcowTables
  import opened QcowWriteBack
  import opened QcowRuns

  /** The table; what the medium held when the file was last synced; the clusters changed
      since; the disks whose L1 table the medium may hold words of, oldest first; whether
      the last writing of the L1 table failed. What a failed writing has left of the L1
      table is not in `now`, which never looks there, but in `views`. */
  datatype Device = Device(now: Tables, base: Disk, loose: set<Word>, views: seq<Disk>, torn: bool)

  /** `FailL1` is a writing of the L1 table that fails, with any of its words written.
      `Fsync` is a sync of the file that succeeds; one that fails changes nothing. */
  datatype Event = Do(step: Step) | FailL1 | Fsync

  function Fresh(t: Tables): Device {
    Device(t, t.disk, {}, [t.disk], false)
  }

  /** The clusters on which two disks differ. */
  function Differ(d: Disk, e: Disk): set<Word> {
    set a | a in d.clusters.Keys + e.clusters.Keys && ClusterAt(d, a) != ClusterAt(e, a)
  }

  /** `a` is in an L1 table the medium may hold. */
  ghost predicate Shown(v: Device, a: Word) {
    exists m :: 0 <= m < |v.views| && OnDisk(v.views[m], a)
  }

  /** The tables that memory's L1 table leads to have been synced. */
  ghost predicate Settled(v: Device) {
    AllClean(v.now) && forall a :: a in v.loose ==> a !in v.now.l1
  }

  /** The cluster a step has been handed by the allocator, or writes on its own account. */
  function HandedTo(t: Tables, s: Step): set<Word>
    requires s.Update? ==> s.i < |t.l1|
  {
    match s
    case Add(_, a, _) => {a}
    case Update(i, _, _, copy) => if MustCopy(t, t.l1[i]) then {copy} else {}
    case Scribble(a, _) => {a}
    case _ => {}
  }

  /** Clusters are released only after a sync that succeeded, so none is handed out that
      an L1 table on the medium may lead to; syncCache writes the L1 table only after a
      sync of the tables in it. */
  ghost predicate Can(v: Device, ev: Event) {
    Inv(v.now) &&
    match ev
    case Fsync => true
    case FailL1 => v.now.l1Dirty && Settled(v)
    case Do(s) =>
      && Enabled(v.now, s) && (s.SyncL1? ==> Settled(v))
      && forall a :: a in HandedTo(v.now, s) ==> !Shown(v, a)
  }

  ghost function Happen(v: Device, ev: Event): Device
    requires Can(v, ev)
  {
    match ev
    case Fsync => if v.torn then v.(base := v.now.disk, loose := {}) else Fresh(v.now)
    case FailL1 => v.(views := v.views + [SyncedL1(v.now).disk], torn := true)
    case Do(s) =>
      var u := Apply(v.now, s);
      Device(u, v.base, v.loose + Differ(v.now.disk, u.disk),
             if s.SyncL1? then v.views + [u.disk] else v.views, v.torn && !s.SyncL1?)
  }

  /** A disk that a crash may leave: clusters changed since the last sync hold anything,
      and each L1 word is that of some L1 table the medium may hold. */
  ghost predicate CrashImage(v: Device, e: Disk) {
    && |e.l1| == |v.now.l1|
    && (forall i :: 0 <= i < |e.l1| ==> WordFrom(v, e, i))
    && forall a: Word {:trigger ClusterAt(e, a)} {:trigger ReadTable(e, a)} ::
         a !in v.loose ==> ClusterAt(e, a) == ClusterAt(v.base, a)
  }

  ghost predicate WordFrom(v: Device, e: Disk, i: nat) {
    exists m :: HasWord(v, e, i, m)
  }

  /** The L1 word at `i` may come from the view `m`. */
  ghost predicate HasWord(v: Device, e: Disk, i: nat, m: nat) {
    m < |v.views| && i < |e.l1| && i < |v.views[m].l1| && e.l1[i] == v.views[m].l1[i]
  }

  /** Whatever is left behind translates each address as one who wrote that L1 word saw it. */
  ghost predicate Honest(v: Device) {
    forall e, i: nat, j: nat, m: nat {:trigger HasWord(v, e, i, m), DiskLookup(e, i, j)} ::
      CrashImage(v, e) && HasWord(v, e, i, m) ==> DiskLookup(e, i, j) == DiskLookup(v.views[m], i, j)
  }

  // ------------------------------------------------------------------- invariant

  /** May come to be written again in place: private, and cached or fit to be. */
  predicate Rewritable(t: Tables, a: Word) {
    a != 0 && Private(t, a) && TableAt(t, a).Some?
  }

  /** No table in the L1 table may. */
  ghost predicate Clear(t: Tables) {
    forall a :: a in t.l1 ==> !Rewritable(t, a)
  }

  /** The table at `a`, shown by the view `m`, is on the medium as that view has it. */
  ghost predicate Kept(v: Device, m: nat, a: Word)
    requires m < |v.views|
  {
    OnDisk(v.views[m], a) ==>
      a !in v.loose && !Rewritable(v.now, a) && ClusterAt(v.views[m], a) == ClusterAt(v.base, a)
  }

  /** Changed clusters are loose. */
  ghost predicate Tracked(v: Device) {
    forall a: Word {:trigger ClusterAt(v.now.disk, a)} {:trigger ReadTable(v.now.disk, a)} ::
      a !in v.loose ==> ClusterAt(v.now.disk, a) == ClusterAt(v.base, a)
  }

  ghost predicate Safe(v: Device) {
    && Inv(v.now) && Tracked(v) && v.views != []
    && (if v.torn then v.now.l1Dirty else v.views[|v.views| - 1].l1 == v.now.disk.l1)
    && (forall m :: 0 <= m < |v.views| ==> |v.views[m].l1| == |v.now.l1|)
    && forall m, a {:trigger Kept(v, m, a)} :: 0 <= m < |v.views| ==> Kept(v, m, a)
  }

  // --------------------------------------------------- what the operations write

  /** From `t` to `u` only clusters are written, and only tables become rewritable, that
      were rewritable before or are in `given`. */
  ghost predicate Confined(t: Tables, u: Tables, given: set<Word>) {
    forall a: Word {:trigger Rewritable(u, a)} {:trigger ClusterAt(u.disk, a)} ::
      (ClusterAt(u.disk, a) != ClusterAt(t.disk, a) || Rewritable(u, a)) ==> Rewritable(t, a) || a in given
  }

  lemma SpilledConfined(t: Tables)
    requires Inv(t) && t.cache.order != []
    ensures Confined(t, Spilled(t), {})
  {
    assert t.cache.order[0] in t.cache.order && BlockOk(t, t.cache.order[0]);
  }

  lemma LostConfined(t: Tables, words: seq<Word>)
    requires Inv(t) && Loses(t, Failed(words))
    ensures Confined(t, Lost(t, words), {})
  {
    assert t.cache.order[0] in t.cache.order && BlockOk(t, t.cache.order[0]);
  }

  lemma LoadedConfined(t: Tables, a: Word, b: QcowLru.Block<Word>)
    requires Inv(t) && MayEnter(t, a, b)
    ensures Confined(t, Loaded(t, a, b), if b.dirty then {a} else {})
  {
    if |t.cache.order| == t.capacity { SpilledConfined(t); }
  }

  lemma ReadConfined(t: Tables, i: nat, j: nat, fate: Fate)
    requires Inv(t) && i < |t.l1|
    ensures Confined(t, FindWith(t, i, j, fate).0, {})
  {
    FindCases(t, i, j, fate);
    var table := ReadTable(t.disk, t.l1[i]);
    if Misses(t, i) {
      if Loses(t, fate) {
        LostConfined(t, fate.words);
      } else {
        LoadedConfined(t, t.l1[i], QcowLru.Block(table.value, false));
      }
    }
  }

  lemma AddConfined(t: Tables, i: nat, a: Word, fate: Fate)
    requires Inv(t) && i < |t.l1| && Allocatable(t, a)
    ensures Confined(t, AddedWith(t, i, a, fate).0, {a})
  {
    var p := Pointed(t, i, a);
    PointedOk(t, i, a);
    if Loses(p, fate) {
      LostConfined(p, fate.words);
    } else {
      LoadedConfined(p, a, QcowLru.Block(Zeroes(t.n), true));
    }
  }

  lemma UpdateConfined(t: Tables, i: nat, j: nat, w: Word, copy: Word)
    requires Inv(t) && Enabled(t, Update(i, j, w, copy))
    ensures Confined(t, Apply(t, Update(i, j, w, copy)), HandedTo(t, Update(i, j, w, copy)))
  {
    assert BlockOk(t, t.l1[i]);
  }

  lemma StepConfined(t: Tables, s: Step)
    requires Inv(t) && Enabled(t, s) && !s.SyncL1?
    ensures Confined(t, Apply(t, s), HandedTo(t, s))
  {
    match s
    case Read(i, j, fate) => ReadConfined(t, i, j, fate);
    case Add(i, a, fate) => AddConfined(t, i, a, fate);
    case Update(i, j, w, copy) => UpdateConfined(t, i, j, w, copy);
    case SyncOne(a, fate) => assert BlockOk(t, a);
    case Scribble(a, words) =>
  }

  // ---------------------------------------------------------------------- events

  /** Every event keeps the invariant, a failing writing of the L1 table if no table in it
      may be written again. */
  lemma HappenSafe(v: Device, ev: Event)
    requires Safe(v) && Can(v, ev) && (ev.FailL1? ==> Clear(v.now))
    ensures Safe(Happen(v, ev))
  {
    if ev.Fsync? {
      FsyncSafe(v);
    } else if ev.FailL1? {
      WrittenSafe(v, v.now);
    } else if ev.step.SyncL1? {
      SyncedL1Ok(v.now);
      assert v.loose + Differ(v.now.disk, SyncedL1(v.now).disk) == v.loose;
      WrittenSafe(v, SyncedL1(v.now));
    } else {
      StepKeeps(v.now, ev.step);
      StepSameDisk(v.now, ev.step);
      StepConfined(v.now, ev.step);
      DoneSafe(v, Apply(v.now, ev.step), HandedTo(v.now, ev.step));
    }
  }

  lemma FsyncSafe(v: Device)
    requires Inv(v.now) && (v.torn ==> Safe(v))
    ensures Safe(Happen(v, Fsync))
  {
    var after := Happen(v, Fsync);
    forall m, a | 0 <= m < |after.views| ensures Kept(after, m, a) {
      assert PrivateOk(v.now, a);
      if v.torn {
        assert Kept(v, m, a);
        assert a !in v.loose ==> ClusterAt(v.now.disk, a) == ClusterAt(v.base, a);
      }
    }
  }

  /** The L1 table has been written, or its writing has failed: one more view. */
  lemma WrittenSafe(v: Device, u: Tables)
    requires Safe(v) && Settled(v) && Inv(u) && |u.l1| == |v.now.l1|
    requires u == SyncedL1(v.now) || (u == v.now && u.l1Dirty && Clear(u))
    ensures Safe(Device(u, v.base, v.loose, v.views + [SyncedL1(v.now).disk], u.l1Dirty))
  {
    var t, d := v.now, SyncedL1(v.now).disk;
    var after := Device(u, v.base, v.loose, v.views + [d], u.l1Dirty);
    forall a: Word | a !in v.loose ensures ClusterAt(u.disk, a) == ClusterAt(v.base, a) {
      assert ClusterAt(t.disk, a) == ClusterAt(v.base, a);
    }
    forall m, a | 0 <= m < |after.views| ensures Kept(after, m, a) {
      if m < |v.views| {
        assert Kept(v, m, a);
      } else if OnDisk(d, a) {
        InMemory(t, a);
        assert PrivateOk(u, a) && ClusterAt(t.disk, a) == ClusterAt(v.base, a);
      }
    }
  }

  /** What a written L1 table leads to is what memory's does. */
  lemma InMemory(t: Tables, a: Word)
    requires Inv(t) && OnDisk(SyncedL1(t).disk, a)
    ensures a in t.l1
  {
    AlignedMasked(t.l1);
    var i :| 0 <= i < |t.l1| && Offset(SyncedL1(t).disk.l1[i]) == a;
    assert Masked(SyncedL1(t).disk.l1)[i] == t.l1[i];
  }

  lemma DoneSafe(v: Device, u: Tables, given: set<Word>)
    requires Safe(v) && Inv(u) && |u.l1| == |v.now.l1| && u.disk.l1 == v.now.disk.l1
    requires v.now.l1Dirty ==> u.l1Dirty
    requires Confined(v.now, u, given) && forall a :: a in given ==> !Shown(v, a)
    ensures Safe(v.(now := u, loose := v.loose + Differ(v.now.disk, u.disk)))
  {
    var after := v.(now := u, loose := v.loose + Differ(v.now.disk, u.disk));
    DoneTracked(v, u);
    forall m, a | 0 <= m < |v.views| ensures Kept(after, m, a) {
      assert Kept(v, m, a);
      if OnDisk(v.views[m], a) {
        assert Shown(v, a) && a !in given;
        assert ClusterAt(u.disk, a) == ClusterAt(v.now.disk, a) && !Rewritable(u, a);
      }
    }
  }

  lemma DoneTracked(v: Device, u: Tables)
    requires Tracked(v)
    ensures Tracked(v.(now := u, loose := v.loose + Differ(v.now.disk, u.disk)))
  {
    forall a: Word | a !in v.loose + Differ(v.now.disk, u.disk) ensures ClusterAt(u.disk, a) == ClusterAt(v.base, a) {
      assert ClusterAt(v.now.disk, a) == ClusterAt(v.base, a);
    }
  }

  /** Whatever the crash does to the loose clusters, and however it mixes the words of the
      L1 tables outstanding. */
  lemma {:induction false} SafeHonest(v: Device)
    requires Safe(v)
    ensures Honest(v)
  {
    forall e, i: nat, j: nat, m: nat | CrashImage(v, e) && HasWord(v, e, i, m)
      ensures DiskLookup(e, i, j) == DiskLookup(v.views[m], i, j)
    {
      var a := Offset(e.l1[i]);
      assert OnDisk(v.views[m], a) && Kept(v, m, a);
      assert ClusterAt(e, a) == ClusterAt(v.base, a);
    }
  }

  /** When the last writing of the L1 table succeeded, the disk is as its view. */
  lemma {:induction false} LastView(v: Device, i: nat, j: nat)
    requires Safe(v) && !v.torn && i < |v.now.l1|
    ensures DiskLookup(v.now.disk, i, j) == DiskLookup(v.views[|v.views| - 1], i, j)
  {
    var m, a := |v.views| - 1, Offset(v.now.disk.l1[i]);
    assert OnDisk(v.views[m], a) && Kept(v, m, a);
    assert ClusterAt(v.now.disk, a) == ClusterAt(v.base, a);
  }

  // ------------------------------------------------------------------------ runs

  /** Events one after the other, each possible, no writing of the L1 table failing while
      a table in it may be written again. */
  ghost predicate Happens(v: Device, events: seq<Event>)
    decreases |events|, 0
  {
    events == [] || (Happens(v, events[..|events| - 1])
      && var w, ev := Since(v, events[..|events| - 1]), events[|events| - 1];
         Can(w, ev) && (ev.FailL1? ==> Clear(w.now)))
  }

  ghost function Since(v: Device, events: seq<Event>): Device
    requires Happens(v, events)
    decreases |events|, 1
  {
    if events == [] then v else Happen(Since(v, events[..|events| - 1]), events[|events| - 1])
  }

  lemma {:induction false} HappensSafe(v: Device, events: seq<Event>)
    requires Safe(v) && Happens(v, events)
    ensures Safe(Since(v, events))
    decreases |events|
  {
    if events != [] {
      HappensSafe(v, events[..|events| - 1]);
      HappenSafe(Since(v, events[..|events| - 1]), events[|events| - 1]);
    }
  }

  /** The operations among the events. */
  function Steps(events: seq<Event>): seq<Step> {
    if events == [] then []
    else
      var front := Steps(events[..|events| - 1]);
      if events[|events| - 1].Do? then front + [events[|events| - 1].step] else front
  }

  /** The last writing of the L1 table failed. */
  predicate Torn(events: seq<Event>) {
    && events != []
    && match events[|events| - 1]
       case FailL1 => true
       case Do(SyncL1) => false
       case _ => Torn(events[..|events| - 1])
  }

  /** After how many operations the L1 tables were written that the medium may hold words
      of. */
  function Writings(events: seq<Event>): (w: seq<nat>)
    ensures w != [] && forall m :: 0 <= m < |w| ==> w[m] <= |Steps(events)|
  {
    if events == [] then [0]
    else
      var front := events[..|events| - 1];
      Outstanding(Writings(front), Torn(front), |Steps(front)|, events[|events| - 1])
  }

  /** At a sync all but the last are gone for good, unless the last failed. */
  function Outstanding(w: seq<nat>, torn: bool, k: nat, ev: Event): seq<nat>
    requires w != []
  {
    match ev
    case FailL1 => w + [k]
    case Do(s) => if s.SyncL1? then w + [k] else w
    case Fsync => if torn then w else [w[|w| - 1]]
  }

  lemma {:induction false} HappensTorn(v: Device, events: seq<Event>)
    requires Happens(v, events) && !v.torn
    ensures Since(v, events).torn == Torn(events)
    decreases |events|
  {
    if events != [] { HappensTorn(v, events[..|events| - 1]); }
  }

  lemma FreshSafe(t: Tables, events: seq<Event>)
    requires Inv(t) && Happens(Fresh(t), events)
    ensures Safe(Since(Fresh(t), events)) && Since(Fresh(t), events).torn == Torn(events)
    ensures |Since(Fresh(t), events).now.l1| == |t.l1|
  {
    FsyncSafe(Fresh(t));
    HappensSafe(Fresh(t), events);
    HappensTorn(Fresh(t), events);
    HappensRuns(t, events);
  }

  /** The operations among the events are a run of the table. */
  lemma {:induction false} HappensRuns(t: Tables, events: seq<Event>)
    requires Inv(t) && Happens(Fresh(t), events)
    ensures IsRun(t, Steps(events)) && Since(Fresh(t), events).now == After(t, Steps(events))
    decreases |events|
  {
    if events != [] {
      var front, ev := events[..|events| - 1], events[|events| - 1];
      HappensRuns(t, front);
      if ev.Do? { RunMore(t, Steps(front), ev.step); }
    }
  }

  lemma {:induction false} RunMore(t: Tables, steps: seq<Step>, s: Step)
    requires IsRun(t, steps) && Enabled(After(t, steps), s)
    ensures IsRun(t, steps + [s]) && After(t, steps + [s]) == Apply(After(t, steps), s)
  {
    assert (steps + [s])[..|steps|] == steps;
  }

  /** The disk `d` translates an address as memory did after `k` of the steps. */
  ghost predicate ReadsAs(t: Tables, steps: seq<Step>, k: nat, d: Disk, i: nat, j: nat) {
    && k <= |steps| && IsRun(t, steps[..k]) && i < |t.l1| && i < |d.l1|
    && DiskLookup(d, i, j) == MemLookup(After(t, steps[..k]), i, j)
  }

  lemma LaterReads(t: Tables, steps: seq<Step>, more: seq<Step>, k: nat, d: Disk, i: nat, j: nat)
    requires ReadsAs(t, steps, k, d, i, j)
    ensures ReadsAs(t, steps + more, k, d, i, j)
  {
    assert (steps + more)[..k] == steps[..k];
  }

  lemma WrittenReads(t: Tables, steps: seq<Step>, i: nat, j: nat)
    requires IsRun(t, steps) && AllClean(After(t, steps)) && i < |t.l1|
    ensures ReadsAs(t, steps, |steps|, SyncedL1(After(t, steps)).disk, i, j)
  {
    SyncedL1Ok(After(t, steps));
    assert steps[..|steps|] == steps;
  }

  /** Each view translates as memory did when it was written. */
  ghost predicate AllRead(t: Tables, steps: seq<Step>, w: seq<nat>, v: Device, i: nat, j: nat) {
    |v.views| == |w| > 0 && forall m :: 0 <= m < |w| ==> ReadsAs(t, steps, w[m], v.views[m], i, j)
  }

  lemma EventReads(t: Tables, steps: seq<Step>, w: seq<nat>, v: Device, ev: Event, i: nat, j: nat)
    requires Safe(v) && IsRun(t, steps) && v.now == After(t, steps) && Can(v, ev)
    requires i < |t.l1| && AllRead(t, steps, w, v, i, j)
    ensures AllRead(t, if ev.Do? then steps + [ev.step] else steps,
                    Outstanding(w, v.torn, |steps|, ev), Happen(v, ev), i, j)
  {
    var more, after := if ev.Do? then [ev.step] else [], Happen(v, ev);
    assert steps + [] == steps;
    if ev.Fsync? {
      if !v.torn { LastView(v, i, j); }
    } else {
      forall m | 0 <= m < |w| ensures ReadsAs(t, steps + more, w[m], after.views[m], i, j) {
        LaterReads(t, steps, more, w[m], v.views[m], i, j);
      }
      if ev.FailL1? || ev.step.SyncL1? {
        WrittenReads(t, steps, i, j);
        LaterReads(t, steps, more, |steps|, SyncedL1(v.now).disk, i, j);
      }
    }
  }

  lemma {:induction false} ViewsRead(t: Tables, events: seq<Event>, i: nat, j: nat)
    requires Inv(t) && Happens(Fresh(t), events) && i < |t.l1|
    requires DiskLookup(t.disk, i, j) == MemLookup(t, i, j)
    ensures AllRead(t, Steps(events), Writings(events), Since(Fresh(t), events), i, j)
    decreases |events|
  {
    if events != [] {
      var front := events[..|events| - 1];
      HappensRuns(t, front);
      FreshSafe(t, front);
      ViewsRead(t, front, i, j);
      EventReads(t, Steps(front), Writings(front), Since(Fresh(t), front), events[|events| - 1], i, j);
    }
  }

  /** Crash safety: after any events, and whatever becomes of the writes since the last
      sync of the file, the medium translates every address as memory did at some writing
      of the L1 table that is still outstanding, or at the last one before. */
  lemma {:induction false} CrashSafe(t: Tables, events: seq<Event>, e: Disk, i: nat, j: nat) returns (m: nat)
    requires Inv(t) && Happens(Fresh(t), events) && CrashImage(Since(Fresh(t), events), e)
    requires i < |t.l1| && DiskLookup(t.disk, i, j) == MemLookup(t, i, j)
    ensures m < |Writings(events)| && ReadsAs(t, Steps(events), Writings(events)[m], e, i, j)
  {
    FreshSafe(t, events);
    var v := Since(Fresh(t), events);
    SafeHonest(v);
    assert WordFrom(v, e, i);
    m :| HasWord(v, e, i, m);
    ViewsRead(t, events, i, j);
  }

  /** Nothing older than memory was after `k` operations can come back. */
  ghost predicate NotBefore(events: seq<Event>, k: nat) {
    k <= |Steps(events)| && forall m :: 0 <= m < |Writings(events)| ==> k <= Writings(events)[m]
  }

  /** Once the L1 table has been written and synced, that stays so whatever follows. */
  lemma {:induction false} FlushDurable(front: seq<Event>, rest: seq<Event>)
    ensures NotBefore(front + [Do(SyncL1), Fsync] + rest, |Steps(front)|)
    decreases |rest|
  {
    var events := front + [Do(SyncL1), Fsync] + rest;
    if rest == [] {
      assert events[..|events| - 1] == front + [Do(SyncL1)];
      assert (front + [Do(SyncL1)])[..|front|] == front;
    } else {
      assert events[..|events| - 1] == front + [Do(SyncL1), Fsync] + rest[..|rest| - 1];
      FlushDurable(front, rest[..|rest| - 1]);
      StaysNotBefore(events, |Steps(front)|);
    }
  }

  lemma StaysNotBefore(events: seq<Event>, k: nat)
    requires events != [] && NotBefore(events[..|events| - 1], k)
    ensures NotBefore(events, k)
  {
  }

  // ----------------------------------------------------- a failing L1 table

  /** What a failed writing leaves in the file, the first `k` words, may be left. */
  lemma TornIsLeft(v: Device, k: nat)
    requires Safe(v) && Can(v, FailL1) && k <= |v.now.l1| && !v.torn
    ensures CrashImage(Happen(v, FailL1), FailedL1(v.now, k).disk)
  {
    var after, e := Happen(v, FailL1), FailedL1(v.now, k).disk;
    forall i | 0 <= i < |e.l1| ensures WordFrom(after, e, i) {
      assert HasWord(after, e, i, if i < k then |v.views| else |v.views| - 1);
    }
    forall a: Word | a !in v.loose ensures ClusterAt(e, a) == ClusterAt(v.base, a) {
      assert ClusterAt(v.now.disk, a) == ClusterAt(v.base, a);
    }
  }

  /** An aligned word other than `x`. */
  function OtherThan(x: Word): (w: Word)
    ensures Aligned(w) && w != x
  {
    if x == 0 then 512 else 0
  }

  /** Table `i` is read, changed in place and written. */
  function Rewrite(t: Tables, i: nat, w: Word): seq<Event>
    requires i < |t.l1|
  {
    [Do(Read(i, 0, Done)), Do(Update(i, 0, w, 0)), Do(SyncOne(t.l1[i], Done))]
  }

  /** Table `i` is cached, and stays where it is when it is changed. */
  ghost predicate InPlace(t: Tables, i: nat) {
    Inv(t) && i < |t.l1| && t.l1[i] in t.cache.blocks && t.l1[i] in t.evicted
  }

  lemma ReadAgain(t: Tables, i: nat)
    requires Inv(t) && i < |t.l1| && Rewritable(t, t.l1[i]) && t.l1[i] in t.evicted
    ensures var u := Apply(t, Read(i, 0, Done)); InPlace(u, i) && u.l1 == t.l1
    ensures MemLookup(t, i, 0).At?
  {
    FindOk(t, i, 0);
    FindCases(t, i, 0, Done);
    if t.l1[i] in t.cache.blocks { assert BlockOk(t, t.l1[i]); }
  }

  lemma ChangeAgain(t: Tables, i: nat, w: Word)
    requires InPlace(t, i) && Aligned(w)
    ensures Enabled(t, Update(i, 0, w, 0)) && HandedTo(t, Update(i, 0, w, 0)) == {}
    ensures var u := Apply(t, Update(i, 0, w, 0)); InPlace(u, i) && u.l1 == t.l1 && MemLookup(u, i, 0) == At(w)
  {
    assert BlockOk(t, t.l1[i]);
    UpdatedInPlace(t, i, 0, w, 0);
  }

  lemma WriteAgain(t: Tables, i: nat)
    requires InPlace(t, i)
    ensures var u := Apply(t, SyncOne(t.l1[i], Done));
      u.l1 == t.l1 && EntryOf(ReadTable(u.disk, t.l1[i]), 0) == MemLookup(t, i, 0)
  {
    SyncedOneOk(t, t.l1[i]);
    assert BlockOk(SyncedOne(t, t.l1[i]), t.l1[i]);
  }

  lemma {:induction false} HappensMore(v: Device, events: seq<Event>, ev: Event)
    requires Happens(v, events) && Can(Since(v, events), ev) && !ev.FailL1?
    ensures Happens(v, events + [ev]) && Since(v, events + [ev]) == Happen(Since(v, events), ev)
  {
    assert (events + [ev])[..|events|] == events;
  }

  lemma {:induction false} ThreeMore(v: Device, s0: Step, s1: Step, s2: Step)
    requires Can(v, Do(s0)) && Can(Happen(v, Do(s0)), Do(s1)) && Can(Happen(Happen(v, Do(s0)), Do(s1)), Do(s2))
    ensures Happens(v, [Do(s0), Do(s1), Do(s2)])
    ensures Since(v, [Do(s0), Do(s1), Do(s2)]) == Happen(Happen(Happen(v, Do(s0)), Do(s1)), Do(s2))
  {
    var one, two, three := [Do(s0)], [Do(s0), Do(s1)], [Do(s0), Do(s1), Do(s2)];
    assert [] + [Do(s0)] == one && one + [Do(s1)] == two && two + [Do(s2)] == three;
    HappensMore(v, [], Do(s0));
    HappensMore(v, one, Do(s1));
    HappensMore(v, two, Do(s2));
  }

  lemma DoTracked(v: Device, s: Step)
    requires Tracked(v) && Can(v, Do(s)) && !s.SyncL1?
    ensures var after := Happen(v, Do(s)); Tracked(after) && after.views == v.views && after.now == Apply(v.now, s)
  {
    DoneTracked(v, Apply(v.now, s));
  }

  lemma {:induction false} Rewriting(v: Device, i: nat, w: Word)
    requires Inv(v.now) && Tracked(v) && Aligned(w)
    requires i < |v.now.l1| && Rewritable(v.now, v.now.l1[i]) && v.now.l1[i] in v.now.evicted
    ensures Happens(v, Rewrite(v.now, i, w))
    ensures var after := Since(v, Rewrite(v.now, i, w));
      && Tracked(after) && after.views == v.views && after.now.l1 == v.now.l1
      && EntryOf(ReadTable(after.now.disk, v.now.l1[i]), 0) == At(w)
  {
    var s0, s1, s2 := Read(i, 0, Done), Update(i, 0, w, 0), SyncOne(v.now.l1[i], Done);
    ReadAgain(v.now, i);
    DoTracked(v, s0);
    Overwriting(Happen(v, Do(s0)), i, w);
    ThreeMore(v, s0, s1, s2);
  }

  lemma {:induction false} Overwriting(v: Device, i: nat, w: Word)
    requires InPlace(v.now, i) && Tracked(v) && Aligned(w)
    ensures Can(v, Do(Update(i, 0, w, 0))) && Can(Happen(v, Do(Update(i, 0, w, 0))), Do(SyncOne(v.now.l1[i], Done)))
    ensures var after := Happen(Happen(v, Do(Update(i, 0, w, 0))), Do(SyncOne(v.now.l1[i], Done)));
      && Tracked(after) && after.views == v.views && after.now.l1 == v.now.l1
      && EntryOf(ReadTable(after.now.disk, v.now.l1[i]), 0) == At(w)
  {
    ChangeAgain(v.now, i, w);
    DoTracked(v, Update(i, 0, w, 0));
    var u := Happen(v, Do(Update(i, 0, w, 0)));
    WriteAgain(u.now, i);
    DoTracked(u, SyncOne(v.now.l1[i], Done));
  }

  /** The medium may then hold the L1 table of the failed writing with a newer table. */
  lemma {:induction false} Breaks(v: Device) returns (rest: seq<Event>)
    requires Safe(v) && Can(v, FailL1) && !Clear(v.now)
    ensures Happens(Happen(v, FailL1), rest) && !Honest(Since(Happen(v, FailL1), rest))
  {
    var t, f := v.now, Happen(v, FailL1);
    var a :| a in t.l1 && Rewritable(t, a);
    var i :| 0 <= i < |t.l1| && t.l1[i] == a;
    ReadAgain(t, i);
    var w := OtherThan(MemLookup(t, i, 0).address);
    rest := Rewrite(t, i, w);
    Rewriting(f, i, w);
    SyncedL1Ok(t);
    Dishonest(Since(f, rest), |v.views|, i, w);
  }

  lemma {:induction false} Dishonest(v: Device, m: nat, i: nat, w: Word)
    requires Tracked(v) && m < |v.views| && i < |v.now.l1| == |v.views[m].l1|
    requires Offset(v.views[m].l1[i]) != 0
    requires EntryOf(ReadTable(v.now.disk, Offset(v.views[m].l1[i])), 0) == At(w) != DiskLookup(v.views[m], i, 0)
    ensures !Honest(v)
  {
    var e := v.now.disk.(l1 := v.views[m].l1);
    forall k | 0 <= k < |e.l1| ensures WordFrom(v, e, k) { assert HasWord(v, e, k, m); }
    forall a: Word | a !in v.loose ensures ClusterAt(e, a) == ClusterAt(v.base, a) {
      assert ClusterAt(v.now.disk, a) == ClusterAt(v.base, a);
    }
    assert HasWord(v, e, i, m) && DiskLookup(e, i, 0) == At(w);
  }

  /** After a failed writing of the L1 table a crash stays harmless, whatever is done next,
      exactly when no table in the L1 table may be written again in place. */
  lemma {:induction false} FailL1Exact(v: Device)
    requires Safe(v) && Can(v, FailL1)
    ensures Clear(v.now) <==> forall rest :: Happens(Happen(v, FailL1), rest) ==> Honest(Since(Happen(v, FailL1), rest))
  {
    var f := Happen(v, FailL1);
    if Clear(v.now) {
      HappenSafe(v, FailL1);
      forall rest | Happens(f, rest) ensures Honest(Since(f, rest)) {
        HappensSafe(f, rest);
        SafeHonest(Since(f, rest));
      }
    } else {
      var rest := Breaks(v);
    }
  }

  lemma {:induction false} AddTwo(t: Tables, i: nat, k: nat, a: Word, b: Word)
    requires Inv(t) && t.capacity == 1 && t.cache.order == [] && i < |t.l1| && k < |t.l1| && i != k && a != b
    requires Allocatable(t, a) && Allocatable(t, b)
    ensures var u := Apply(t, Add(i, a, Done)); Inv(u) && |u.l1| == |t.l1| && Allocatable(u, b)
    ensures var u := Apply(Apply(t, Add(i, a, Done)), Add(k, b, Done));
      Inv(u) && b in u.cache.blocks
    ensures var u := Apply(Apply(Apply(t, Add(i, a, Done)), Add(k, b, Done)), SyncOne(b, Done));
      Inv(u) && AllClean(u) && u.l1Dirty && a in u.l1 && Rewritable(u, a)
  {
    var u := Added(t, i, a);
    AddedOk(t, i, a);
    assert u.cache == QcowLru.Stored(t.cache, a, QcowLru.Block(Zeroes(t.n), true));
    AddedOk(u, k, b);
    SyncedOneOk(Added(u, k, b), b);
    assert Added(u, k, b).l1[i] == a;
  }

  /** Such a moment does come, from any state with an empty cache for one table and two
      clusters to be had: a table added makes room for another. */
  lemma {:induction false} UnclearReached(t: Tables, i: nat, k: nat, a: Word, b: Word)
    requires Inv(t) && t.capacity == 1 && t.cache.order == [] && i < |t.l1| && k < |t.l1| && i != k && a != b
    requires Allocatable(t, a) && Allocatable(t, b)
    ensures var events := [Do(Add(i, a, Done)), Do(Add(k, b, Done)), Do(SyncOne(b, Done))] + [Fsync];
      Happens(Fresh(t), events) && Can(Since(Fresh(t), events), FailL1) && !Clear(Since(Fresh(t), events).now)
  {
    AddTwo(t, i, k, a, b);
    var v := Fresh(t);
    assert !Shown(v, a);
    assert !Shown(Happen(v, Do(Add(i, a, Done))), b);
    ThreeMore(v, Add(i, a, Done), Add(k, b, Done), SyncOne(b, Done));
    HappensMore(v, [Do(Add(i, a, Done)), Do(Add(k, b, Done)), Do(SyncOne(b, Done))], Fsync);
  }
}
