/** Whole runs of the pointer table: the cache is invisible, and the disk always
    translates as memory did when the L1 table was last written. */
module QcowRuns {
  import opened Common
  import opened QcowLru
  import opened QcowTables
  import opened QcowWriteBack

  // --------------------------------------------------------------------- indices

  /** The slot of a guest address: which L2 table, which entry. */
  function L1Index(clusterSize: nat, n: nat, v: nat): nat
    requires clusterSize > 0 && n > 0
  {
    v / clusterSize / n
  }

  function L2Index(clusterSize: nat, n: nat, v: nat): (j: nat)
    requires clusterSize > 0 && n > 0
    ensures j < n
  {
    v / clusterSize % n
  }

  /** The place of a guest address in its cluster. */
  function InCluster(v: nat, clusterSize: nat): nat
    requires clusterSize > 0
  {
    v % clusterSize
  }

  /** Two addresses share a slot exactly when they lie in the same guest cluster, and
      the slots of table `i` are the `n` clusters from `i * n`. */
  lemma SlotExact(clusterSize: nat, n: nat, v: nat, w: nat)
    requires clusterSize > 0 && n > 0
    ensures (L1Index(clusterSize, n, v), L2Index(clusterSize, n, v)) == (L1Index(clusterSize, n, w), L2Index(clusterSize, n, w))
      <==> v / clusterSize == w / clusterSize
    ensures L1Index(clusterSize, n, v) * n + L2Index(clusterSize, n, v) == v / clusterSize
  {
  }

  // ----------------------------------------------------------------------- steps

  /** `fate` is how the write fares that the step may have to do. `Scribble` is any write
      to a cluster that is no table: a cluster being handed out, guest data, reference
      counts. */
  datatype Step =
    | Read(i: nat, j: nat, fate: Fate)
    | Add(i: nat, a: Word, fate: Fate)
    | Update(i: nat, j: nat, w: Word, copy: Word)
    | SyncOne(a: Word, fate: Fate)
    | SyncL1
    | Scribble(a: Word, words: seq<Word>)

  ghost predicate Enabled(t: Tables, s: Step) {
    match s
    case Read(i, j, fate) => i < |t.l1| && j < t.n && FateOk(t.n, fate)
    case Add(i, a, fate) => i < |t.l1| && Allocatable(t, a) && FateOk(t.n, fate)
    case Update(i, j, w, copy) =>
      && i < |t.l1| && j < t.n && Aligned(w) && t.l1[i] in t.cache.blocks
      && (MustCopy(t, t.l1[i]) ==> Allocatable(t, copy))
    case SyncOne(a, fate) => a in t.cache.blocks && FateOk(t.n, fate)
    case SyncL1 => AllClean(t)
    case Scribble(a, words) => Unused(t, a) && |words| == t.n
  }

  ghost function Apply(t: Tables, s: Step): (u: Tables)
    requires Inv(t) && Enabled(t, s)
  {
    match s
    case Read(i, j, fate) => FindWith(t, i, j, fate).0
    case Add(i, a, fate) => AddedWith(t, i, a, fate).0
    case Update(i, j, w, copy) => assert BlockOk(t, t.l1[i]); Updated(t, i, j, w, copy)
    case SyncOne(a, fate) => SyncedWith(t, a, fate)
    case SyncL1 => SyncedL1(t)
    case Scribble(a, words) => Scribbled(t, a, words)
  }

  /** The step evicts a dirty table whose write fails. */
  ghost predicate Hurts(t: Tables, s: Step)
    requires Inv(t) && Enabled(t, s)
  {
    match s
    case Read(i, _, fate) => Misses(t, i) && Loses(t, fate)
    case Add(_, _, fate) => Loses(t, fate)
    case _ => false
  }

  /** What an entry is after one step, if it was `was`: a plain table would say so. */
  function Plain(s: Step, i: nat, j: nat, was: Lookup): Lookup {
    match s
    case Add(k, _, _) => if k == i then At(0) else was
    case Update(k, l, w, _) => if k == i && l == j then At(w) else was
    case _ => was
  }

  /** Every step keeps the invariant. */
  lemma {:induction false} StepKeeps(t: Tables, s: Step)
    requires Inv(t) && Enabled(t, s)
    ensures var u := Apply(t, s); Inv(u) && |u.l1| == |t.l1| && u.n == t.n
  {
    match s
    case Read(i, j, fate) => ReadKeeps(t, i, j, fate);
    case Add(i, a, fate) => AddKeeps(t, i, a, fate);
    case Update(i, j, w, copy) => UpdateKeeps(t, i, j, w, copy);
    case SyncOne(a, fate) => SyncedWithOk(t, a, fate);
    case SyncL1 => SyncedL1Ok(t);
    case Scribble(a, words) => ScribbledOk(t, a, words);
  }

  lemma {:induction false} ReadKeeps(t: Tables, i: nat, j: nat, fate: Fate)
    requires Inv(t) && Enabled(t, Read(i, j, fate))
    ensures var u := Apply(t, Read(i, j, fate)); Inv(u) && u.l1 == t.l1 && u.n == t.n && SameDisk(t.disk, u.disk)
  {
    FindOk(t, i, j);
    if Hurts(t, Read(i, j, fate)) { LostExact(t, fate.words); }
  }

  lemma {:induction false} AddKeeps(t: Tables, i: nat, a: Word, fate: Fate)
    requires Inv(t) && Enabled(t, Add(i, a, fate))
    ensures var u := Apply(t, Add(i, a, fate));
      Inv(u) && u.l1 == t.l1[i := a] && u.n == t.n && SameDisk(t.disk, u.disk)
  {
    AddedOk(t, i, a);
    if Hurts(t, Add(i, a, fate)) { AddedLost(t, i, a, fate.words); }
  }

  lemma {:induction false} UpdateKeeps(t: Tables, i: nat, j: nat, w: Word, copy: Word)
    requires Inv(t) && Enabled(t, Update(i, j, w, copy))
    ensures var u := Apply(t, Update(i, j, w, copy));
      Inv(u) && |u.l1| == |t.l1| && u.n == t.n && SameDisk(t.disk, u.disk)
  {
    assert BlockOk(t, t.l1[i]);
    if MustCopy(t, t.l1[i]) { UpdatedCopies(t, i, j, w, copy); } else { UpdatedInPlace(t, i, j, w, copy); }
  }

  /** Each step that loses nothing does to every entry what it would do to a plain table. */
  lemma {:induction false} StepPlain(t: Tables, s: Step, i: nat, j: nat)
    requires Inv(t) && Enabled(t, s) && !Hurts(t, s) && i < |t.l1| && j < t.n
    ensures |Apply(t, s).l1| == |t.l1|
    ensures MemLookup(Apply(t, s), i, j) == Plain(s, i, j, MemLookup(t, i, j))
  {
    StepKeeps(t, s);
    match s
    case Read(k, l, _) => FindOk(t, k, l);
    case Add(k, a, _) => AddPlain(t, k, a, i, j);
    case Update(k, l, w, copy) => UpdatePlain(t, k, l, w, copy, i, j);
    case SyncOne(a, fate) => SyncedWithOk(t, a, fate);
    case SyncL1 => SyncedL1Ok(t);
    case Scribble(a, words) => ScribbledOk(t, a, words);
  }

  /** What becomes of each entry when the front table is lost: those of that table become
      what the disk holds under its address, those of a table `a` just put in slot `i`
      what the disk holds there, all others stay. */
  function AfterLoss(t: Tables, u: Tables, i: nat, a: Option<Word>, k: nat, l: nat): Lookup
    requires t.cache.order != [] && k < |t.l1|
  {
    if a.Some? && k == i then EntryOf(ReadTable(t.disk, a.value), l)
    else if t.l1[k] == t.cache.order[0] then EntryOf(ReadTable(u.disk, t.cache.order[0]), l)
    else MemLookup(t, k, l)
  }

  /** A step that loses a table, a read or the adding of a table, changes the entries that
      `AfterLoss` names, as it says, and no others. */
  lemma {:induction false} StepLoses(t: Tables, s: Step, k: nat, l: nat)
    requires Inv(t) && Enabled(t, s) && Hurts(t, s) && k < |t.l1| && l < t.n
    ensures |Apply(t, s).l1| == |t.l1| && t.cache.order != []
    ensures MemLookup(Apply(t, s), k, l)
         == AfterLoss(t, Apply(t, s), if s.Add? then s.i else 0, if s.Add? then Some(s.a) else None, k, l)
  {
    assert t.cache.order[0] in t.cache.order && BlockOk(t, t.cache.order[0]);
    if s.Read? {
      LostExact(t, s.fate.words);
    } else {
      PointedOk(t, s.i, s.a);
      LostExact(Pointed(t, s.i, s.a), s.fate.words);
    }
  }

  lemma {:induction false} AddPlain(t: Tables, k: nat, a: Word, i: nat, j: nat)
    requires Inv(t) && i < |t.l1| && j < t.n && k < |t.l1| && Allocatable(t, a)
    ensures |Added(t, k, a).l1| == |t.l1|
    ensures MemLookup(Added(t, k, a), i, j) == if k == i then At(0) else MemLookup(t, i, j)
  {
    AddedOk(t, k, a);
    assert i != k ==> t.l1[i] != a;
  }

  lemma {:induction false} UpdatePlain(t: Tables, k: nat, l: nat, w: Word, copy: Word, i: nat, j: nat)
    requires Inv(t) && Enabled(t, Update(k, l, w, copy)) && i < |t.l1| && j < t.n
    ensures |Apply(t, Update(k, l, w, copy)).l1| == |t.l1|
    ensures MemLookup(Apply(t, Update(k, l, w, copy)), i, j)
         == Plain(Update(k, l, w, copy), i, j, MemLookup(t, i, j))
  {
    assert BlockOk(t, t.l1[k]);
    if MustCopy(t, t.l1[k]) {
      UpdatedCopies(t, k, l, w, copy);
      assert i != k ==> t.l1[i] != copy;
    } else {
      UpdatedInPlace(t, k, l, w, copy);
      assert i != k ==> t.l1[i] != t.l1[k];
    }
  }

  /** Only writing the L1 table changes what the disk translates to, whatever fails; then
      it becomes what memory translates to. */
  lemma {:induction false} StepDisk(t: Tables, s: Step, i: nat, j: nat)
    requires Inv(t) && Enabled(t, s) && i < |t.l1| && j < t.n
    ensures |Apply(t, s).disk.l1| == |t.l1|
    ensures DiskLookup(Apply(t, s).disk, i, j) == if s.SyncL1? then MemLookup(t, i, j) else DiskLookup(t.disk, i, j)
  {
    StepKeeps(t, s);
    if s.SyncL1? {
      SyncedL1Ok(t);
    } else {
      StepSameDisk(t, s);
      SameDiskLookup(t.disk, Apply(t, s).disk, i, j);
    }
  }

  lemma {:induction false} StepSameDisk(t: Tables, s: Step)
    requires Inv(t) && Enabled(t, s) && !s.SyncL1?
    ensures SameDisk(t.disk, Apply(t, s).disk)
  {
    match s
    case Read(i, j, fate) => ReadKeeps(t, i, j, fate);
    case Add(i, a, fate) => AddKeeps(t, i, a, fate);
    case Update(i, j, w, copy) => UpdateKeeps(t, i, j, w, copy);
    case SyncOne(a, fate) => SyncedWithOk(t, a, fate);
    case Scribble(a, words) => ScribbledOk(t, a, words);
  }

  // ------------------------------------------------------------------------ runs

  ghost predicate IsRun(t: Tables, steps: seq<Step>)
    decreases |steps|, 0
  {
    Inv(t) && (steps == [] || (IsRun(t, steps[..|steps| - 1])
                 && Enabled(After(t, steps[..|steps| - 1]), steps[|steps| - 1])))
  }

  ghost function After(t: Tables, steps: seq<Step>): (u: Tables)
    requires IsRun(t, steps)
    ensures Inv(u) && |u.l1| == |t.l1| && u.n == t.n
    decreases |steps|, 1
  {
    if steps == [] then t
    else
      var u := After(t, steps[..|steps| - 1]);
      StepKeeps(u, steps[|steps| - 1]);
      Apply(u, steps[|steps| - 1])
  }

  /** What a plain table would hold after the steps: the last update of the entry, zero
      if its table was added since, or what it was at first. */
  function Expected(steps: seq<Step>, i: nat, j: nat, first: Lookup): Lookup {
    if steps == [] then first
    else Plain(steps[|steps| - 1], i, j, Expected(steps[..|steps| - 1], i, j, first))
  }

  /** No step of the run loses a table. */
  ghost predicate Unhurt(t: Tables, steps: seq<Step>)
    requires IsRun(t, steps)
    decreases |steps|
  {
    steps == [] || (Unhurt(t, steps[..|steps| - 1]) && !Hurts(After(t, steps[..|steps| - 1]), steps[|steps| - 1]))
  }

  /** The cache is invisible: after every run in which no eviction fails, memory
      translates as a plain table would, and so does a read. */
  lemma {:induction false} CacheInvisible(t: Tables, steps: seq<Step>, i: nat, j: nat)
    requires IsRun(t, steps) && Unhurt(t, steps) && i < |t.l1| && j < t.n
    ensures MemLookup(After(t, steps), i, j) == Expected(steps, i, j, MemLookup(t, i, j))
    ensures Find(After(t, steps), i, j).1 == Expected(steps, i, j, MemLookup(t, i, j))
    decreases |steps|
  {
    FindOk(After(t, steps), i, j);
    if steps != [] {
      var front := steps[..|steps| - 1];
      CacheInvisible(t, front, i, j);
      StepPlain(After(t, front), steps[|steps| - 1], i, j);
    }
  }

  /** The number of steps up to the last writing of the L1 table, or 0. */
  function LastSync(steps: seq<Step>): (k: nat)
    ensures k <= |steps|
  {
    if steps == [] then 0
    else if steps[|steps| - 1].SyncL1? then |steps|
    else LastSync(steps[..|steps| - 1])
  }

  lemma {:induction false} PrefixRuns(t: Tables, steps: seq<Step>, k: nat)
    requires IsRun(t, steps) && k <= |steps|
    ensures IsRun(t, steps[..k]) && (Unhurt(t, steps) ==> Unhurt(t, steps[..k]))
    decreases |steps|
  {
    if k == |steps| {
      assert steps[..k] == steps;
    } else {
      PrefixRuns(t, steps[..|steps| - 1], k);
      assert steps[..|steps| - 1][..k] == steps[..k];
    }
  }

  /** Crash consistency: at every point of every run, failing evictions and syncs
      included, the tables on disk translate each address as memory did when the L1 table
      was last written. */
  lemma {:induction false} CrashConsistent(t: Tables, steps: seq<Step>, i: nat, j: nat)
    requires IsRun(t, steps) && i < |t.l1| && j < t.n
    requires DiskLookup(t.disk, i, j) == MemLookup(t, i, j)
    ensures IsRun(t, steps[..LastSync(steps)])
    ensures DiskLookup(After(t, steps).disk, i, j) == MemLookup(After(t, steps[..LastSync(steps)]), i, j)
    decreases |steps|
  {
    PrefixRuns(t, steps, LastSync(steps));
    if steps != [] {
      var front, s := steps[..|steps| - 1], steps[|steps| - 1];
      StepDisk(After(t, front), s, i, j);
      if s.SyncL1? {
        assert steps[..LastSync(steps)] == steps;
        SyncedL1Ok(After(t, front));
      } else {
        CrashConsistent(t, front, i, j);
        assert steps[..LastSync(steps)] == front[..LastSync(front)];
      }
    }
  }

  /** And that is what a plain table held then, if nothing had been lost. */
  lemma {:induction false} CrashExpected(t: Tables, steps: seq<Step>, i: nat, j: nat)
    requires IsRun(t, steps) && Unhurt(t, steps) && i < |t.l1| && j < t.n
    requires DiskLookup(t.disk, i, j) == MemLookup(t, i, j)
    ensures DiskLookup(After(t, steps).disk, i, j) == Expected(steps[..LastSync(steps)], i, j, MemLookup(t, i, j))
  {
    CrashConsistent(t, steps, i, j);
    PrefixRuns(t, steps, LastSync(steps));
    CacheInvisible(t, steps[..LastSync(steps)], i, j);
  }

  /** Even a torn write of the L1 table, of which only the first `m` words arrive, leaves
      every address translated either as memory does or as the disk did. */
  lemma TornL1(t: Tables, m: nat, i: nat, j: nat)
    requires Inv(t) && AllClean(t) && m <= |t.l1| && i < |t.l1| && j < t.n
    ensures DiskLookup(FailedL1(t, m).disk, i, j)
         == if t.l1Dirty && i < m then MemLookup(t, i, j) else DiskLookup(t.disk, i, j)
  {
    var d := FailedL1(t, m).disk;
    assert ReadTable(d, t.l1[i]) == ReadTable(t.disk, t.l1[i]);
    OffsetExact(t.l1[i]);
    if i < m && t.l1[i] in t.cache.blocks { assert BlockOk(t, t.l1[i]); }
  }

  /** The disk `d` translates as `t` does in memory up to table `m`, and as the disk of `t`
      from there. */
  ghost predicate TornBetween(t: Tables, d: Disk, m: nat) {
    && |d.l1| == |t.l1| == |t.disk.l1|
    && forall i: nat, j: nat {:trigger DiskLookup(d, i, j)} :: i < |t.l1| && j < t.n ==>
         DiskLookup(d, i, j) == if i < m then MemLookup(t, i, j) else DiskLookup(t.disk, i, j)
  }

  /** So does syncCache that failed in the L1 table. */
  lemma TornSweep(t: Tables, u: Tables, m: nat)
    requires Inv(t) && Inv(u) && Swept(t, u) && AllClean(u) && u.l1Dirty && m <= |t.l1|
    ensures TornBetween(t, FailedL1(u, m).disk, m) && SameTables(t, FailedL1(u, m))
  {
    forall a: Word ensures TableAt(FailedL1(u, m), a) == TableAt(t, a) {
      assert TableAt(u, a) == TableAt(t, a);
    }
    forall i: nat, j: nat | i < |t.l1| && j < t.n
      ensures DiskLookup(FailedL1(u, m).disk, i, j) == if i < m then MemLookup(t, i, j) else DiskLookup(t.disk, i, j)
    {
      TornL1(u, m, i, j);
      SameDiskLookup(t.disk, u.disk, i, j);
    }
  }

  lemma {:induction false} OneMore(t: Tables, steps: seq<Step>, s: Step)
    requires IsRun(t, steps) && Unhurt(t, steps) && Enabled(After(t, steps), s) && !Hurts(After(t, steps), s)
    ensures IsRun(t, steps + [s]) && Unhurt(t, steps + [s]) && After(t, steps + [s]) == Apply(After(t, steps), s)
  {
    assert (steps + [s])[..|steps + [s]| - 1] == steps;
  }

  lemma {:induction false} TwoSteps(t: Tables, s0: Step, s1: Step)
    requires Inv(t) && Enabled(t, s0) && !Hurts(t, s0)
    requires Inv(Apply(t, s0)) && Enabled(Apply(t, s0), s1) && !Hurts(Apply(t, s0), s1)
    ensures IsRun(t, [s0, s1]) && Unhurt(t, [s0, s1]) && After(t, [s0, s1]) == Apply(Apply(t, s0), s1)
  {
    OneMore(t, [], s0);
    assert [] + [s0] == [s0];
    OneMore(t, [s0], s1);
    assert [s0] + [s1] == [s0, s1];
  }

  /** Writing the L1 table while an L2 table is still only in memory would not do: on any
      image, a table that is added and updated would be lost, unless its cluster happens
      to hold the update already. */
  lemma {:induction false} L1BeforeL2Loses(d: Disk, n: nat, capacity: nat, i: nat, j: nat, a: Word, w: Word)
    requires Sized(d, n) && j < n && capacity > 0 && i < |d.l1| && Aligned(w)
    requires Allocatable(Opened(d, n, capacity), a) && EntryOf(ReadTable(d, a), j) != At(w)
    ensures var t, steps := Opened(d, n, capacity), [Add(i, a, Done), Update(i, j, w, 0)];
      && IsRun(t, steps) && Unhurt(t, steps)
      && DiskLookup(SyncedL1(After(t, steps)).disk, i, j) != MemLookup(After(t, steps), i, j)
  {
    var t, s0, s1 := Opened(d, n, capacity), Add(i, a, Done), Update(i, j, w, 0);
    OpenedInv(d, n, capacity);
    AddedOk(t, i, a);
    var u := Added(t, i, a);
    assert u.disk == d && Private(u, a);
    assert BlockOk(u, a);
    UpdatedInPlace(u, i, j, w, 0);
    TwoSteps(t, s0, s1);
    OffsetExact(a);
  }

  // ------------------------------------------------------------------- mappings

  /** What a guest cluster is mapped to, an empty entry counting as none. */
  function Mapping(t: Tables, i: nat, j: nat): Lookup
    requires i < |t.l1|
  {
    var l := MemLookup(t, i, j);
    if l == At(0) then NoTable else l
  }

  ghost predicate SameMapping(t: Tables, u: Tables) {
    && |u.l1| == |t.l1| && u.n == t.n
    && forall i: nat, j: nat {:trigger Mapping(u, i, j)} ::
         i < |t.l1| && j < t.n ==> Mapping(u, i, j) == Mapping(t, i, j)
  }

  /** Entry `j` of table `i` is mapped to `w`, all else as before; one that was mapped
      already has kept its cluster. */
  ghost predicate MapsTo(t: Tables, u: Tables, i: nat, j: nat, w: Word)
    requires i < |t.l1|
  {
    && |u.l1| == |t.l1| && u.n == t.n && Mapping(u, i, j) == At(w)
    && (Mapping(t, i, j) == NoTable || Mapping(t, i, j) == At(w))
    && forall k: nat, l: nat {:trigger Mapping(u, k, l)} ::
         k < |t.l1| && l < t.n && (k, l) != (i, j) ==> Mapping(u, k, l) == Mapping(t, k, l)
  }

  /** The clusters an allocator may give during one write: unused, and different. */
  ghost predicate Handed(t: Tables, table: Option<Word>, cluster: Option<Word>, copy: Option<Word>) {
    && (table.Some? ==> Allocatable(t, table.value) && table != cluster && table != copy)
    && (cluster.Some? ==> Allocatable(t, cluster.value) && cluster != copy)
    && (copy.Some? ==> Allocatable(t, copy.value))
  }

  lemma SameMappingTrans(t: Tables, u: Tables, v: Tables)
    requires SameMapping(t, u) && SameMapping(u, v)
    ensures SameMapping(t, v)
  {
  }

  lemma MapsToTrans(t: Tables, u: Tables, v: Tables, i: nat, j: nat, w: Word)
    requires SameMapping(t, u) && i < |t.l1| && j < t.n && MapsTo(u, v, i, j, w)
    ensures MapsTo(t, v, i, j, w)
  {
  }

  lemma SameDiskTrans(d: Disk, e: Disk, f: Disk)
    requires SameDisk(d, e) && SameDisk(e, f)
    ensures SameDisk(d, f)
  {
  }

  /** Steps that change no mapping. */
  lemma {:induction false} StepSameMapping(t: Tables, s: Step)
    requires Inv(t) && Enabled(t, s) && !s.Update? && !Hurts(t, s)
    requires s.Add? ==> t.l1[s.i] == 0
    ensures SameMapping(t, Apply(t, s))
  {
    StepKeeps(t, s);
    forall i: nat, j: nat | i < |t.l1| && j < t.n ensures Mapping(Apply(t, s), i, j) == Mapping(t, i, j) {
      StepPlain(t, s, i, j);
    }
  }

  lemma {:induction false} StepMapsTo(t: Tables, s: Step)
    requires Inv(t) && Enabled(t, s) && s.Update? && s.w != 0
    requires Mapping(t, s.i, s.j) == NoTable
    ensures MapsTo(t, Apply(t, s), s.i, s.j, s.w)
  {
    StepKeeps(t, s);
    forall i: nat, j: nat | i < |t.l1| && j < t.n
      ensures Mapping(Apply(t, s), i, j) == if (i, j) == (s.i, s.j) then At(s.w) else Mapping(t, i, j)
    {
      StepPlain(t, s, i, j);
    }
  }

  /** A cluster that could be handed out still can, after a step that does not use it. */
  lemma {:induction false} StillAllocatable(t: Tables, s: Step, x: Word)
    requires Inv(t) && Enabled(t, s) && !Hurts(t, s) && (s.Read? || s.Scribble? || s.Add?)
    requires Allocatable(t, x) && (s.Add? ==> s.a != x)
    ensures Allocatable(Apply(t, s), x)
  {
    StepKeeps(t, s);
    StepSameDisk(t, s);
    assert OnDisk(Apply(t, s).disk, x) ==> OnDisk(t.disk, x);
  }

  // The four parts of a write, each with what it leaves alone.

  lemma {:induction false} ReadAside(t: Tables, i: nat, j: nat)
    requires Inv(t) && i < |t.l1| && j < t.n
    ensures var u := Find(t, i, j).0;
      && SameMapping(t, u) && SameDisk(t.disk, u.disk) && u.l1 == t.l1
      && Find(t, i, j).1 == MemLookup(u, i, j)
      && (Find(t, i, j).1.At? ==> u.l1[i] in u.cache.blocks)
      && forall x: Word :: Allocatable(t, x) ==> Allocatable(u, x)
  {
    var s := Read(i, j, Done);
    FindOk(t, i, j);
    StepSameMapping(t, s);
    forall x | Allocatable(t, x) ensures Allocatable(Find(t, i, j).0, x) { StillAllocatable(t, s, x); }
  }

  lemma {:induction false} AddAside(t: Tables, i: nat, a: Word)
    requires Inv(t) && i < |t.l1| && t.l1[i] == 0 && Allocatable(t, a)
    ensures var u := Added(t, i, a);
      && SameMapping(t, u) && SameDisk(t.disk, u.disk) && u.l1 == t.l1[i := a] && a in u.cache.blocks
      && (forall j: nat :: j < t.n ==> MemLookup(u, i, j) == At(0))
      && forall x: Word :: Allocatable(t, x) && x != a ==> Allocatable(u, x)
  {
    var s := Add(i, a, Done);
    AddedOk(t, i, a);
    StepSameMapping(t, s);
    forall x | Allocatable(t, x) && x != a ensures Allocatable(Added(t, i, a), x) { StillAllocatable(t, s, x); }
  }

  lemma {:induction false} ScribbleAside(t: Tables, a: Word, words: seq<Word>)
    requires Inv(t) && Unused(t, a) && |words| == t.n
    ensures var u := Scribbled(t, a, words);
      Inv(u) && SameMapping(t, u) && SameDisk(t.disk, u.disk) && forall x: Word :: Allocatable(t, x) ==> Allocatable(u, x)
  {
    ScribbledOk(t, a, words);
    StepSameMapping(t, Scribble(a, words));
  }

  lemma {:induction false} UpdateAside(t: Tables, i: nat, j: nat, w: Word, copy: Option<Word>)
    requires Inv(t) && i < |t.l1| && j < t.n && t.l1[i] in t.cache.blocks && Aligned(w) && w != 0
    requires Mapping(t, i, j) == NoTable && (copy.Some? ==> Allocatable(t, copy.value))
    ensures SameMapping(t, t.(cache := Used(t.cache, t.l1[i])))
    ensures var u := Updated(t, i, j, w, if copy.Some? then copy.value else 0);
      (MustCopy(t, t.l1[i]) ==> copy.Some?) ==> MapsTo(t, u, i, j, w) && SameDisk(t.disk, u.disk)
  {
    UsedOk(t.cache, t.l1[i]);
    ReorderedOk(t, Used(t.cache, t.l1[i]));
    if MustCopy(t, t.l1[i]) ==> copy.Some? {
      var s := Update(i, j, w, if copy.Some? then copy.value else 0);
      StepMapsTo(t, s);
      StepSameDisk(t, s);
    }
  }

  /** Looking up a table, or adding one that is missing, loses another. */
  ghost predicate TableLost(t: Tables, i: nat, table: Option<Word>, read: Fate, add: Fate)
    requires Inv(t) && i < |t.l1|
  {
    (Misses(t, i) && Loses(t, read)) || (t.l1[i] == 0 && table.Some? && Loses(t, add))
  }

  /** What finding a table must come to, from `t` to `u`. */
  ghost predicate TableReady(t: Tables, u: Tables, i: nat, j: nat, table: Option<Word>, found: Lookup) {
    && SameMapping(t, u) && SameDisk(t.disk, u.disk) && i < |u.l1|
    && (found.At? ==> found == MemLookup(u, i, j) && u.l1[i] in u.cache.blocks)
    && forall x: Word :: Allocatable(t, x) && table != Some(x) ==> Allocatable(u, x)
  }

  lemma {:induction false} FindAside(t: Tables, i: nat, j: nat, table: Option<Word>)
    requires Inv(t) && i < |t.l1| && j < t.n && (table.Some? ==> Allocatable(t, table.value))
    ensures var (u, found) := Find(t, i, j);
      && TableReady(t, u, i, j, table, found)
      && (found.NoTable? && table.Some? ==>
            Inv(u) && Allocatable(u, table.value) && TableReady(t, Added(u, i, table.value), i, j, table, At(0)))
  {
    ReadAside(t, i, j);
    FindOk(t, i, j);
    var (u, found) := Find(t, i, j);
    if found.NoTable? && table.Some? {
      AddAside(u, i, table.value);
      SameMappingTrans(t, u, Added(u, i, table.value));
      SameDiskTrans(t.disk, u.disk, Added(u, i, table.value).disk);
    }
  }

  /** fileOffsetWrite, first part: look the entry up, add a table when it has none. */
  function Prepared(t: Tables, i: nat, j: nat, table: Option<Word>, read: Fate, add: Fate): (Tables, Lookup)
    requires CacheOk(t.cache) && t.capacity > 0 && i < |t.l1|
  {
    var (u, found) := FindWith(t, i, j, read);
    if found.NoTable? && table.Some? then
      var (x, ok) := AddedWith(t, i, table.value, add);
      (x, if ok then At(0) else WriteFailed)
    else (u, found)
  }

  lemma {:induction false} PreparedOk(t: Tables, i: nat, j: nat, table: Option<Word>, read: Fate, add: Fate)
    requires Inv(t) && i < |t.l1| && j < t.n && (table.Some? ==> Allocatable(t, table.value))
    requires FateOk(t.n, read) && FateOk(t.n, add)
    ensures var (u, found) := Prepared(t, i, j, table, read, add);
      && Inv(u) && |u.l1| == |t.l1| && u.n == t.n && SameDisk(t.disk, u.disk)
      && if TableLost(t, i, table, read, add) then found == WriteFailed else TableReady(t, u, i, j, table, found)
  {
    FindAside(t, i, j, table);
    ReadKeeps(t, i, j, read);
    if t.l1[i] == 0 && table.Some? {
      AddKeeps(t, i, table.value, add);
      assert Find(t, i, j) == (t, NoTable);
    } else {
      assert Prepared(t, i, j, table, read, add) == FindWith(t, i, j, read);
    }
  }

  /** An entry found in it is in a cached table. */
  lemma {:induction false} PreparedCached(t: Tables, i: nat, j: nat, table: Option<Word>, read: Fate, add: Fate)
    requires Inv(t) && i < |t.l1| && j < t.n && (table.Some? ==> Allocatable(t, table.value))
    requires FateOk(t.n, read) && FateOk(t.n, add)
    ensures var (u, found) := Prepared(t, i, j, table, read, add);
      |u.l1| == |t.l1| && (found.At? ==> Writable(u, i, j))
  {
    PreparedOk(t, i, j, table, read, add);
    var (u, found) := Prepared(t, i, j, table, read, add);
    if found.At? { assert BlockOk(u, u.l1[i]); }
  }

  /** fileOffsetRead: whether it succeeds, and the cluster the entry is mapped to. */
  function OffsetRead(t: Tables, i: nat, j: nat, fate: Fate): (Tables, bool, Option<Word>)
    requires CacheOk(t.cache) && t.capacity > 0 && i < |t.l1|
  {
    var (u, found) := FindWith(t, i, j, fate);
    (u, !found.Unreadable? && !found.WriteFailed?,
     if found.At? && found.address != 0 then Some(found.address) else None)
  }

  /** What a read amounts to: a failed eviction makes it fail and loses the table evicted;
      otherwise it gives the mapping and changes none. */
  lemma {:induction false} OffsetReadOk(t: Tables, i: nat, j: nat, fate: Fate)
    requires Inv(t) && i < |t.l1| && j < t.n && FateOk(t.n, fate)
    ensures var (u, ok, w) := OffsetRead(t, i, j, fate);
      && Inv(u) && u.l1 == t.l1 && SameDisk(t.disk, u.disk)
      && if Misses(t, i) && Loses(t, fate) then !ok && w.None? && u == Lost(t, fate.words)
         else
           && SameTables(t, u) && ok == !Mapping(t, i, j).Unreadable?
           && w == if Mapping(t, i, j).At? then Some(Mapping(t, i, j).address) else None
  {
    FindOk(t, i, j);
    ReadKeeps(t, i, j, fate);
  }

  /** Second part: the entry gets the cluster `a`, filled with `words`. */
  function MappedTo(t: Tables, i: nat, j: nat, a: Word, copy: Option<Word>, words: seq<Word>): (Tables, bool)
    requires i < |t.l1| && t.l1[i] in t.cache.blocks && j < |t.cache.blocks[t.l1[i]].data|
  {
    TriedUpdate(Scribbled(t, a, words), i, Block(t.cache.blocks[t.l1[i]].data[j := a], true), copy)
  }

  lemma MappedToOk(t: Tables, i: nat, j: nat, a: Word, copy: Option<Word>, words: seq<Word>)
    requires Inv(t) && i < |t.l1| && j < t.n && t.l1[i] in t.cache.blocks && |words| == t.n
    requires Allocatable(t, a) && (copy.Some? ==> Allocatable(t, copy.value)) && Mapping(t, i, j) == NoTable
    ensures j < |t.cache.blocks[t.l1[i]].data|
    ensures var (v, ok) := MappedTo(t, i, j, a, copy, words);
      && Inv(v) && SameDisk(t.disk, v.disk) && if ok then MapsTo(t, v, i, j, a) else SameMapping(t, v)
  {
    assert BlockOk(t, t.l1[i]);
    var u := Scribbled(t, a, words);
    ScribbleAside(t, a, words);
    assert Mapping(u, i, j) == Mapping(t, i, j);
    UpdateAside(u, i, j, a, copy);
    UpdatedOk(u, i, j, a, if copy.Some? then copy.value else 0);
    MappedTrans(t, u, TriedUpdate(u, i, Block(t.cache.blocks[t.l1[i]].data[j := a], true), copy), i, j, a);
  }

  /** A change of the mapping, after steps that change none. */
  lemma MappedTrans(t: Tables, u: Tables, r: (Tables, bool), i: nat, j: nat, a: Word)
    requires SameMapping(t, u) && SameDisk(t.disk, u.disk) && i < |t.l1| && j < t.n
    requires SameDisk(u.disk, r.0.disk) && if r.1 then MapsTo(u, r.0, i, j, a) else SameMapping(u, r.0)
    ensures SameDisk(t.disk, r.0.disk) && if r.1 then MapsTo(t, r.0, i, j, a) else SameMapping(t, r.0)
  {
    SameDiskTrans(t.disk, u.disk, r.0.disk);
    if r.1 { MapsToTrans(t, u, r.0, i, j, a); } else { SameMappingTrans(t, u, r.0); }
  }

  predicate Writable(t: Tables, i: nat, j: nat) {
    i < |t.l1| && t.l1[i] in t.cache.blocks && j < |t.cache.blocks[t.l1[i]].data|
  }

  function Finished(
    t: Tables, i: nat, j: nat, found: Lookup, cluster: Option<Word>, copy: Option<Word>, words: seq<Word>)
    : (Tables, Option<Word>)
    requires found.At? ==> Writable(t, i, j)
  {
    if !found.At? then (t, None)
    else if found.address != 0 then (t, Some(found.address))
    else if cluster.None? then (t, None)
    else
      var (v, ok) := MappedTo(t, i, j, cluster.value, copy, words);
      (v, if ok then cluster else None)
  }

  /** Both parts: the cluster the entry is mapped to, if all goes well. */
  function OffsetWritten(
    t: Tables, i: nat, j: nat, table: Option<Word>, cluster: Option<Word>, copy: Option<Word>, words: seq<Word>,
    read: Fate, add: Fate): (Tables, Option<Word>)
    requires CacheOk(t.cache) && t.capacity > 0 && i < |t.l1|
  {
    var (u, found) := Prepared(t, i, j, table, read, add);
    if found.At? && !Writable(u, i, j) then (u, None) else Finished(u, i, j, found, cluster, copy, words)
  }

  /** What a write's translation amounts to. */
  lemma {:induction false} OffsetWrittenOk(
    t: Tables, i: nat, j: nat, table: Option<Word>, cluster: Option<Word>, copy: Option<Word>, words: seq<Word>,
    read: Fate, add: Fate)
    requires Inv(t) && i < |t.l1| && j < t.n && |words| == t.n && FateOk(t.n, read) && FateOk(t.n, add)
    requires Handed(t, table, cluster, copy)
    ensures var (v, w) := OffsetWritten(t, i, j, table, cluster, copy, words, read, add);
      && Inv(v) && SameDisk(t.disk, v.disk)
      && (w.None? && !TableLost(t, i, table, read, add) ==> SameMapping(t, v))
      && (TableLost(t, i, table, read, add) ==> LosesFront(t, v, i, if t.l1[i] == 0 then table else None))
      && (w.Some? ==> w.value != 0 && !TableLost(t, i, table, read, add) && MapsTo(t, v, i, j, w.value))
  {
    PreparedOk(t, i, j, table, read, add);
    PreparedCached(t, i, j, table, read, add);
    var (u, found) := Prepared(t, i, j, table, read, add);
    if TableLost(t, i, table, read, add) {
      WriteLoses(t, i, j, table, read, add);
    } else {
      FinishedOk(t, u, i, j, found, table, cluster, copy, words);
    }
  }

  /** Every entry is as after the loss of the front table. */
  ghost predicate LosesFront(t: Tables, u: Tables, i: nat, a: Option<Word>) {
    && |u.l1| == |t.l1| && u.n == t.n && t.cache.order != []
    && forall k: nat, l: nat {:trigger MemLookup(u, k, l)} ::
         k < |t.l1| && l < t.n ==> MemLookup(u, k, l) == AfterLoss(t, u, i, a, k, l)
  }

  lemma {:induction false} WriteLoses(t: Tables, i: nat, j: nat, table: Option<Word>, read: Fate, add: Fate)
    requires Inv(t) && i < |t.l1| && j < t.n && (table.Some? ==> Allocatable(t, table.value))
    requires FateOk(t.n, read) && FateOk(t.n, add) && TableLost(t, i, table, read, add)
    ensures LosesFront(t, Prepared(t, i, j, table, read, add).0, i, if t.l1[i] == 0 then table else None)
  {
    var s := if t.l1[i] == 0 then Add(i, table.value, add) else Read(i, j, read);
    StepKeeps(t, s);
    assert Apply(t, s) == Prepared(t, i, j, table, read, add).0;
    forall k: nat, l: nat | k < |t.l1| && l < t.n
      ensures MemLookup(Apply(t, s), k, l) == AfterLoss(t, Apply(t, s), i, if t.l1[i] == 0 then table else None, k, l)
    {
      StepLoses(t, s, k, l);
    }
  }

  lemma FinishedOk(
    t: Tables, u: Tables, i: nat, j: nat, found: Lookup,
    table: Option<Word>, cluster: Option<Word>, copy: Option<Word>, words: seq<Word>)
    requires Inv(u) && i < |t.l1| && j < t.n && |words| == t.n && (found.At? ==> Writable(u, i, j))
    requires TableReady(t, u, i, j, table, found) && Handed(t, table, cluster, copy)
    ensures var (v, w) := Finished(u, i, j, found, cluster, copy, words);
      && Inv(v) && SameDisk(t.disk, v.disk) && (w.None? ==> SameMapping(t, v))
      && (w.Some? ==> w.value != 0 && MapsTo(t, v, i, j, w.value))
  {
    if found.At? {
      assert Mapping(u, i, j) == Mapping(t, i, j);
      if found.address == 0 && cluster.Some? {
        MappedToOk(u, i, j, cluster.value, copy, words);
        MappedTrans(t, u, MappedTo(u, i, j, cluster.value, copy, words), i, j, cluster.value);
      }
    }
  }

  /** Apart from lost tables, a write is carried out exactly if the entry is mapped already,
      or there is a cluster for it and, where none is there yet, one for its table, and,
      where the table is the disk's own, one for its copy. */
  predicate Writes(t: Tables, i: nat, j: nat, table: Option<Word>, cluster: Option<Word>, copy: Option<Word>)
    requires i < |t.l1|
  {
    match MemLookup(t, i, j)
    case NoTable => table.Some? && cluster.Some?
    case At(w) => w != 0 || (cluster.Some? && (Private(t, t.l1[i]) || copy.Some?))
    case _ => false
  }

  lemma {:induction false} OffsetWrittenWhen(
    t: Tables, i: nat, j: nat, table: Option<Word>, cluster: Option<Word>, copy: Option<Word>, words: seq<Word>,
    read: Fate, add: Fate)
    requires Inv(t) && i < |t.l1| && j < t.n && |words| == t.n && FateOk(t.n, read) && FateOk(t.n, add)
    requires Handed(t, table, cluster, copy)
    ensures var w := OffsetWritten(t, i, j, table, cluster, copy, words, read, add).1;
      && (w.Some? <==> !TableLost(t, i, table, read, add) && Writes(t, i, j, table, cluster, copy))
      && (w.Some? && Mapping(t, i, j) == NoTable ==> w == cluster)
  {
    PreparedOk(t, i, j, table, read, add);
    PreparedCached(t, i, j, table, read, add);
    var (u, found) := Prepared(t, i, j, table, read, add);
    FinishedWhen(u, i, j, found, cluster, copy, words);
    if !TableLost(t, i, table, read, add) { PreparedOwn(t, i, j, table, read, add); }
  }

  lemma {:induction false} FinishedWhen(
    u: Tables, i: nat, j: nat, found: Lookup, cluster: Option<Word>, copy: Option<Word>, words: seq<Word>)
    requires i < |u.l1| && (found.At? ==> Writable(u, i, j))
    ensures var w := Finished(u, i, j, found, cluster, copy, words).1;
      && (w.Some? <==>
            found.At? && (found.address != 0 || (cluster.Some? && (MustCopy(u, u.l1[i]) ==> copy.Some?))))
      && (w.Some? ==> w == if found.address != 0 then Some(found.address) else cluster)
  {
  }

  /** Finding or adding a table does not change whether it is the disk's own. */
  lemma {:induction false} PreparedOwn(t: Tables, i: nat, j: nat, table: Option<Word>, read: Fate, add: Fate)
    requires Inv(t) && i < |t.l1| && j < t.n && (table.Some? ==> Allocatable(t, table.value))
    requires FateOk(t.n, read) && FateOk(t.n, add) && !TableLost(t, i, table, read, add)
    ensures var (u, found) := Prepared(t, i, j, table, read, add);
      && i < |u.l1|
      && found == (if MemLookup(t, i, j).NoTable? && table.Some? then At(0) else MemLookup(t, i, j))
      && (found.At? ==> (MustCopy(u, u.l1[i]) <==> t.l1[i] != 0 && !Private(t, t.l1[i])))
  {
    FindOk(t, i, j);
    FindCases(t, i, j, read);
    if t.l1[i] == 0 && table.Some? { AddedOk(t, i, table.value); }
  }

  // --------------------------------------------------------------- host offsets

  /** `x` is the host byte of the guest byte `v`: byte `k` of the cluster that entry `j` of
      table `i` is mapped to, for byte `k` of the guest cluster that is the entry's. */
  ghost predicate HostByte(t: Tables, size: nat, v: nat, x: nat) {
    exists i: nat, j: nat, k: nat :: HostPlace(t, size, v, x, i, j, k)
  }

  ghost predicate HostPlace(t: Tables, size: nat, v: nat, x: nat, i: nat, j: nat, k: nat) {
    && i < |t.l1| && j < t.n && k < size && v == (i * t.n + j) * size + k
    && Mapping(t, i, j).At? && x == Mapping(t, i, j).address + k
  }

  /** A guest byte has one host byte exactly if its slot is mapped. */
  lemma HostExact(t: Tables, size: nat, v: nat, x: nat)
    requires size > 0 && t.n > 0 && L1Index(size, t.n, v) < |t.l1|
    ensures var m := Mapping(t, L1Index(size, t.n, v), L2Index(size, t.n, v));
      m.At? && x == m.address + InCluster(v, size) <==> HostByte(t, size, v, x)
  {
    var i, j, k := L1Index(size, t.n, v), L2Index(size, t.n, v), InCluster(v, size);
    SlotPlace(size, t.n, v);
    if Mapping(t, i, j).At? && x == Mapping(t, i, j).address + k { assert HostPlace(t, size, v, x, i, j, k); }
    if p: nat, q: nat, r: nat :| HostPlace(t, size, v, x, p, q, r) { OnlyPlace(t, size, v, x, p, q, r); }
  }

  lemma SlotPlace(size: nat, n: nat, v: nat)
    requires size > 0 && n > 0
    ensures L2Index(size, n, v) < n && InCluster(v, size) < size
    ensures v == (L1Index(size, n, v) * n + L2Index(size, n, v)) * size + InCluster(v, size)
  {
    SlotExact(size, n, v, v);
    assert v == v / size * size + v % size;
  }

  /** The place is in the slot of `v`. */
  lemma OnlyPlace(t: Tables, size: nat, v: nat, x: nat, i: nat, j: nat, k: nat)
    requires size > 0 && t.n > 0 && HostPlace(t, size, v, x, i, j, k)
    ensures v / size == i * t.n + j && i == L1Index(size, t.n, v) && j == L2Index(size, t.n, v) && k == InCluster(v, size)
  {
    BlockOf(v, size, i * t.n + j);
    BlockOf(i * t.n + j, t.n, i);
    SlotPlace(size, t.n, v);
  }

  /** The clusters the guest is mapped to do not overlap. */
  ghost predicate Spread(t: Tables, size: nat) {
    forall i: nat, j: nat, k: nat, l: nat {:trigger Mapping(t, i, j), Mapping(t, k, l)} ::
      && i < |t.l1| && j < t.n && k < |t.l1| && l < t.n && (i, j) != (k, l)
      && Mapping(t, i, j).At? && Mapping(t, k, l).At? ==>
        || Mapping(t, i, j).address + size <= Mapping(t, k, l).address
        || Mapping(t, k, l).address + size <= Mapping(t, i, j).address
  }

  /** Bytes of one guest cluster keep their distance on the host, and two guest bytes share
      a host byte only if the clusters overlap. */
  lemma HostBytes(t: Tables, size: nat, v: nat, w: nat, x: nat, y: nat)
    requires size > 0 && t.n > 0 && HostByte(t, size, v, x) && HostByte(t, size, w, y)
    ensures v / size == w / size ==> x - y == v - w
    ensures Spread(t, size) && v != w ==> x != y
  {
    var i: nat, j: nat, k: nat :| HostPlace(t, size, v, x, i, j, k);
    var p: nat, q: nat, r: nat :| HostPlace(t, size, w, y, p, q, r);
    OnlyPlace(t, size, v, x, i, j, k);
    OnlyPlace(t, size, w, y, p, q, r);
    SlotExact(size, t.n, v, w);
  }
}
