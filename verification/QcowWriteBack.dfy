/** The operations of the write-back pointer table on values, and what each keeps: the
    invariant, the translation through memory, the translation through the disk. */
module QcowWriteBack {
  import opened Common
  import opened QcowLru
  import opened QcowTables

  /** The caller of the allocator gets a cluster that neither table reaches and that is
      not in the cache. */
  ghost predicate Unused(t: Tables, a: Word) {
    !OnDisk(t.disk, a) && a !in t.l1 && a !in t.cache.blocks
  }

  ghost predicate Allocatable(t: Tables, a: Word) {
    a != 0 && Aligned(a) && Unused(t, a)
  }

  // ------------------------------------------------------------------- relations

  /** Every L2 table reads the same in memory. */
  ghost predicate SameTables(t: Tables, u: Tables) {
    forall a: Word {:trigger TableAt(u, a)} :: TableAt(u, a) == TableAt(t, a)
  }

  /** Every L2 table but the one at `x`. */
  ghost predicate SameBut(t: Tables, u: Tables, x: Word) {
    forall a: Word {:trigger TableAt(u, a)} :: a != x ==> TableAt(u, a) == TableAt(t, a)
  }

  /** Nothing the L1 table on disk leads to has changed. */
  ghost predicate SameDisk(d: Disk, e: Disk) {
    && e.l1 == d.l1
    && forall a: Word {:trigger ReadTable(e, a)} {:trigger ClusterAt(e, a)} ::
         OnDisk(d, a) ==> ClusterAt(e, a) == ClusterAt(d, a)
  }

  /** So the disk translates as before. */
  lemma SameDiskLookup(d: Disk, e: Disk, i: nat, j: nat)
    requires SameDisk(d, e) && i < |d.l1|
    ensures DiskLookup(e, i, j) == DiskLookup(d, i, j)
  {
  }

  // ----------------------------------------------------------------------- parts

  function Zeroes(n: nat): (r: seq<Word>)
    ensures |r| == n && AlignedAll(r) && forall j :: 0 <= j < n ==> r[j] == 0
  {
    seq(n, _ => 0)
  }

  function PutCluster(d: Disk, a: Word, words: seq<Word>): Disk {
    d.(clusters := d.clusters[a := words])
  }

  /** A write outside the tables. */
  function Scribbled(t: Tables, a: Word, words: seq<Word>): Tables {
    t.(disk := PutCluster(t.disk, a, words))
  }

  lemma {:induction false} ScribbledOk(t: Tables, a: Word, words: seq<Word>)
    requires Inv(t) && Unused(t, a) && |words| == t.n
    ensures Inv(Scribbled(t, a, words)) && SameBut(t, Scribbled(t, a, words), a)
    ensures SameDisk(t.disk, Scribbled(t, a, words).disk)
  {
    var u := Scribbled(t, a, words);
    forall x: Word | x != a ensures ReadTable(u.disk, x) == ReadTable(t.disk, x) {}
    forall x | x in u.cache.blocks ensures BlockOk(u, x) { assert BlockOk(t, x); }
    forall x ensures PrivateOk(u, x) { assert PrivateOk(t, x); }
  }

  /** Another order of use. */
  lemma ReorderedOk(t: Tables, c: Cache<Word, Word>)
    requires Inv(t) && CacheOk(c) && c.blocks == t.cache.blocks && |c.order| <= t.capacity
    ensures Inv(t.(cache := c)) && SameTables(t, t.(cache := c))
  {
    var u := t.(cache := c);
    forall x | x in u.cache.blocks ensures BlockOk(u, x) { assert BlockOk(t, x); }
    forall x ensures PrivateOk(u, x) { assert PrivateOk(t, x); }
  }

  /** A new address in the L1 table. */
  function Pointed(t: Tables, i: nat, a: Word): Tables
    requires i < |t.l1|
  {
    t.(l1 := t.l1[i := a], l1Dirty := true)
  }

  lemma PointedOk(t: Tables, i: nat, a: Word)
    requires Inv(t) && i < |t.l1| && a !in t.l1 && Aligned(a)
    ensures Inv(Pointed(t, i, a)) && SameTables(t, Pointed(t, i, a))
  {
    var u := Pointed(t, i, a);
    forall x | x in u.cache.blocks ensures BlockOk(u, x) { assert BlockOk(t, x); }
    forall x ensures PrivateOk(u, x) {
      assert PrivateOk(t, x);
      if Private(t, x) { OnceMore(t.l1, i, a, x); }
    }
  }

  lemma OnceMore(l1: seq<Word>, i: nat, a: Word, x: Word)
    requires i < |l1| && a !in l1 && AtMostOnce(l1, x)
    ensures AtMostOnce(l1[i := a], x)
  {
  }

  /** A clean block may be forgotten. */
  function Dropped(t: Tables, a: Word): Tables {
    t.(cache := Removed(t.cache, a))
  }

  lemma {:induction false} DroppedOk(t: Tables, a: Word)
    requires Inv(t) && a in t.cache.blocks && !t.cache.blocks[a].dirty
    ensures Inv(Dropped(t, a)) && SameTables(t, Dropped(t, a)) && |Dropped(t, a).cache.order| < |t.cache.order|
  {
    var u := Dropped(t, a);
    RemovedOk(t.cache, a);
    WithoutDistinct(t.cache.order, a);
    assert BlockOk(t, a);
    forall x | x in u.cache.blocks ensures BlockOk(u, x) { assert BlockOk(t, x); }
    forall x ensures PrivateOk(u, x) { assert PrivateOk(t, x); }
  }

  /** A block that may enter the cache under `a`. */
  ghost predicate MayEnter(t: Tables, a: Word, b: Block<Word>) {
    && a != 0 && a !in t.cache.blocks && |b.data| == t.n && AlignedAll(b.data)
    && if b.dirty then !OnDisk(t.disk, a) && AtMostOnce(t.l1, a) else ReadTable(t.disk, a) == Some(b.data)
  }

  function Entered(t: Tables, a: Word, b: Block<Word>): Tables {
    t.(cache := Stored(t.cache, a, b))
  }

  lemma EnteredOk(t: Tables, a: Word, b: Block<Word>)
    requires Inv(t) && MayEnter(t, a, b) && |t.cache.order| < t.capacity
    ensures var u := Entered(t, a, b); Inv(u) && SameBut(t, u, a) && TableAt(u, a) == Some(b.data)
  {
    var u := Entered(t, a, b);
    StoredOk(t.cache, a, b);
    forall x | x in u.cache.blocks ensures BlockOk(u, x) {
      if x != a { assert BlockOk(t, x); }
    }
    forall x ensures PrivateOk(u, x) { assert PrivateOk(t, x); }
  }

  // -------------------------------------------------------------------- eviction

  /** How a write to a table's cluster fares: carried out, or failed with `words` now in
      the cluster. */
  datatype Fate = Done | Failed(words: seq<Word>)

  predicate FateOk(n: nat, fate: Fate) {
    fate.Failed? ==> |fate.words| == n
  }

  /** What the cache hands a dirty block to: its address is noted, the block written. */
  function WriteBack(s: (set<Word>, Disk), a: Word, b: Block<Word>, fate: Fate): ((set<Word>, Disk), bool) {
    if fate.Done? then ((s.0 + {a}, WriteTable(s.1, a, b.data)), true)
    else ((s.0 + {a}, PutCluster(s.1, a, fate.words)), false)
  }

  /** The front block has left the cache. */
  function Spilled(t: Tables): Tables
    requires CacheOk(t.cache) && t.cache.order != []
  {
    var a := t.cache.order[0];
    assert a in t.cache.order;
    var u := t.(cache := Evicted(t.cache));
    if t.cache.blocks[a].dirty then
      u.(evicted := t.evicted + {a}, disk := WriteTable(t.disk, a, t.cache.blocks[a].data))
    else u
  }

  lemma {:induction false} SpilledOk(t: Tables)
    requires Inv(t) && t.cache.order != []
    ensures var u := Spilled(t); Inv(u) && SameTables(t, u) && SameDisk(t.disk, u.disk)
    ensures |Spilled(t).cache.order| < t.capacity
    ensures forall x: Word :: x !in t.cache.blocks ==> ReadTable(Spilled(t).disk, x) == ReadTable(t.disk, x)
  {
    var a := t.cache.order[0];
    assert a in t.cache.order;
    EvictedOk(t.cache);
    assert BlockOk(t, a) && PrivateOk(t, a);
    if t.cache.blocks[a].dirty {
      SpilledDirty(t);
    } else {
      DroppedOk(t, a);
    }
  }

  lemma {:induction false} SpilledDirty(t: Tables)
    requires Inv(t) && t.cache.order != [] && t.cache.order[0] in t.cache.blocks
    requires t.cache.blocks[t.cache.order[0]].dirty
    ensures var u := Spilled(t); Inv(u) && SameTables(t, u) && SameDisk(t.disk, u.disk)
    ensures forall x: Word :: x != t.cache.order[0] ==> ReadTable(Spilled(t).disk, x) == ReadTable(t.disk, x)
  {
    var a, u := t.cache.order[0], Spilled(t);
    EvictedOk(t.cache);
    assert BlockOk(t, a) && PrivateOk(t, a);
    forall x: Word ensures x != a ==> ReadTable(u.disk, x) == ReadTable(t.disk, x) {
      ReadWritten(t.disk, a, t.cache.blocks[a].data, x);
    }
    ReadWritten(t.disk, a, t.cache.blocks[a].data, a);
    forall x | x in u.cache.blocks ensures BlockOk(u, x) { assert BlockOk(t, x); }
    forall x ensures PrivateOk(u, x) { assert PrivateOk(t, x); }
  }

  /** A block put into the cache, making room first. */
  function Loaded(t: Tables, a: Word, b: Block<Word>): Tables
    requires CacheOk(t.cache) && t.capacity > 0
  {
    if |t.cache.order| == t.capacity then Entered(Spilled(t), a, b) else Entered(t, a, b)
  }

  /** The eviction that would make room fails. */
  predicate Loses(t: Tables, fate: Fate)
    requires CacheOk(t.cache)
  {
    && fate.Failed? && |t.cache.order| == t.capacity && t.cache.order != []
    && (assert t.cache.order[0] in t.cache.order; t.cache.blocks[t.cache.order[0]].dirty)
  }

  /** The front block is gone from the cache and did not reach the disk. */
  function Lost(t: Tables, words: seq<Word>): Tables
    requires t.cache.order != []
  {
    var a := t.cache.order[0];
    t.(cache := Evicted(t.cache), evicted := t.evicted + {a}, disk := PutCluster(t.disk, a, words))
  }

  function LoadedWith(t: Tables, a: Word, b: Block<Word>, fate: Fate): (Tables, bool)
    requires CacheOk(t.cache) && t.capacity > 0
  {
    if Loses(t, fate) then (Lost(t, fate.words), false) else (Loaded(t, a, b), true)
  }

  /** That is what inserting with `WriteBack` does. */
  lemma {:induction false} LoadedInserts(t: Tables, a: Word, b: Block<Word>, fate: Fate)
    requires CacheOk(t.cache) && t.capacity > 0
    ensures var r := Inserted(t.cache, t.capacity, a, b, (t.evicted, t.disk), (s, k, x) => WriteBack(s, k, x, fate));
      LoadedWith(t, a, b, fate) == (t.(cache := r.0, evicted := r.1.0, disk := r.1.1), r.2)
  {
  }

  /** A failed eviction: the disk's own tables and all others in memory are as before;
      the evicted one is as before exactly when the disk holds it all the same. */
  lemma LostExact(t: Tables, words: seq<Word>)
    requires Inv(t) && Loses(t, Failed(words)) && |words| == t.n
    ensures var u, a := Lost(t, words), t.cache.order[0];
      && Inv(u) && u.l1 == t.l1 && SameDisk(t.disk, u.disk) && SameBut(t, u, a)
      && (TableAt(u, a) == TableAt(t, a) <==> ReadTable(u.disk, a) == Some(t.cache.blocks[a].data))
  {
    var a, u := t.cache.order[0], Lost(t, words);
    assert a in t.cache.order;
    EvictedOk(t.cache);
    assert BlockOk(t, a) && PrivateOk(t, a);
    forall x: Word ensures x != a ==> ReadTable(u.disk, x) == ReadTable(t.disk, x) {}
    forall x | x in u.cache.blocks ensures BlockOk(u, x) { assert BlockOk(t, x); }
    forall x ensures PrivateOk(u, x) { assert PrivateOk(t, x); }
  }

  lemma {:induction false} LoadedOk(t: Tables, a: Word, b: Block<Word>)
    requires Inv(t) && MayEnter(t, a, b)
    ensures var u := Loaded(t, a, b);
      && Inv(u) && SameBut(t, u, a) && TableAt(u, a) == Some(b.data) && SameDisk(t.disk, u.disk)
      && a in u.cache.blocks && u.cache.blocks[a] == b
  {
    if |t.cache.order| == t.capacity {
      SpilledOk(t);
      EnteredOk(Spilled(t), a, b);
    } else {
      EnteredOk(t, a, b);
    }
  }

  // ------------------------------------------------------------------ operations

  /** readClusterAddress: entry `j` of table `i`. */
  function Find(t: Tables, i: nat, j: nat): (Tables, Lookup)
    requires CacheOk(t.cache) && t.capacity > 0 && i < |t.l1|
  {
    var a := t.l1[i];
    if a == 0 then (t, NoTable)
    else
      var table := ReadTable(t.disk, a);
      if a !in t.cache.blocks && table.None? then (t, Unreadable)
      else
        var u := if a in t.cache.blocks then t else Loaded(t, a, Block(table.value, false));
        (u.(cache := Used(u.cache, a)), EntryOf(TableAt(u, a), j))
  }

  /** A read returns what memory translates to, and changes no translation. */
  lemma {:induction false} FindOk(t: Tables, i: nat, j: nat)
    requires Inv(t) && i < |t.l1|
    ensures var (u, r) := Find(t, i, j);
      && Inv(u) && r == MemLookup(t, i, j) && SameTables(t, u) && SameDisk(t.disk, u.disk)
      && u.l1 == t.l1 && (r.At? ==> t.l1[i] in u.cache.blocks)
  {
    var a := t.l1[i];
    var table := ReadTable(t.disk, a);
    if a != 0 && (a in t.cache.blocks || table.Some?) {
      var u := t;
      if a !in t.cache.blocks {
        ReadAligned(t.disk, a);
        LoadedOk(t, a, Block(table.value, false));
        u := Loaded(t, a, Block(table.value, false));
      }
      UsedOk(u.cache, a);
      ReorderedOk(u, Used(u.cache, a));
    }
  }

  /** The read has to bring its table into the cache. */
  predicate Misses(t: Tables, i: nat)
    requires i < |t.l1|
  {
    t.l1[i] != 0 && t.l1[i] !in t.cache.blocks && ReadTable(t.disk, t.l1[i]).Some?
  }

  /** The same when writing back may fail. */
  function FindWith(t: Tables, i: nat, j: nat, fate: Fate): (Tables, Lookup)
    requires CacheOk(t.cache) && t.capacity > 0 && i < |t.l1|
  {
    if Misses(t, i) && Loses(t, fate) then (Lost(t, fate.words), WriteFailed) else Find(t, i, j)
  }

  /** The ways a lookup can go, one by one. */
  lemma {:induction false} FindCases(t: Tables, i: nat, j: nat, fate: Fate)
    requires CacheOk(t.cache) && t.capacity > 0 && i < |t.l1|
    ensures var a, table := t.l1[i], ReadTable(t.disk, t.l1[i]);
      FindWith(t, i, j, fate) ==
        if a == 0 then (t, NoTable)
        else if a in t.cache.blocks then (t.(cache := Used(t.cache, a)), EntryOf(Some(t.cache.blocks[a].data), j))
        else if table.None? then (t, Unreadable)
        else if Loses(t, fate) then (Lost(t, fate.words), WriteFailed)
        else
          var u := Loaded(t, a, Block(table.value, false));
          (u.(cache := Used(u.cache, a)), EntryOf(Some(table.value), j))
  {
    if ReadTable(t.disk, t.l1[i]).Some? { FoundInCache(t, t.l1[i], ReadTable(t.disk, t.l1[i]).value); }
  }

  lemma {:induction false} FoundInCache(t: Tables, a: Word, data: seq<Word>)
    requires CacheOk(t.cache) && t.capacity > 0
    ensures var u := Loaded(t, a, Block(data, false)); a in u.cache.blocks && u.cache.blocks[a].data == data
  {
  }

  /** addNewPointerCluster: an empty table at `a`. */
  function Added(t: Tables, i: nat, a: Word): Tables
    requires CacheOk(t.cache) && t.capacity > 0 && i < |t.l1|
  {
    Loaded(Pointed(t, i, a), a, Block(Zeroes(t.n), true))
  }

  lemma {:induction false} AddedOk(t: Tables, i: nat, a: Word)
    requires Inv(t) && i < |t.l1| && Allocatable(t, a)
    ensures var u := Added(t, i, a);
      && Inv(u) && u.l1 == t.l1[i := a] && SameBut(t, u, a) && TableAt(u, a) == Some(Zeroes(t.n))
      && SameDisk(t.disk, u.disk) && a in u.cache.blocks
  {
    PointedOk(t, i, a);
    LoadedOk(Pointed(t, i, a), a, Block(Zeroes(t.n), true));
  }

  /** The same when writing back may fail: the L1 table names `a` already. */
  function AddedWith(t: Tables, i: nat, a: Word, fate: Fate): (Tables, bool)
    requires CacheOk(t.cache) && t.capacity > 0 && i < |t.l1|
  {
    LoadedWith(Pointed(t, i, a), a, Block(Zeroes(t.n), true), fate)
  }

  lemma AddedLost(t: Tables, i: nat, a: Word, words: seq<Word>)
    requires Inv(t) && i < |t.l1| && Allocatable(t, a) && Loses(t, Failed(words)) && |words| == t.n
    ensures var u := Lost(Pointed(t, i, a), words);
      Inv(u) && u.l1 == t.l1[i := a] && SameDisk(t.disk, u.disk) && SameBut(t, u, t.cache.order[0])
  {
    PointedOk(t, i, a);
    LostExact(Pointed(t, i, a), words);
  }

  /** The table is the disk's own and has to be copied to be changed. */
  predicate MustCopy(t: Tables, a: Word) {
    a in t.cache.blocks && !Private(t, a)
  }

  /** updateClusterAddress: entry `j` of table `i`, which is cached, becomes `w`; a copy
      of the table goes to `a`. */
  function Updated(t: Tables, i: nat, j: nat, w: Word, a: Word): Tables
    requires Inv(t) && i < |t.l1| && t.l1[i] in t.cache.blocks && j < t.n
  {
    assert BlockOk(t, t.l1[i]);
    Changed(t, i, Block(t.cache.blocks[t.l1[i]].data[j := w], true), a)
  }

  /** Table `i` becomes `b`. */
  function Changed(t: Tables, i: nat, b: Block<Word>, a: Word): Tables
    requires i < |t.l1|
  {
    var u := t.(cache := Used(t.cache, t.l1[i]));
    if MustCopy(t, t.l1[i]) then Moved(u, i, a, b) else Overwritten(u, t.l1[i], b)
  }

  /** The block `b` takes the place of table `i`, at the new address `a`. */
  function Moved(t: Tables, i: nat, a: Word, b: Block<Word>): Tables
    requires i < |t.l1|
  {
    Entered(Dropped(Pointed(Scribbled(t, a, Zeroes(t.n)), i, a), t.l1[i]), a, b)
  }

  function Overwritten(t: Tables, x: Word, b: Block<Word>): Tables {
    t.(cache := t.cache.(blocks := t.cache.blocks[x := b]))
  }

  /** The same with an allocator that may have no cluster for the copy: then the table has
      only been used. */
  function TriedUpdate(t: Tables, i: nat, b: Block<Word>, copy: Option<Word>): (Tables, bool)
    requires i < |t.l1|
  {
    if MustCopy(t, t.l1[i]) && copy.None? then (t.(cache := Used(t.cache, t.l1[i])), false)
    else (Changed(t, i, b, if copy.Some? then copy.value else 0), true)
  }

  /** The same with table `i` just used, and the address of a table that was left. */
  function UsedUpdate(u: Tables, i: nat, b: Block<Word>, copy: Option<Word>): (Tables, bool, Option<Word>)
    requires i < |u.l1|
  {
    if Private(u, u.l1[i]) then (Overwritten(u, u.l1[i], b), true, None)
    else if copy.None? then (u, false, None)
    else (Moved(u, i, copy.value, b), true, Some(u.l1[i]))
  }

  /** Being used makes no difference to which of the three it is. */
  lemma {:induction false} TriedCases(t: Tables, i: nat, b: Block<Word>, copy: Option<Word>)
    requires i < |t.l1| && t.l1[i] in t.cache.blocks
    ensures UsedUpdate(t.(cache := Used(t.cache, t.l1[i])), i, b, copy)
         == var (u, ok) := TriedUpdate(t, i, b, copy); (u, ok, if ok && MustCopy(t, t.l1[i]) then Some(t.l1[i]) else None)
  {
  }

  lemma UpdatedCopies(t: Tables, i: nat, j: nat, w: Word, a: Word)
    requires Inv(t) && i < |t.l1| && t.l1[i] in t.cache.blocks && j < t.n && Aligned(w)
    requires |t.cache.blocks[t.l1[i]].data| == t.n && MustCopy(t, t.l1[i]) && Allocatable(t, a)
    ensures var u := Updated(t, i, j, w, a);
      && Inv(u) && u.l1 == t.l1[i := a] && SameBut(t, u, a) && SameDisk(t.disk, u.disk)
      && TableAt(u, a) == Some(t.cache.blocks[t.l1[i]].data[j := w])
  {
    var x := t.l1[i];
    assert BlockOk(t, x);
    UsedOk(t.cache, x);
    var u := t.(cache := Used(t.cache, x));
    ReorderedOk(t, Used(t.cache, x));
    var v := Scribbled(u, a, Zeroes(t.n));
    ScribbledOk(u, a, Zeroes(t.n));
    var p := Pointed(v, i, a);
    PointedOk(v, i, a);
    DroppedOk(p, x);
    assert AtMostOnce(p.l1, a);
    EnteredOk(Dropped(p, x), a, Block(t.cache.blocks[x].data[j := w], true));
  }

  lemma UpdatedInPlace(t: Tables, i: nat, j: nat, w: Word, a: Word)
    requires Inv(t) && i < |t.l1| && t.l1[i] in t.cache.blocks && j < t.n && Aligned(w)
    requires |t.cache.blocks[t.l1[i]].data| == t.n && !MustCopy(t, t.l1[i])
    ensures var u := Updated(t, i, j, w, a);
      && Inv(u) && u.l1 == t.l1 && SameBut(t, u, t.l1[i]) && u.disk == t.disk
      && TableAt(u, t.l1[i]) == Some(t.cache.blocks[t.l1[i]].data[j := w])
      && AtMostOnce(t.l1, t.l1[i])
  {
    var x, u := t.l1[i], Updated(t, i, j, w, a);
    assert BlockOk(t, x) && PrivateOk(t, x);
    UsedOk(t.cache, x);
    forall y | y in u.cache.blocks ensures BlockOk(u, y) { assert BlockOk(t, y); }
    forall y ensures PrivateOk(u, y) { assert PrivateOk(t, y); }
  }

  /** A changed table is in step again, and so is one that was only looked at because no
      cluster could be had for its copy. */
  lemma UpdatedOk(t: Tables, i: nat, j: nat, w: Word, a: Word)
    requires Inv(t) && i < |t.l1| && t.l1[i] in t.cache.blocks && j < t.n && Aligned(w)
    ensures |t.cache.blocks[t.l1[i]].data| == t.n
    ensures Inv(t.(cache := Used(t.cache, t.l1[i])))
    ensures (MustCopy(t, t.l1[i]) ==> Allocatable(t, a)) ==> Inv(Updated(t, i, j, w, a))
  {
    assert BlockOk(t, t.l1[i]);
    UsedOk(t.cache, t.l1[i]);
    ReorderedOk(t, Used(t.cache, t.l1[i]));
    if !MustCopy(t, t.l1[i]) {
      UpdatedInPlace(t, i, j, w, a);
    } else if Allocatable(t, a) {
      UpdatedCopies(t, i, j, w, a);
    }
  }

  /** sync, one table: a dirty block is written and marked clean. */
  function SyncedOne(t: Tables, a: Word): Tables
    requires a in t.cache.blocks
  {
    var b := t.cache.blocks[a];
    if !b.dirty then t
    else t.(cache := t.cache.(blocks := t.cache.blocks[a := b.(dirty := false)]), disk := WriteTable(t.disk, a, b.data))
  }

  lemma {:induction false} SyncedOneOk(t: Tables, a: Word)
    requires Inv(t) && a in t.cache.blocks
    ensures var u := SyncedOne(t, a); Inv(u) && SameTables(t, u) && SameDisk(t.disk, u.disk) && u.l1 == t.l1
  {
    var b, u := t.cache.blocks[a], SyncedOne(t, a);
    assert BlockOk(t, a) && PrivateOk(t, a);
    if b.dirty {
      ReadWritten(t.disk, a, b.data, a);
      forall x: Word ensures x != a ==> ReadTable(u.disk, x) == ReadTable(t.disk, x) {
        ReadWritten(t.disk, a, b.data, x);
      }
      forall x | x in u.cache.blocks ensures BlockOk(u, x) { assert BlockOk(t, x); }
      forall x ensures PrivateOk(u, x) { assert PrivateOk(t, x); }
    }
  }

  /** A failed write of a cached table leaves it dirty. */
  function SyncedWith(t: Tables, a: Word, fate: Fate): Tables
    requires a in t.cache.blocks
  {
    if t.cache.blocks[a].dirty && fate.Failed? then t.(disk := PutCluster(t.disk, a, fate.words)) else SyncedOne(t, a)
  }

  lemma {:induction false} SyncedWithOk(t: Tables, a: Word, fate: Fate)
    requires Inv(t) && a in t.cache.blocks && FateOk(t.n, fate)
    ensures var u := SyncedWith(t, a, fate); Inv(u) && SameTables(t, u) && SameDisk(t.disk, u.disk) && u.l1 == t.l1
  {
    SyncedOneOk(t, a);
    if t.cache.blocks[a].dirty && fate.Failed? {
      var u := SyncedWith(t, a, fate);
      assert BlockOk(t, a) && PrivateOk(t, a);
      forall x: Word ensures x != a ==> ReadTable(u.disk, x) == ReadTable(t.disk, x) {}
      forall x | x in u.cache.blocks ensures BlockOk(u, x) { assert BlockOk(t, x); }
      forall x ensures PrivateOk(u, x) { assert PrivateOk(t, x); }
    }
  }

  predicate AllClean(t: Tables) {
    forall a :: a in t.cache.blocks ==> !t.cache.blocks[a].dirty
  }

  /** sync: one table after the other. */
  ghost function SyncedAll(t: Tables, order: seq<Word>, fates: Word -> Fate): (u: Tables)
    requires forall a :: a in order ==> a in t.cache.blocks
    ensures u.cache.blocks.Keys == t.cache.blocks.Keys
  {
    if order == [] then t
    else SyncedWith(SyncedAll(t, order[..|order| - 1], fates), order[|order| - 1], fates(order[|order| - 1]))
  }

  lemma {:induction false} SyncedNext(t: Tables, order: seq<Word>, fates: Word -> Fate, a: Word)
    requires (forall x :: x in order ==> x in t.cache.blocks) && a in t.cache.blocks
    ensures SyncedAll(t, order + [a], fates) == SyncedWith(SyncedAll(t, order, fates), a, fates(a))
  {
    assert (order + [a])[..|order + [a]| - 1] == order;
  }

  /** Every table is clean, but for those in `todo`. */
  ghost predicate CleanBut(t: Tables, todo: set<Word>) {
    forall a :: a in t.cache.blocks && a !in todo ==> !t.cache.blocks[a].dirty
  }

  /** No write of a dirty table fails, those in `todo` aside. */
  ghost predicate AllWritten(t: Tables, fates: Word -> Fate, todo: set<Word>) {
    forall a :: a in t.cache.blocks && a !in todo && t.cache.blocks[a].dirty ==> fates(a).Done?
  }

  /** The tables outside `todo` are written, those in it as they were. */
  ghost predicate Sweeping(t: Tables, u: Tables, fates: Word -> Fate, todo: set<Word>) {
    && u.cache.blocks.Keys == t.cache.blocks.Keys && CleanBut(u, todo) && AllWritten(t, fates, todo)
    && forall a :: a in todo && a in t.cache.blocks ==> u.cache.blocks[a] == t.cache.blocks[a]
  }

  lemma {:induction false} SweepOne(t: Tables, u: Tables, fates: Word -> Fate, todo: set<Word>, a: Word)
    requires Sweeping(t, u, fates, todo) && a in todo && a in t.cache.blocks
    ensures if u.cache.blocks[a].dirty && fates(a).Failed? then !AllWritten(t, fates, {})
            else Sweeping(t, SyncedWith(u, a, fates(a)), fates, todo - {a})
  {
    if u.cache.blocks[a].dirty && fates(a).Failed? { assert a !in {}; }
  }

  /** `u` is `t` with tables written: nothing reads differently, in memory or on disk. */
  ghost predicate Swept(t: Tables, u: Tables) {
    && u == t.(cache := t.cache.(blocks := u.cache.blocks), disk := u.disk)
    && SameTables(t, u) && SameDisk(t.disk, u.disk)
  }

  lemma {:induction false} SyncedAllOk(t: Tables, order: seq<Word>, fates: Word -> Fate)
    requires Inv(t) && (forall a :: a in order ==> a in t.cache.blocks) && forall a :: FateOk(t.n, fates(a))
    ensures Inv(SyncedAll(t, order, fates)) && Swept(t, SyncedAll(t, order, fates))
  {
    if order != [] {
      var front, a := order[..|order| - 1], order[|order| - 1];
      SyncedAllOk(t, front, fates);
      SweptMore(t, SyncedAll(t, front, fates), a, fates(a));
    }
  }

  lemma {:induction false} SweptMore(t: Tables, u: Tables, a: Word, fate: Fate)
    requires Swept(t, u) && Inv(u) && a in u.cache.blocks && FateOk(u.n, fate)
    ensures Inv(SyncedWith(u, a, fate)) && Swept(t, SyncedWith(u, a, fate))
  {
    var v := SyncedWith(u, a, fate);
    SyncedWithOk(u, a, fate);
    forall x: Word ensures TableAt(v, x) == TableAt(t, x) {
      assert TableAt(u, x) == TableAt(t, x);
    }
    forall x: Word | OnDisk(t.disk, x) ensures ClusterAt(v.disk, x) == ClusterAt(t.disk, x) {
      assert OnDisk(u.disk, x) && ClusterAt(u.disk, x) == ClusterAt(t.disk, x);
    }
  }

  /** syncL1: the L1 table is written if it has changed. */
  function SyncedL1(t: Tables): Tables {
    if t.l1Dirty then t.(disk := t.disk.(l1 := t.l1), evicted := {}, l1Dirty := false) else t
  }

  /** With every L2 table written, writing the L1 table makes the disk translate as
      memory does. */
  lemma SyncedL1Ok(t: Tables)
    requires Inv(t) && AllClean(t)
    ensures var u := SyncedL1(t); Inv(u) && SameTables(t, u) && u.l1 == t.l1
    ensures forall i, j: nat :: 0 <= i < |t.l1| ==> DiskLookup(SyncedL1(t).disk, i, j) == MemLookup(t, i, j)
  {
    var u := SyncedL1(t);
    assert Masked(t.l1) == t.l1 by { AlignedMasked(t.l1); }
    forall x: Word ensures ReadTable(u.disk, x) == ReadTable(t.disk, x) {}
    forall x | x in u.cache.blocks ensures BlockOk(u, x) { assert BlockOk(t, x); }
    forall x ensures PrivateOk(u, x) { assert PrivateOk(t, x); }
    forall i, j: nat | 0 <= i < |t.l1| ensures DiskLookup(u.disk, i, j) == MemLookup(t, i, j) {
      assert Offset(u.disk.l1[i]) == t.l1[i];
      if t.l1[i] in t.cache.blocks { assert BlockOk(t, t.l1[i]); }
    }
  }

  /** Written while some table is dirty, the L1 table may come to lead to one that is not
      on disk yet: the invariant is kept exactly when no dirty table is in it. */
  lemma SyncL1Exact(t: Tables)
    requires Inv(t)
    ensures Inv(SyncedL1(t)) <==>
      (t.l1Dirty ==> forall a :: a in t.cache.blocks && t.cache.blocks[a].dirty ==> a !in t.l1)
  {
    var u := SyncedL1(t);
    if t.l1Dirty {
      AlignedMasked(t.l1);
      forall x: Word ensures ReadTable(u.disk, x) == ReadTable(t.disk, x) {}
      forall x ensures OnDisk(u.disk, x) <==> x in t.l1 {
        assert forall i :: 0 <= i < |t.l1| ==> Offset(u.disk.l1[i]) == Masked(t.l1)[i];
      }
      forall x | x in u.cache.blocks ensures BlockOk(u, x) { assert BlockOk(t, x); }
      if forall a :: a in t.cache.blocks && t.cache.blocks[a].dirty ==> a !in t.l1 {
        forall x ensures PrivateOk(u, x) {}
      } else {
        var a :| a in t.cache.blocks && t.cache.blocks[a].dirty && a in t.l1;
        assert !PrivateOk(u, a);
      }
    }
  }

  /** syncL1 when the write fails after the first `m` words. */
  function FailedL1(t: Tables, m: nat): Tables
    requires m <= |t.l1| == |t.disk.l1|
  {
    if t.l1Dirty then t.(disk := t.disk.(l1 := t.l1[..m] + t.disk.l1[m..])) else t
  }

  lemma FailedOnDisk(t: Tables, m: nat, x: Word)
    requires Inv(t) && m <= |t.l1| && t.l1Dirty
    ensures OnDisk(FailedL1(t, m).disk, x) ==> x in t.l1[..m] || OnDisk(t.disk, x)
    ensures x in t.l1[..m] ==> OnDisk(FailedL1(t, m).disk, x)
  {
    var d := FailedL1(t, m).disk;
    forall i | 0 <= i < m ensures Offset(d.l1[i]) == t.l1[..m][i] {
      AlignedMasked(t.l1);
      assert Masked(t.l1)[i] == t.l1[i];
    }
    forall i | m <= i < |d.l1| ensures d.l1[i] == t.disk.l1[i] {}
  }

  /** The evicted tables stay marked, so the invariant is kept exactly when none of the
      words names a table that may be written in place. */
  lemma FailedL1Exact(t: Tables, m: nat)
    requires Inv(t) && m <= |t.l1|
    ensures Inv(FailedL1(t, m)) <==> (t.l1Dirty ==> forall a :: a in t.l1[..m] ==> !Private(t, a))
  {
    var u := FailedL1(t, m);
    if t.l1Dirty {
      forall x: Word ensures ReadTable(u.disk, x) == ReadTable(t.disk, x) {}
      forall x | x in u.cache.blocks ensures BlockOk(u, x) { assert BlockOk(t, x); }
      if forall a :: a in t.l1[..m] ==> !Private(t, a) {
        forall x ensures PrivateOk(u, x) {
          assert PrivateOk(t, x);
          FailedOnDisk(t, m, x);
        }
      } else {
        var a :| a in t.l1[..m] && Private(t, a);
        FailedOnDisk(t, m, a);
        assert !PrivateOk(u, a);
      }
    }
  }

  lemma {:induction false} AlignedMasked(t: seq<Word>)
    requires AlignedAll(t)
    ensures Masked(t) == t
  {
  }
}
