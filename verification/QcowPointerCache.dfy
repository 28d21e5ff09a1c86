/** The write-back pointer table as it is built, over the block cache, and the callers
    that drive it. Each method is tied to its function on values. */
module QcowPointerCache {
  import opened Common
  import opened QcowLru
  import opened QcowBlockCache
  import opened QcowTables
  import opened QcowWriteBack
  import opened QcowRuns

  /** readPointerTable with the offset mask. */
  method ReadPointerTable(words: seq<Word>) returns (table: seq<Word>)
    ensures table == Masked(words)
  {
    table := [];
    for k := 0 to |words|
      invariant |table| == k && forall j :: 0 <= j < k ==> table[j] == Offset(words[j])
    {
      table := table + [Offset(words[k])];
    }
  }

  /** writePointerTable with the flag of clusters in use. */
  method WritePointerTable(table: seq<Word>) returns (words: seq<Word>)
    ensures words == Written(table)
  {
    words := [];
    for k := 0 to |table|
      invariant |words| == k && forall j :: 0 <= j < k ==> words[j] == Flagged(table[j])
    {
      words := words + [Flagged(table[k])];
    }
  }

  /** readL2Cluster: refuses a table with a compressed cluster. */
  method ReadL2Cluster(d: Disk, a: Word) returns (table: Option<seq<Word>>)
    ensures table == ReadTable(d, a)
  {
    if a !in d.clusters { return None; }
    var words, masked := d.clusters[a], [];
    for k := 0 to |words|
      invariant |masked| == k && forall j :: 0 <= j < k ==> !IsCompressed(words[j]) && masked[j] == Offset(words[j])
    {
      if IsCompressed(words[k]) { return None; }
      masked := masked + [Offset(words[k])];
    }
    assert masked == Masked(words);
    return Some(masked);
  }

  datatype Fetched = Done | Unreadable | Full

  class PointerCache {
    const clusterSize: nat
    const n: nat
    const virtualSize: nat
    const cache: BlockCache<Word, Word>
    var l1: seq<Word>
    var l1Dirty: bool
    var evicted: set<Word>
    var disk: Disk

    ghost function State(): Tables
      reads this, cache
    {
      Tables(n, cache.capacity, l1, l1Dirty, cache.now, evicted, disk)
    }

    ghost predicate Valid()
      reads this, cache, cache.queue, cache.queue.Repr
    {
      Built() && clusterSize > 0 && Inv(State())
    }

    /** The cache is in order, whatever the tables hold. */
    ghost predicate Built()
      reads this, cache, cache.queue, cache.queue.Repr
    {
      cache.Valid() && this !in cache.queue.Repr
    }

    constructor (d: Disk, size: nat, entries: nat, guestSize: nat, capacity: nat)
      requires Sized(d, entries) && size > 0 && entries > 0 && capacity > 0
      ensures Valid() && State() == Opened(d, entries, capacity) && clusterSize == size && virtualSize == guestSize
      ensures fresh(cache) && fresh(cache.queue.Repr)
    {
      OpenedInv(d, entries, capacity);
      clusterSize, n, virtualSize, disk := size, entries, guestSize, d;
      var table := ReadPointerTable(d.l1);
      l1, l1Dirty, evicted := table, false, {};
      cache := new BlockCache<Word, Word>(capacity);
    }

    predicate Covered(v: nat)
      requires Valid()
      reads this, cache, cache.queue, cache.queue.Repr
    {
      L1Index(clusterSize, n, v) < |l1|
    }

    /** Inserts a block, writing back what has to leave; `fate` is how that fares. */
    method Load(a: Word, b: Block<Word>, fate: Fate) returns (ok: bool)
      requires Built() && cache.capacity > 0
      modifies this, cache, cache.queue.Repr
      ensures Built() && fresh(cache.queue.Repr - old(cache.queue.Repr))
      ensures (State(), ok) == LoadedWith(old(State()), a, b, fate)
    {
      LoadedInserts(State(), a, b, fate);
      var s;
      s, ok := cache.Insert(a, b, (evicted, disk), (s, k, x) => WriteBack(s, k, x, fate));
      evicted, disk := s.0, s.1;
    }

    method ReadClusterAddress(v: nat, fate: Fate) returns (r: Lookup)
      requires Valid() && Covered(v) && FateOk(n, fate)
      modifies this, cache, cache.queue.Repr
      ensures Valid() && fresh(cache.queue.Repr - old(cache.queue.Repr))
      ensures (State(), r) == FindWith(old(State()), L1Index(clusterSize, n, v), L2Index(clusterSize, n, v), fate)
    {
      var i, j := L1Index(clusterSize, n, v), L2Index(clusterSize, n, v);
      ReadKeeps(State(), i, j, fate);
      r := FindEntry(i, j, fate);
    }

    method FindEntry(i: nat, j: nat, fate: Fate) returns (r: Lookup)
      requires Built() && cache.capacity > 0 && i < |l1|
      modifies this, cache, cache.queue.Repr
      ensures Built() && fresh(cache.queue.Repr - old(cache.queue.Repr))
      ensures (State(), r) == FindWith(old(State()), i, j, fate)
    {
      FindCases(State(), i, j, fate);
      var a := l1[i];
      r := NoTable;
      if a != 0 {
        var f := Fetch(a, fate);
        r := if f.Unreadable? then Lookup.Unreadable else WriteFailed;
        if f.Done? {
          var b := cache.Get(a);
          r := EntryOf(Some(b.value.data), j);
        }
      }
    }

    /** Brings the table at `a` into the cache unless it is there. */
    method Fetch(a: Word, fate: Fate) returns (f: Fetched)
      requires Built() && cache.capacity > 0
      modifies this, cache, cache.queue.Repr
      ensures Built() && fresh(cache.queue.Repr - old(cache.queue.Repr))
      ensures var t, table := old(State()), ReadTable(old(disk), a);
        if a in t.cache.blocks then f == Fetched.Done && State() == t
        else if table.None? then f == Fetched.Unreadable && State() == t
        else
          && State() == LoadedWith(t, a, Block(table.value, false), fate).0
          && f == if Loses(t, fate) then Fetched.Full else Fetched.Done
      ensures f.Done? ==> a in cache.now.blocks
    {
      if cache.ContainsKey(a) { return Fetched.Done; }
      var table := ReadL2Cluster(disk, a);
      if table.None? { return Fetched.Unreadable; }
      FoundInCache(State(), a, table.value);
      var ok := Load(a, Block(table.value, false), fate);
      return if ok then Fetched.Done else Fetched.Full;
    }

    /** `a` has just been allocated. */
    method AddNewPointerCluster(v: nat, a: Word, fate: Fate) returns (ok: bool)
      requires Valid() && Covered(v) && Allocatable(State(), a) && FateOk(n, fate)
      modifies this, cache, cache.queue.Repr
      ensures Valid() && fresh(cache.queue.Repr - old(cache.queue.Repr))
      ensures (State(), ok) == AddedWith(old(State()), L1Index(clusterSize, n, v), a, fate)
    {
      AddKeeps(State(), L1Index(clusterSize, n, v), a, fate);
      ok := AddTable(L1Index(clusterSize, n, v), a, fate);
    }

    method AddTable(i: nat, a: Word, fate: Fate) returns (ok: bool)
      requires Built() && cache.capacity > 0 && i < |l1|
      modifies this, cache, cache.queue.Repr
      ensures Built() && fresh(cache.queue.Repr - old(cache.queue.Repr))
      ensures (State(), ok) == AddedWith(old(State()), i, a, fate)
    {
      l1 := l1[i := a];
      l1Dirty := true;
      ok := Load(a, Block(Zeroes(n), true), fate);
    }

    /** `copy` is what the allocator gives if it is asked, None when it fails. */
    method UpdateClusterAddress(v: nat, w: Word, copy: Option<Word>) returns (ok: bool, freed: Option<Word>)
      requires Valid() && Covered(v) && Aligned(w) && l1[L1Index(clusterSize, n, v)] in State().cache.blocks
      requires copy.Some? && MustCopy(State(), l1[L1Index(clusterSize, n, v)]) ==> Allocatable(State(), copy.value)
      modifies this, cache, cache.queue.Repr
      ensures Valid() && fresh(cache.queue.Repr - old(cache.queue.Repr))
      ensures var i, t := L1Index(clusterSize, n, v), old(State());
        && ok == (MustCopy(t, t.l1[i]) ==> copy.Some?)
        && freed == (if ok && MustCopy(t, t.l1[i]) then Some(t.l1[i]) else None)
        && State() == if ok then Updated(t, i, L2Index(clusterSize, n, v), w, if copy.Some? then copy.value else 0)
                      else t.(cache := Used(t.cache, t.l1[i]))
    {
      var i, j := L1Index(clusterSize, n, v), L2Index(clusterSize, n, v);
      UpdatedOk(State(), i, j, w, if copy.Some? then copy.value else 0);
      ok, freed := ChangeEntry(i, j, w, copy);
    }

    method ChangeEntry(i: nat, j: nat, w: Word, copy: Option<Word>) returns (ok: bool, freed: Option<Word>)
      requires Built() && i < |l1| && l1[i] in cache.now.blocks && j < |cache.now.blocks[l1[i]].data|
      modifies this, cache, cache.queue.Repr
      ensures Built() && fresh(cache.queue.Repr - old(cache.queue.Repr))
      ensures var t := old(State());
        && (State(), ok) == TriedUpdate(t, i, Block(t.cache.blocks[t.l1[i]].data[j := w], true), copy)
        && freed == if ok && MustCopy(t, t.l1[i]) then Some(t.l1[i]) else None
    {
      ghost var t := State();
      var b := cache.Get(l1[i]);
      ok, freed := ChangeUsed(i, b.value.(data := b.value.data[j := w]), copy);
      TriedCases(t, i, b.value.(data := b.value.data[j := w], dirty := true), copy);
    }

    /** The same, the table having been fetched from the cache as `b`. */
    method ChangeUsed(i: nat, b: Block<Word>, copy: Option<Word>) returns (ok: bool, freed: Option<Word>)
      requires Built() && i < |l1| && l1[i] in cache.now.blocks && cache.now.blocks[l1[i]].dirty == b.dirty
      modifies this, cache, cache.queue.Repr
      ensures Built() && fresh(cache.queue.Repr - old(cache.queue.Repr))
      ensures (State(), ok, freed) == UsedUpdate(old(State()), i, b.(dirty := true), copy)
    {
      var x := l1[i];
      if b.dirty || x in evicted {
        cache.Replace(x, b.(dirty := true));
        return true, None;
      }
      if copy.None? { return false, None; }
      Move(i, copy.value, b.(dirty := true));
      return true, Some(x);
    }

    /** Copy on write: the table gets the cluster `a`, which the allocator has zeroed. */
    method Move(i: nat, a: Word, b: Block<Word>)
      requires Built() && i < |l1|
      modifies this, cache, cache.queue.Repr
      ensures Built() && fresh(cache.queue.Repr - old(cache.queue.Repr))
      ensures State() == Moved(old(State()), i, a, b)
    {
      var x := l1[i];
      disk := PutCluster(disk, a, Zeroes(n));
      l1, l1Dirty := l1[i := a], true;
      SwapKey(x, a, b);
    }

    method SwapKey(x: Word, a: Word, b: Block<Word>)
      requires Built()
      modifies cache, cache.queue.Repr
      ensures Built() && fresh(cache.queue.Repr - old(cache.queue.Repr))
      ensures State() == Entered(Dropped(old(State()), x), a, b)
    {
      cache.Remove(x);
      cache.Set(a, b);
    }

    /** sync: writes the dirty tables, in any order, until one of the writes fails. At no
        point is anything touched that the L1 table on disk leads to. */
    method Sync(fates: Word -> Fate) returns (ok: bool)
      requires Valid() && forall a :: FateOk(n, fates(a))
      modifies this`disk, cache`store, cache`now
      ensures Valid() && Swept(old(State()), State()) && (ok ==> AllClean(State()))
      ensures ok <==> AllWritten(old(State()), fates, {})
    {
      ghost var order;
      ghost var t := State();
      ok, order := SyncTables(fates);
      SyncedAllOk(t, order, fates);
    }

    method SyncTables(fates: Word -> Fate) returns (ok: bool, ghost order: seq<Word>)
      requires Built()
      modifies this`disk, cache`store, cache`now
      ensures Built() && (forall a :: a in order ==> a in old(cache.now).blocks)
      ensures State() == SyncedAll(old(State()), order, fates) && (ok ==> AllClean(State()))
      ensures ok <==> AllWritten(old(State()), fates, {})
    {
      ghost var t := State();
      var todo := cache.Keys();
      order := [];
      while todo != {}
        invariant Built() && (forall a :: a in order ==> a in t.cache.blocks) && State() == SyncedAll(t, order, fates)
        invariant todo <= t.cache.blocks.Keys && Sweeping(t, State(), fates, todo)
        decreases todo
      {
        var a :| a in todo;
        ok := SyncNext(a, fates, t, order, todo);
        order := order + [a];
        if !ok { return false, order; }
        todo := todo - {a};
      }
      return true, order;
    }

    /** One turn of it. */
    method SyncNext(a: Word, fates: Word -> Fate, ghost t: Tables, ghost order: seq<Word>, ghost todo: set<Word>)
      returns (ok: bool)
      requires Built() && a in t.cache.blocks && (forall x :: x in order ==> x in t.cache.blocks)
      requires State() == SyncedAll(t, order, fates) && Sweeping(t, State(), fates, todo) && a in todo
      modifies this`disk, cache`store, cache`now
      ensures Built() && State() == SyncedAll(t, order + [a], fates)
      ensures if ok then Sweeping(t, State(), fates, todo - {a}) else !AllWritten(t, fates, {})
    {
      SyncedNext(t, order, fates, a);
      ghost var u := State();
      ok := SyncTable(a, fates(a));
      SweepOne(t, u, fates, todo, a);
    }

    method SyncTable(a: Word, fate: Fate) returns (ok: bool)
      requires Built() && a in cache.now.blocks
      modifies this`disk, cache`store, cache`now
      ensures Built() && State() == SyncedWith(old(State()), a, fate)
      ensures ok == !(old(State()).cache.blocks[a].dirty && fate.Failed?)
    {
      var b := cache.Peek(a);
      ok := true;
      if b.dirty {
        if fate.Failed? {
          disk := PutCluster(disk, a, fate.words);
          ok := false;
        } else {
          var words := WritePointerTable(b.data);
          disk := PutCluster(disk, a, words);
          cache.Replace(a, b.(dirty := false));
        }
      }
    }

    /** syncL1, whose write fails after some words if `fails` says so. The tables stay in
        order exactly when no dirty one is in an L1 table that is written, and none that may
        be written in place among the words of one that is not. */
    method SyncL1(fails: Option<nat>) returns (ok: bool, written: bool)
      requires Valid() && (fails.Some? ==> fails.value <= |l1|)
      modifies this
      ensures State() == var t := old(State()); if fails.Some? then FailedL1(t, fails.value) else SyncedL1(t)
      ensures ok == !(old(l1Dirty) && fails.Some?) && written == (old(l1Dirty) && ok)
      ensures var t := old(State());
        Valid() <==> (t.l1Dirty ==>
          if fails.Some? then forall a :: a in t.l1[..fails.value] ==> !Private(t, a)
          else forall a :: a in t.cache.blocks && t.cache.blocks[a].dirty ==> a !in t.l1)
    {
      SyncL1Exact(State());
      if fails.Some? { FailedL1Exact(State(), fails.value); }
      if !l1Dirty { return true, false; }
      if fails.Some? {
        disk := disk.(l1 := l1[..fails.value] + disk.l1[fails.value..]);
        return false, false;
      }
      disk := disk.(l1 := l1);
      evicted, l1Dirty := {}, false;
      return true, true;
    }

    /** syncCache: first the L2 tables, then the L1 table. Memory translates as before. If
        all writes are carried out the disk then translates every address as memory does;
        if that of an L2 table fails, as before; if that of the L1 table fails, as memory
        does where the words have arrived and as before elsewhere, and the tables stay in
        order exactly when none of those words names a table written by an eviction. */
    method SyncCache(fates: Word -> Fate, fails: Option<nat>) returns (swept: bool, ok: bool)
      requires Valid() && (forall a :: FateOk(n, fates(a))) && (fails.Some? ==> fails.value <= |l1|)
      modifies this, cache`store, cache`now
      ensures Built() && l1 == old(l1) && SameTables(old(State()), State())
      ensures swept <==> AllWritten(old(State()), fates, {})
      ensures ok == (swept && !(old(l1Dirty) && fails.Some?))
      ensures ok ==> Valid() && forall i, j: nat :: 0 <= i < |l1| ==> DiskLookup(disk, i, j) == MemLookup(old(State()), i, j)
      ensures !swept ==> Valid() && SameDisk(old(disk), disk)
      ensures swept && !ok ==> TornBetween(old(State()), disk, fails.value)
      ensures swept && !ok ==> (Valid() <==> forall a :: a in l1[..fails.value] ==> a !in old(evicted))
    {
      swept := Sync(fates);
      if !swept { return swept, false; }
      ghost var t := State();
      SyncedL1Ok(t);
      if fails.Some? && l1Dirty { TornSweep(old(State()), t, fails.value); }
      var written;
      ok, written := SyncL1(fails);
    }

    /** fileOffsetRead: the host offset of `v`, None when its cluster is not allocated. */
    method FileOffsetRead(v: nat, fate: Fate) returns (ok: bool, r: Option<nat>)
      requires Valid() && (v < virtualSize ==> Covered(v)) && FateOk(n, fate)
      modifies this, cache, cache.queue.Repr
      ensures Valid() && fresh(cache.queue.Repr - old(cache.queue.Repr)) && l1 == old(l1)
      ensures SameDisk(old(disk), disk)
      ensures v >= virtualSize ==> !ok && State() == old(State())
      ensures v < virtualSize ==>
        var t, i := old(State()), L1Index(clusterSize, n, v);
        if Misses(t, i) && Loses(t, fate) then !ok && State() == Lost(t, fate.words)
        else
          var m := Mapping(t, i, L2Index(clusterSize, n, v));
          && ok == !m.Unreadable? && r == (if m.At? then Some(m.address + InCluster(v, clusterSize)) else None)
          && SameTables(t, State())
    {
      if v >= virtualSize { return false, None; }
      OffsetReadOk(State(), L1Index(clusterSize, n, v), L2Index(clusterSize, n, v), fate);
      var address;
      ok, address := ReadEntry(L1Index(clusterSize, n, v), L2Index(clusterSize, n, v), fate);
      r := if address.Some? then Some(address.value + InCluster(v, clusterSize)) else None;
    }

    method ReadEntry(i: nat, j: nat, fate: Fate) returns (ok: bool, address: Option<Word>)
      requires Built() && cache.capacity > 0 && i < |l1|
      modifies this, cache, cache.queue.Repr
      ensures Built() && fresh(cache.queue.Repr - old(cache.queue.Repr))
      ensures (State(), ok, address) == OffsetRead(old(State()), i, j, fate)
    {
      var found := FindEntry(i, j, fate);
      ok := !found.Unreadable? && !found.WriteFailed?;
      address := if found.At? && found.address != 0 then Some(found.address) else None;
    }

    /** fileOffsetWrite: the host offset of `v`, allocated if it is not yet. The allocator
        gives `table`, `cluster` and `copy`, as far as it is asked and has them; `words` is
        what the new cluster starts with; `read` and `add` are how the write-backs fare
        that may be needed. `w` is the cluster `v` is mapped to. */
    method FileOffsetWrite(
      v: nat, table: Option<Word>, cluster: Option<Word>, copy: Option<Word>, words: seq<Word>, read: Fate, add: Fate)
      returns (r: Option<nat>, ghost w: Word)
      requires Valid() && (v < virtualSize ==> Covered(v)) && |words| == n
      requires Handed(State(), table, cluster, copy) && FateOk(n, read) && FateOk(n, add)
      modifies this, cache, cache.queue.Repr
      ensures Valid() && fresh(cache.queue.Repr - old(cache.queue.Repr))
      ensures SameDisk(old(disk), disk)
      ensures v >= virtualSize ==> r.None? && State() == old(State())
      ensures v < virtualSize && TableLost(old(State()), L1Index(clusterSize, n, v), table, read, add) ==>
        var t, i := old(State()), L1Index(clusterSize, n, v);
        r.None? && LosesFront(t, State(), i, if t.l1[i] == 0 then table else None)
      ensures v < virtualSize && r.None? && !TableLost(old(State()), L1Index(clusterSize, n, v), table, read, add) ==>
        SameMapping(old(State()), State())
      ensures v < virtualSize ==>
        var t, i, j := old(State()), L1Index(clusterSize, n, v), L2Index(clusterSize, n, v);
        && (r.Some? <==> !TableLost(t, i, table, read, add) && Writes(t, i, j, table, cluster, copy))
        && (r.Some? && Mapping(t, i, j) == NoTable ==> cluster == Some(w))
      ensures r.Some? ==>
        && v < virtualSize && !TableLost(old(State()), L1Index(clusterSize, n, v), table, read, add)
        && w != 0 && r.value == w + InCluster(v, clusterSize)
        && MapsTo(old(State()), State(), L1Index(clusterSize, n, v), L2Index(clusterSize, n, v), w)
    {
      w, r := 0, None;
      if v >= virtualSize { return; }
      var i, j := L1Index(clusterSize, n, v), L2Index(clusterSize, n, v);
      OffsetWrittenOk(State(), i, j, table, cluster, copy, words, read, add);
      OffsetWrittenWhen(State(), i, j, table, cluster, copy, words, read, add);
      PreparedCached(State(), i, j, table, read, add);
      var address := WriteEntry(i, j, table, cluster, copy, words, read, add);
      if address.Some? {
        w := address.value;
        r := Some(address.value + InCluster(v, clusterSize));
      }
    }

    /** The translation itself, table index by table index. */
    method WriteEntry(
      i: nat, j: nat, table: Option<Word>, cluster: Option<Word>, copy: Option<Word>, words: seq<Word>,
      read: Fate, add: Fate) returns (address: Option<Word>)
      requires Built() && cache.capacity > 0 && i < |l1|
      requires var (u, found) := Prepared(State(), i, j, table, read, add);
        found.At? ==> Writable(u, i, j)
      modifies this, cache, cache.queue.Repr
      ensures Built() && fresh(cache.queue.Repr - old(cache.queue.Repr))
      ensures (State(), address) == OffsetWritten(old(State()), i, j, table, cluster, copy, words, read, add)
    {
      var found := FindTable(i, j, table, read, add);
      address := FinishEntry(i, j, found, cluster, copy, words);
    }

    /** The rest of it, the entry being `found`. */
    method FinishEntry(i: nat, j: nat, found: Lookup, cluster: Option<Word>, copy: Option<Word>, words: seq<Word>)
      returns (address: Option<Word>)
      requires Built() && (found.At? ==> Writable(State(), i, j))
      modifies this, cache, cache.queue.Repr
      ensures Built() && fresh(cache.queue.Repr - old(cache.queue.Repr))
      ensures (State(), address) == Finished(old(State()), i, j, found, cluster, copy, words)
    {
      address := None;
      if found.At? && found.address != 0 {
        address := Some(found.address);
      } else if found.At? && cluster.Some? {
        var ok := MapCluster(i, j, cluster.value, copy, words);
        if ok { address := cluster; }
      }
    }

    /** Looks the entry up, adding a table when it has none. */
    method FindTable(i: nat, j: nat, table: Option<Word>, read: Fate, add: Fate) returns (found: Lookup)
      requires Built() && cache.capacity > 0 && i < |l1|
      modifies this, cache, cache.queue.Repr
      ensures Built() && fresh(cache.queue.Repr - old(cache.queue.Repr))
      ensures (State(), found) == Prepared(old(State()), i, j, table, read, add)
    {
      found := FindEntry(i, j, read);
      if found.NoTable? && table.Some? {
        var ok := AddTable(i, table.value, add);
        found := if ok then At(0) else WriteFailed;
      }
    }

    /** Gives the entry the cluster `a`, filled with `words`. */
    method MapCluster(i: nat, j: nat, a: Word, copy: Option<Word>, words: seq<Word>) returns (ok: bool)
      requires Built() && i < |l1| && l1[i] in cache.now.blocks && j < |cache.now.blocks[l1[i]].data|
      modifies this, cache, cache.queue.Repr
      ensures Built() && fresh(cache.queue.Repr - old(cache.queue.Repr))
      ensures (State(), ok) == MappedTo(old(State()), i, j, a, copy, words)
    {
      ghost var t := State();
      disk := PutCluster(disk, a, words);
      assert State() == Scribbled(t, a, words);
      var freed;
      ok, freed := ChangeEntry(i, j, a, copy);
    }
  }
}
