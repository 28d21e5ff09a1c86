/** The block cache as it is built: a map from keys to entries, and a linked list of the
    keys whose cells the entries point at. */
module QcowBlockCache {
  import opened Common
  import opened QcowList
  import opened QcowLru

  datatype Entry<T, P> = Entry(block: Block<P>, cell: Cell<T>)

  /** The values of the cells. */
  ghost function Order<T>(cells: seq<Cell<T>>): (s: seq<T>)
    ensures |s| == |cells| && forall i :: 0 <= i < |s| ==> s[i] == cells[i].value
  {
    seq(|cells|, i requires 0 <= i < |cells| => cells[i].value)
  }

  ghost function Blocks<T(!new), P>(store: map<T, Entry<T, P>>): map<T, Block<P>> {
    map k | k in store :: store[k].block
  }

  /** The entry of `k` points at a cell of the list that holds `k`. */
  ghost predicate HasCell<T(!new), P>(store: map<T, Entry<T, P>>, cells: seq<Cell<T>>, k: T)
    requires k in store
  {
    store[k].cell in cells && store[k].cell.value == k
  }

  /** The cell is the one its value's entry points at. */
  ghost predicate OwnCell<T(!new), P>(store: map<T, Entry<T, P>>, cell: Cell<T>) {
    cell.value in store && store[cell.value].cell == cell
  }

  /** The list holds the cell of every entry, and no other. */
  ghost predicate InStep<T(!new), P>(store: map<T, Entry<T, P>>, cells: seq<Cell<T>>) {
    && (forall k {:trigger HasCell(store, cells, k)} :: k in store ==> HasCell(store, cells, k))
    && (forall i {:trigger OwnCell(store, cells[i])} :: 0 <= i < |cells| ==> OwnCell(store, cells[i]))
  }

  ghost function Value<T(!new), P>(store: map<T, Entry<T, P>>, cells: seq<Cell<T>>): Cache<T, P> {
    Cache(Order(cells), Blocks(store))
  }

  lemma InStepOk<T(!new), P>(store: map<T, Entry<T, P>>, cells: seq<Cell<T>>)
    requires InStep(store, cells) && Distinct(cells)
    ensures CacheOk(Value(store, cells)) && |store| == |cells|
  {
    var s := Order(cells);
    forall i, j | 0 <= i < j < |s| ensures s[i] != s[j] {
      assert OwnCell(store, cells[i]) && OwnCell(store, cells[j]);
    }
    forall k ensures k in s <==> k in store {
      if k in store {
        assert HasCell(store, cells, k);
        var i :| 0 <= i < |cells| && cells[i] == store[k].cell;
        assert s[i] == k;
      }
      if k in s {
        var i :| 0 <= i < |s| && s[i] == k;
        assert OwnCell(store, cells[i]);
      }
    }
    DistinctKeys(s, store);
  }

  /** The place of a key's cell in the list. */
  lemma PlaceOf<T(!new), P>(store: map<T, Entry<T, P>>, cells: seq<Cell<T>>, k: T) returns (at: nat)
    requires InStep(store, cells) && k in store
    ensures at < |cells| && cells[at] == store[k].cell && cells[at].value == k
  {
    assert HasCell(store, cells, k);
    at :| at < |cells| && cells[at] == store[k].cell;
  }

  /** Unlinking the cell of a key. */
  lemma UnlinkKey<T(!new), P>(store: map<T, Entry<T, P>>, cells: seq<Cell<T>>, k: T, at: nat)
    requires InStep(store, cells) && Distinct(cells) && at < |cells| && cells[at].value == k
    ensures InStep(store - {k}, DropAt(cells, at)) && Distinct(DropAt(cells, at))
    ensures Value(store - {k}, DropAt(cells, at)) == Removed(Value(store, cells), k)
  {
    UnlinkInStep(store, cells, k, at);
    InStepOk(store, cells);
    WithoutAt(Order(cells), at);
    assert Order(DropAt(cells, at)) == DropAt(Order(cells), at);
    BlocksLess(store, k);
  }

  lemma BlocksLess<T(!new), P>(store: map<T, Entry<T, P>>, k: T)
    ensures Blocks(store - {k}) == Blocks(store) - {k}
  {
  }

  lemma UnlinkFront<T(!new), P>(store: map<T, Entry<T, P>>, cells: seq<Cell<T>>)
    requires InStep(store, cells) && Distinct(cells) && cells != []
    ensures cells[0].value in store && Value(store, cells).order[0] == cells[0].value
    ensures InStep(store - {cells[0].value}, cells[1..])
    ensures Value(store - {cells[0].value}, cells[1..]) == Evicted(Value(store, cells))
  {
    assert OwnCell(store, cells[0]);
    UnlinkKey(store, cells, cells[0].value, 0);
    InStepOk(store, cells);
    EvictedOk(Value(store, cells));
    assert DropAt(cells, 0) == cells[1..];
  }

  lemma UnlinkInStep<T(!new), P>(store: map<T, Entry<T, P>>, cells: seq<Cell<T>>, k: T, at: nat)
    requires InStep(store, cells) && Distinct(cells) && at < |cells| && cells[at].value == k
    ensures InStep(store - {k}, DropAt(cells, at)) && Distinct(DropAt(cells, at))
  {
    var rest, left := DropAt(cells, at), store - {k};
    DropAtDistinct(cells, at);
    assert OwnCell(store, cells[at]);
    forall x | x in left ensures HasCell(left, rest, x) {
      var i := PlaceOf(store, cells, x);
      assert rest[if i < at then i else i - 1] == store[x].cell;
    }
    forall i | 0 <= i < |rest| ensures OwnCell(left, rest[i]) {
      assert OwnCell(store, cells[if i < at then i else i + 1]);
    }
  }

  /** Linking a new cell for a key not in the list. */
  lemma LinkKey<T(!new), P>(store: map<T, Entry<T, P>>, cells: seq<Cell<T>>, b: Block<P>, cell: Cell<T>)
    requires InStep(store, cells) && cell !in cells && cell.value !in store
    ensures InStep(store[cell.value := Entry(b, cell)], cells + [cell])
    ensures Value(store[cell.value := Entry(b, cell)], cells + [cell]) == Stored(Value(store, cells), cell.value, b)
  {
    var k, more, longer := cell.value, store[cell.value := Entry(b, cell)], cells + [cell];
    forall i | 0 <= i < |cells| ensures OwnCell(more, cells[i]) && cells[i].value != k {
      assert OwnCell(store, cells[i]);
    }
    forall x | x in more ensures HasCell(more, longer, x) {
      if x in store { assert HasCell(store, cells, x); }
    }
    assert k !in Order(cells);
    WithoutAbsent(Order(cells), k);
    assert Order(longer) == Order(cells) + [k];
    assert Blocks(more) == Blocks(store)[k := b];
  }

  /** A new cell for a key in place of its old one. */
  lemma RenewKey<T(!new), P>(
    store: map<T, Entry<T, P>>, cells: seq<Cell<T>>, k: T, at: nat, b: Block<P>, cell: Cell<T>)
    requires InStep(store, cells) && Distinct(cells) && at < |cells| && cells[at].value == k
    requires cell !in cells && cell.value == k
    ensures InStep(store[k := Entry(b, cell)], DropAt(cells, at) + [cell])
    ensures Value(store[k := Entry(b, cell)], DropAt(cells, at) + [cell]) == Stored(Value(store, cells), k, b)
  {
    UnlinkKey(store, cells, k, at);
    DropAtIn(cells, at);
    LinkKey(store - {k}, DropAt(cells, at), b, cell);
    RemovedStored(Value(store, cells), k, b);
    assert store[k := Entry(b, cell)] == (store - {k})[k := Entry(b, cell)];
  }

  lemma ReplaceKey<T(!new), P>(store: map<T, Entry<T, P>>, cells: seq<Cell<T>>, k: T, b: Block<P>)
    requires InStep(store, cells) && k in store
    ensures var r := store[k := store[k].(block := b)];
      InStep(r, cells) && Value(r, cells) == Cache(Order(cells), Blocks(store)[k := b])
  {
    var r := store[k := store[k].(block := b)];
    forall i | 0 <= i < |cells| ensures OwnCell(r, cells[i]) {
      assert OwnCell(store, cells[i]);
    }
    forall x | x in store ensures HasCell(r, cells, x) {
      assert HasCell(store, cells, x);
    }
    assert Blocks(r) == Blocks(store)[k := b];
  }

  ghost predicate Holds<T(!new), P>(store: map<T, Entry<T, P>>, cells: seq<Cell<T>>, c: Cache<T, P>) {
    InStep(store, cells) && c == Value(store, cells) && CacheOk(c)
  }

  lemma HoldsRenewed<T(!new), P>(
    store: map<T, Entry<T, P>>, cells: seq<Cell<T>>, c: Cache<T, P>, k: T, at: nat, b: Block<P>, cell: Cell<T>)
    requires Holds(store, cells, c) && Distinct(cells) && at < |cells| && cells[at].value == k
    requires cell !in cells && cell.value == k
    ensures Holds(store[k := Entry(b, cell)], DropAt(cells, at) + [cell], Stored(c, k, b))
    ensures forall x :: x in DropAt(cells, at) ==> x in cells
  {
    RenewKey(store, cells, k, at, b, cell);
    DropAtIn(cells, at);
    StoredOk(c, k, b);
  }

  lemma HoldsLinked<T(!new), P>(
    store: map<T, Entry<T, P>>, cells: seq<Cell<T>>, c: Cache<T, P>, b: Block<P>, cell: Cell<T>)
    requires Holds(store, cells, c) && cell !in cells && cell.value !in store
    ensures Holds(store[cell.value := Entry(b, cell)], cells + [cell], Stored(c, cell.value, b))
  {
    LinkKey(store, cells, b, cell);
    StoredOk(c, cell.value, b);
  }

  lemma HoldsUnlinked<T(!new), P>(
    store: map<T, Entry<T, P>>, cells: seq<Cell<T>>, c: Cache<T, P>, k: T, at: nat)
    requires Holds(store, cells, c) && Distinct(cells) && at < |cells| && cells[at].value == k
    ensures Holds(store - {k}, DropAt(cells, at), Removed(c, k))
    ensures forall x :: x in DropAt(cells, at) ==> x in cells
  {
    UnlinkKey(store, cells, k, at);
    DropAtIn(cells, at);
    RemovedOk(c, k);
  }

  lemma HoldsEvicted<T(!new), P>(store: map<T, Entry<T, P>>, cells: seq<Cell<T>>, c: Cache<T, P>)
    requires Holds(store, cells, c) && Distinct(cells) && cells != []
    ensures c.order != [] && c.order[0] == cells[0].value && c.order[0] in store
    ensures c.blocks[c.order[0]] == store[c.order[0]].block
    ensures Holds(store - {cells[0].value}, cells[1..], Evicted(c))
  {
    UnlinkFront(store, cells);
    EvictedOk(c);
  }

  lemma HoldsReplaced<T(!new), P>(
    store: map<T, Entry<T, P>>, cells: seq<Cell<T>>, c: Cache<T, P>, k: T, b: Block<P>)
    requires Holds(store, cells, c) && k in store
    ensures Holds(store[k := store[k].(block := b)], cells, c.(blocks := c.blocks[k := b]))
  {
    ReplaceKey(store, cells, k, b);
  }

  class BlockCache<T(==, !new), P> {
    const capacity: nat
    var store: map<T, Entry<T, P>>
    const queue: List<T>
    ghost var now: Cache<T, P>

    ghost predicate Valid()
      reads this, queue, queue.Repr
    {
      this !in queue.Repr && queue.Valid() && Holds(store, queue.cells, now)
    }

    constructor (n: nat)
      ensures Valid() && capacity == n && now == Cache([], map[]) && fresh(queue.Repr)
    {
      capacity, store, now := n, map[], Cache([], map[]);
      var q := new List<T>();
      queue := q;
    }

    predicate ContainsKey(key: T)
      requires Valid()
      reads this, queue, queue.Repr
      ensures ContainsKey(key) <==> key in now.blocks
    {
      key in store
    }

    function Keys(): (ks: set<T>)
      requires Valid()
      reads this, queue, queue.Repr
      ensures ks == now.blocks.Keys
    {
      store.Keys
    }

    function Peek(key: T): (b: Block<P>)
      requires Valid() && key in now.blocks
      reads this, queue, queue.Repr
      ensures b == now.blocks[key]
    {
      store[key].block
    }

    /** Takes the cell of a present key out of the list and gives it a new one at the
        rear, with the block `b`. */
    method Renew(key: T, b: Block<P>)
      requires Valid() && key in store
      modifies this, queue.Repr
      ensures Valid() && now == Stored(old(now), key, b)
      ensures fresh(queue.Repr - old(queue.Repr))
    {
      ghost var was := queue.cells;
      ghost var at := PlaceOf(store, was, key);
      var taken := queue.RemoveByPointer(store[key].cell, at);
      var cell := queue.AddRear(taken.value);
      HoldsRenewed(store, was, now, key, at, b, cell);
      store := store[key := Entry(b, cell)];
      now := Stored(now, key, b);
    }

    method Get(key: T) returns (b: Option<Block<P>>)
      requires Valid()
      modifies this, queue.Repr
      ensures Valid() && now == Used(old(now), key)
      ensures b == if key in old(now).blocks then Some(old(now).blocks[key]) else None
      ensures fresh(queue.Repr - old(queue.Repr))
    {
      if key !in store { return None; }
      b := Some(store[key].block);
      StoredSame(now, key);
      Renew(key, store[key].block);
    }

    method Set(key: T, b: Block<P>)
      requires Valid()
      modifies this, queue.Repr
      ensures Valid() && now == Stored(old(now), key, b)
      ensures fresh(queue.Repr - old(queue.Repr))
    {
      if key in store {
        Renew(key, b);
      } else {
        ghost var was := queue.cells;
        var cell := queue.AddRear(key);
        HoldsLinked(store, was, now, b, cell);
        store := store[key := Entry(b, cell)];
        now := Stored(now, key, b);
      }
    }

    method Remove(key: T)
      requires Valid()
      modifies this, queue.Repr
      ensures Valid() && now == Removed(old(now), key)
      ensures queue.Repr == old(queue.Repr)
    {
      if key in store {
        ghost var was := queue.cells;
        ghost var at := PlaceOf(store, was, key);
        HoldsUnlinked(store, was, now, key, at);
        var _ := queue.RemoveByPointer(store[key].cell, at);
        store := store - {key};
        now := Removed(now, key);
      } else {
        RemovedAbsent(now, key);
      }
    }

    /** Writes a block through the pointer kept in its entry: the order stays. */
    method Replace(key: T, b: Block<P>)
      requires Valid() && key in now.blocks
      modifies this`store, this`now
      ensures Valid() && now == old(now).(blocks := old(now).blocks[key := b])
    {
      HoldsReplaced(store, queue.cells, now, key, b);
      store := store[key := store[key].(block := b)];
      now := now.(blocks := now.blocks[key := b]);
    }

    /** Not ok when there is nothing to evict or writing the evicted block fails. */
    method Insert<S>(key: T, b: Block<P>, s: S, write: (S, T, Block<P>) -> (S, bool)) returns (t: S, ok: bool)
      requires Valid()
      modifies this, queue.Repr
      ensures Valid() && (now, t, ok) == Inserted(old(now), capacity, key, b, s, write)
      ensures fresh(queue.Repr - old(queue.Repr))
    {
      t, ok := s, true;
      InStepOk(store, queue.cells);
      if |store| == capacity {
        t, ok := EvictFront(s, write);
        if !ok { return; }
      }
      Set(key, b);
    }

    method EvictFront<S>(s: S, write: (S, T, Block<P>) -> (S, bool)) returns (t: S, ok: bool)
      requires Valid()
      modifies this, queue.Repr
      ensures Valid()
      ensures old(now).order == [] ==> !ok && t == s && now == old(now)
      ensures old(now).order != [] ==>
        && old(now).order[0] in old(now).blocks && now == Evicted(old(now))
        && (t, ok) == var b := old(now).blocks[old(now).order[0]];
                      if b.dirty then write(s, old(now).order[0], b) else (s, true)
      ensures queue.Repr == old(queue.Repr)
    {
      if queue.size == 0 { return s, false; }
      HoldsEvicted(store, queue.cells, now);
      var victim := queue.RemoveFront();
      var b := store[victim.value].block;
      store := store - {victim.value};
      now := Evicted(now);
      if !b.dirty { return s, true; }
      var r := write(s, victim.value, b);
      return r.0, r.1;
    }
  }
}
