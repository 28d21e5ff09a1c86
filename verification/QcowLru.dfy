/** What the block cache does, on values: the keys in order of last use, and the block
    of each key. */
module QcowLru {
  import opened QcowList

  /** A vector of words, and whether it differs from what is stored. */
  datatype Block<P> = Block(data: seq<P>, dirty: bool)

  datatype Cache<T, P> = Cache(order: seq<T>, blocks: map<T, Block<P>>)

  ghost predicate CacheOk<T(!new), P>(c: Cache<T, P>) {
    Distinct(c.order) && forall k :: k in c.order <==> k in c.blocks
  }

  function Without<T(==, !new)>(s: seq<T>, k: T): (r: seq<T>)
    ensures forall x :: x in r <==> x in s && x != k
    ensures |r| <= |s|
  {
    if s == [] then []
    else if s[0] == k then Without(s[1..], k)
    else [s[0]] + Without(s[1..], k)
  }

  function Rear<T(==, !new), P>(c: Cache<T, P>, k: T): Cache<T, P> {
    c.(order := Without(c.order, k) + [k])
  }

  function Stored<T(==, !new), P>(c: Cache<T, P>, k: T, b: Block<P>): Cache<T, P> {
    Cache(Without(c.order, k) + [k], c.blocks[k := b])
  }

  function Removed<T(==, !new), P>(c: Cache<T, P>, k: T): Cache<T, P> {
    Cache(Without(c.order, k), c.blocks - {k})
  }

  /** A use of `k`: it moves to the rear if it is there. */
  function Used<T(==, !new), P>(c: Cache<T, P>, k: T): Cache<T, P> {
    if k in c.blocks then Rear(c, k) else c
  }

  function Evicted<T(==, !new), P>(c: Cache<T, P>): Cache<T, P>
    requires c.order != []
  {
    Cache(c.order[1..], c.blocks - {c.order[0]})
  }

  /** Storing `b` under `k`. A full cache first gives up its front key; if that key's
      block is dirty, `write` gets it, and when writing fails nothing is stored and the
      block is lost; the last result says whether all went well. `s` is
      whatever writing changes. */
  function Inserted<T(==, !new), P, S>(
    c: Cache<T, P>, capacity: nat, k: T, b: Block<P>, s: S, write: (S, T, Block<P>) -> (S, bool))
    : (r: (Cache<T, P>, S, bool))
    requires CacheOk(c)
  {
    if |c.order| != capacity then (Stored(c, k, b), s, true)
    else if capacity == 0 then (c, s, false)
    else
      var victim := c.order[0];
      assert victim in c.order;
      var (t, ok) := if c.blocks[victim].dirty then write(s, victim, c.blocks[victim]) else (s, true);
      if ok then (Stored(Evicted(c), k, b), t, true) else (Evicted(c), t, false)
  }

  // ------------------------------------------------------------------ sequences

  lemma {:induction false} WithoutAt<T(!new)>(s: seq<T>, at: nat)
    requires at < |s| && Distinct(s)
    ensures Without(s, s[at]) == DropAt(s, at)
  {
    if at == 0 {
      WithoutAbsent(s[1..], s[0]);
    } else {
      WithoutAt(s[1..], at - 1);
    }
  }

  lemma {:induction false} WithoutAbsent<T(!new)>(s: seq<T>, k: T)
    requires k !in s
    ensures Without(s, k) == s
  {
    if s != [] { WithoutAbsent(s[1..], k); }
  }

  lemma {:induction false} WithoutDistinct<T(!new)>(s: seq<T>, k: T)
    requires Distinct(s)
    ensures Distinct(Without(s, k)) && |Without(s, k)| == |s| - (if k in s then 1 else 0)
  {
    if s != [] {
      var r := Without(s[1..], k);
      WithoutDistinct(s[1..], k);
      assert s[0] !in s[1..];
      forall i | 0 <= i < |r| ensures r[i] != s[0] {
        assert r[i] in s[1..];
      }
    }
  }

  lemma DistinctKeys<T(!new), P>(s: seq<T>, m: map<T, P>)
    requires Distinct(s) && forall k :: k in s <==> k in m
    ensures |m| == |s|
  {
    assert m.Keys == (set i | 0 <= i < |s| :: s[i]);
    DistinctCount(s);
    assert |m| == |m.Keys|;
  }

  lemma {:induction false} DistinctCount<T(!new)>(s: seq<T>)
    requires Distinct(s)
    ensures |(set i | 0 <= i < |s| :: s[i])| == |s|
  {
    var all := set i | 0 <= i < |s| :: s[i];
    if s != [] {
      var t := s[1..];
      DistinctCount(t);
      var rest := set i | 0 <= i < |t| :: t[i];
      assert all == {s[0]} + rest by {
        forall x | x in {s[0]} + rest ensures x in all {
          if x != s[0] {
            var i :| 0 <= i < |t| && t[i] == x;
            assert s[i + 1] == x;
          }
        }
        forall x | x in all ensures x in {s[0]} + rest {
          var i :| 0 <= i < |s| && s[i] == x;
          if i > 0 { assert t[i - 1] == x; }
        }
      }
      assert s[0] !in rest;
    }
  }

  // --------------------------------------------------------- what operations keep

  lemma UsedOk<T(!new), P>(c: Cache<T, P>, k: T)
    requires CacheOk(c)
    ensures CacheOk(Used(c, k)) && |Used(c, k).order| == |c.order|
  {
    WithoutDistinct(c.order, k);
  }

  lemma StoredOk<T(!new), P>(c: Cache<T, P>, k: T, b: Block<P>)
    requires CacheOk(c)
    ensures CacheOk(Stored(c, k, b)) && |Stored(c, k, b).order| == |c.order| + (if k in c.blocks then 0 else 1)
  {
    WithoutDistinct(c.order, k);
  }

  lemma RemovedOk<T(!new), P>(c: Cache<T, P>, k: T)
    requires CacheOk(c)
    ensures CacheOk(Removed(c, k)) && |Removed(c, k).order| <= |c.order|
  {
    WithoutDistinct(c.order, k);
  }

  /** Taking a key out and storing it again is storing it. */
  lemma RemovedStored<T(!new), P>(c: Cache<T, P>, k: T, b: Block<P>)
    ensures Stored(Removed(c, k), k, b) == Stored(c, k, b)
  {
    WithoutAbsent(Without(c.order, k), k);
    assert (c.blocks - {k})[k := b] == c.blocks[k := b];
  }

  lemma RemovedAbsent<T(!new), P>(c: Cache<T, P>, k: T)
    requires CacheOk(c) && k !in c.blocks
    ensures Removed(c, k) == c
  {
    WithoutAbsent(c.order, k);
    assert c.blocks - {k} == c.blocks;
  }

  /** Storing what is there already is a use. */
  lemma StoredSame<T(!new), P>(c: Cache<T, P>, k: T)
    requires k in c.blocks
    ensures Stored(c, k, c.blocks[k]) == Used(c, k)
  {
  }

  lemma EvictedOk<T(!new), P>(c: Cache<T, P>)
    requires CacheOk(c) && c.order != []
    ensures CacheOk(Evicted(c)) && Evicted(c) == Removed(c, c.order[0])
  {
    WithoutAt(c.order, 0);
  }

  /** Inserting never exceeds the capacity. */
  lemma InsertedOk<T(!new), P, S>(
    c: Cache<T, P>, capacity: nat, k: T, b: Block<P>, s: S, write: (S, T, Block<P>) -> (S, bool))
    requires CacheOk(c) && |c.order| <= capacity
    ensures var r := Inserted(c, capacity, k, b, s, write).0; CacheOk(r) && |r.order| <= capacity
  {
    if |c.order| != capacity {
      StoredOk(c, k, b);
    } else if capacity > 0 {
      EvictedOk(c);
      StoredOk(Evicted(c), k, b);
    }
  }

  // ------------------------------------------------------------------------ runs

  /** `written` says whether writing a dirty block succeeds, if it comes to that. */
  datatype Op<T, P> =
    | Get(key: T)
    | Insert(key: T, block: Block<P>, written: bool)
    | Set(key: T, block: Block<P>)
    | Remove(key: T)

  function AfterInsert<T(==, !new), P>(c: Cache<T, P>, capacity: nat, op: Op<T, P>): (Cache<T, P>, (), bool)
    requires CacheOk(c) && op.Insert?
  {
    Inserted(c, capacity, op.key, op.block, (), (s, k, b) => ((), op.written))
  }

  function Apply<T(==, !new), P>(capacity: nat, c: Cache<T, P>, op: Op<T, P>): Cache<T, P>
    requires CacheOk(c)
  {
    match op
    case Get(k) => Used(c, k)
    case Insert(_, _, _) => AfterInsert(c, capacity, op).0
    case Set(k, b) => Stored(c, k, b)
    case Remove(k) => Removed(c, k)
  }

  /** The operation leaves `k` as the most recently used key. */
  predicate Uses<T(==, !new), P>(capacity: nat, c: Cache<T, P>, op: Op<T, P>, k: T)
    requires CacheOk(c)
  {
    op.key == k && !op.Remove? && (op.Insert? ==> AfterInsert(c, capacity, op).2)
  }

  /** Set is used on a present key or below capacity only. */
  predicate Allowed<T(==), P>(capacity: nat, c: Cache<T, P>, op: Op<T, P>) {
    op.Set? ==> op.key in c.blocks || |c.order| < capacity
  }

  /** The cache after the operations, starting empty. */
  ghost function After<T(!new), P>(capacity: nat, ops: seq<Op<T, P>>): (c: Cache<T, P>)
    ensures CacheOk(c)
  {
    if ops == [] then Cache([], map[])
    else
      var c := After(capacity, ops[..|ops| - 1]);
      ApplyOk(capacity, c, ops[|ops| - 1]);
      Apply(capacity, c, ops[|ops| - 1])
  }

  lemma ApplyOk<T(!new), P>(capacity: nat, c: Cache<T, P>, op: Op<T, P>)
    requires CacheOk(c)
    ensures CacheOk(Apply(capacity, c, op))
    ensures |c.order| <= capacity && Allowed(capacity, c, op) ==> |Apply(capacity, c, op).order| <= capacity
  {
    match op
    case Get(k) => UsedOk(c, k);
    case Set(k, b) => StoredOk(c, k, b);
    case Remove(k) => RemovedOk(c, k);
    case Insert(k, b, _) =>
      if c.order != [] { EvictedOk(c); StoredOk(Evicted(c), k, b); }
      StoredOk(c, k, b);
  }

  ghost predicate IsRun<T(!new), P>(capacity: nat, ops: seq<Op<T, P>>) {
    ops == [] || (IsRun(capacity, ops[..|ops| - 1])
                  && Allowed(capacity, After(capacity, ops[..|ops| - 1]), ops[|ops| - 1]))
  }

  /** The number of the last operation that used `k`, or 0. */
  ghost function LastUse<T(!new), P>(capacity: nat, ops: seq<Op<T, P>>, k: T): (n: nat)
    ensures n <= |ops|
  {
    if ops == [] then 0
    else
      var front := ops[..|ops| - 1];
      if Uses(capacity, After(capacity, front), ops[|ops| - 1], k) then |ops| else LastUse(capacity, front, k)
  }

  ghost predicate Ascending<T(!new)>(s: seq<T>, f: T -> nat) {
    forall i, j :: 0 <= i < j < |s| ==> f(s[i]) < f(s[j])
  }

  lemma {:induction false} WithoutAscending<T(!new)>(s: seq<T>, k: T, f: T -> nat)
    requires Ascending(s, f)
    ensures Ascending(Without(s, k), f)
  {
    if s != [] {
      WithoutAscending(s[1..], k, f);
      var r := Without(s[1..], k);
      forall i | 0 <= i < |r| ensures f(s[0]) < f(r[i]) {
        assert r[i] in s[1..];
      }
    }
  }

  lemma AscendingAs<T(!new)>(s: seq<T>, f: T -> nat, g: T -> nat)
    requires Ascending(s, f) && forall x :: x in s ==> g(x) == f(x)
    ensures Ascending(s, g)
  {
  }

  /** In every run the keys are listed in order of last use and within capacity. */
  lemma {:induction false} OrderOfLastUse<T(!new), P>(capacity: nat, ops: seq<Op<T, P>>)
    requires IsRun(capacity, ops)
    ensures |After(capacity, ops).order| <= capacity
    ensures Ascending(After(capacity, ops).order, k => LastUse(capacity, ops, k))
  {
    if ops != [] {
      var front, op := ops[..|ops| - 1], ops[|ops| - 1];
      OrderOfLastUse(capacity, front);
      ApplyOk(capacity, After(capacity, front), op);
      OrderStep(capacity, front, op);
      assert front + [op] == ops;
    }
  }

  lemma {:induction false} OrderStep<T(!new), P>(capacity: nat, front: seq<Op<T, P>>, op: Op<T, P>)
    requires Ascending(After(capacity, front).order, k => LastUse(capacity, front, k))
    ensures Ascending(After(capacity, front + [op]).order, k => LastUse(capacity, front + [op], k))
  {
    var ops := front + [op];
    assert ops[..|ops| - 1] == front;
    var c := After(capacity, front);
    var f, g := k => LastUse(capacity, front, k), k => LastUse(capacity, ops, k);
    if Uses(capacity, c, op, op.key) && (op.Get? ==> op.key in c.blocks) {
      RearOrder(capacity, c, op);
      var base := if op.Insert? && |c.order| == capacity then c.order[1..] else c.order;
      assert Ascending(base, f);
      WithoutAscending(base, op.key, f);
      AscendingAs(Without(base, op.key), f, g);
      AscendingRear(Without(base, op.key), op.key, g);
    } else {
      LeftOrder(capacity, c, op, f);
      AscendingAs(Apply(capacity, c, op).order, f, g);
    }
  }

  /** An operation that uses its key puts it at the rear. */
  lemma RearOrder<T(!new), P>(capacity: nat, c: Cache<T, P>, op: Op<T, P>)
    requires CacheOk(c) && Uses(capacity, c, op, op.key) && (op.Get? ==> op.key in c.blocks)
    ensures op.Insert? && |c.order| == capacity ==> c.order != []
    ensures Apply(capacity, c, op).order
         == Without(if op.Insert? && |c.order| == capacity then c.order[1..] else c.order, op.key) + [op.key]
  {
  }

  /** Any other leaves the order of the keys that stay. */
  lemma LeftOrder<T(!new), P>(capacity: nat, c: Cache<T, P>, op: Op<T, P>, f: T -> nat)
    requires CacheOk(c) && !(Uses(capacity, c, op, op.key) && (op.Get? ==> op.key in c.blocks))
    requires Ascending(c.order, f)
    ensures Ascending(Apply(capacity, c, op).order, f)
    ensures forall k :: k in Apply(capacity, c, op).order ==> !Uses(capacity, c, op, k)
  {
    WithoutAscending(c.order, op.key, f);
  }

  lemma AscendingRear<T(!new)>(s: seq<T>, k: T, g: T -> nat)
    requires Ascending(s, g) && forall x :: x in s ==> g(x) < g(k)
    ensures Ascending(s + [k], g)
  {
  }

  /** So the key that a full cache gives up is the least recently used one. */
  lemma {:induction false} EvictsLeastRecent<T(!new), P>(capacity: nat, ops: seq<Op<T, P>>, k: T)
    requires IsRun(capacity, ops) && k in After(capacity, ops).blocks
    ensures After(capacity, ops).order != []
    ensures var victim := After(capacity, ops).order[0];
      k == victim || LastUse(capacity, ops, victim) < LastUse(capacity, ops, k)
  {
    OrderOfLastUse(capacity, ops);
    var order := After(capacity, ops).order;
    assert k in order;
    var f := k => LastUse(capacity, ops, k);
    var i :| 0 <= i < |order| && order[i] == k;
    assert i > 0 ==> f(order[0]) < f(order[i]);
  }
}
