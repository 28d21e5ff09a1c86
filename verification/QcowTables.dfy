/** The two-level address table of a qcow2 image: the words on disk, the L1 table and
    the cached L2 tables in memory, and what an address translates to through either. */
module QcowTables {
  import opened Common
  import opened QcowLru

  /** A 64-bit word. Bits 9 to 55 hold an offset; in an L2 entry, bit 62 marks a
      compressed cluster and bit 63 one in use. */
  type Word = x: int | 0 <= x < U64

  const OFFSET_LOW: nat := 0x200
  const OFFSET_HIGH: nat := 0x100_0000_0000_0000
  const COMPRESSED: nat := 0x4000_0000_0000_0000
  const USED: nat := 0x8000_0000_0000_0000

  // ----------------------------------------------------------------------- words

  /** The offset bits of a word, the others cleared. */
  function Offset(w: Word): Word {
    w % OFFSET_HIGH / OFFSET_LOW * OFFSET_LOW
  }

  /** Only offset bits are set. */
  predicate Aligned(w: Word) {
    w < OFFSET_HIGH && w % OFFSET_LOW == 0
  }

  /** A word as it is written: the flag bit is set unless the word is zero. */
  function Flagged(w: Word): Word {
    if w == 0 || w >= USED then w else w + USED
  }

  predicate IsCompressed(w: Word) {
    w / COMPRESSED % 2 == 1
  }

  /** A word of an L2 table as it is read. */
  function Unflagged(w: Word): Option<Word> {
    if IsCompressed(w) then None else Some(Offset(w))
  }

  lemma {:induction false} OffsetExact(w: Word)
    ensures Aligned(Offset(w)) && (Offset(w) == w <==> Aligned(w))
  {
  }

  /** The words of a table bit by bit: written, a word that is not zero gets bit 63 and
      keeps all others; read, one with bit 62 is refused, and of any other bits 9 to 55
      are kept. */
  lemma {:induction false} WordsExact(w: Word)
    ensures Flagged(0) == 0
    ensures w != 0 ==> Flagged(w) == w % 0x8000_0000_0000_0000 + 0x8000_0000_0000_0000
    ensures Unflagged(w).None? <==> w % 0x8000_0000_0000_0000 >= 0x4000_0000_0000_0000
    ensures Unflagged(w).Some? ==>
      var a := Unflagged(w).value; a % 0x200 == 0 && a <= w % 0x0100_0000_0000_0000 < a + 0x200
  {
  }

  /** A word survives being written and read again exactly when it is an offset. */
  lemma {:induction false} RereadExact(w: Word)
    ensures Unflagged(Flagged(w)) == Some(w) <==> Aligned(w)
  {
  }

  // ------------------------------------------------------------------------ disk

  datatype Disk = Disk(l1: seq<Word>, clusters: map<Word, seq<Word>>)

  predicate AlignedAll(t: seq<Word>) {
    forall j :: 0 <= j < |t| ==> Aligned(t[j])
  }

  /** A table of cluster addresses as it is written. */
  function Written(t: seq<Word>): (r: seq<Word>)
    ensures |r| == |t| && forall j :: 0 <= j < |t| ==> r[j] == Flagged(t[j])
  {
    seq(|t|, j requires 0 <= j < |t| => Flagged(t[j]))
  }

  function Masked(t: seq<Word>): (r: seq<Word>)
    ensures |r| == |t| && forall j :: 0 <= j < |t| ==> r[j] == Offset(t[j])
  {
    seq(|t|, j requires 0 <= j < |t| => Offset(t[j]))
  }

  predicate Uncompressed(t: seq<Word>) {
    forall j :: 0 <= j < |t| ==> !IsCompressed(t[j])
  }

  function ClusterAt(d: Disk, a: Word): Option<seq<Word>> {
    if a in d.clusters then Some(d.clusters[a]) else None
  }

  /** The L2 table at `a`; None if it cannot be read or holds a compressed cluster. */
  function ReadTable(d: Disk, a: Word): (r: Option<seq<Word>>)
    ensures r.Some? ==> a in d.clusters && |r.value| == |d.clusters[a]|
  {
    if a in d.clusters && Uncompressed(d.clusters[a]) then Some(Masked(d.clusters[a])) else None
  }

  function WriteTable(d: Disk, a: Word, t: seq<Word>): Disk {
    d.(clusters := d.clusters[a := Written(t)])
  }

  lemma {:induction false} ReadWritten(d: Disk, a: Word, t: seq<Word>, x: Word)
    ensures AlignedAll(t) ==> ReadTable(WriteTable(d, a, t), a) == Some(t)
    ensures x != a ==> ReadTable(WriteTable(d, a, t), x) == ReadTable(d, x)
  {
    if AlignedAll(t) {
      var w := Written(t);
      forall j | 0 <= j < |t| ensures !IsCompressed(w[j]) && Offset(w[j]) == t[j] {
        RereadExact(t[j]);
      }
      assert Masked(w) == t;
    }
  }

  lemma ReadAligned(d: Disk, a: Word)
    requires ReadTable(d, a).Some?
    ensures AlignedAll(ReadTable(d, a).value)
  {
  }

  // ---------------------------------------------------------------- translations

  /** The answer to a lookup; the last one is for a read that failed to make room. */
  datatype Lookup = NoTable | Unreadable | At(address: Word) | WriteFailed

  function EntryOf(table: Option<seq<Word>>, j: nat): Lookup {
    if table.None? || j >= |table.value| then Unreadable else At(table.value[j])
  }

  /** What entry `j` of table `i` is, read through the tables on disk. */
  function DiskLookup(d: Disk, i: nat, j: nat): Lookup
    requires i < |d.l1|
  {
    var a := Offset(d.l1[i]);
    if a == 0 then NoTable else EntryOf(ReadTable(d, a), j)
  }

  /** The L1 table with its dirty mark, the L2 cache, the L2 tables written by eviction
      since the L1 table was, and the disk. A table has `n` entries. */
  datatype Tables = Tables(
    n: nat, capacity: nat, l1: seq<Word>, l1Dirty: bool, cache: Cache<Word, Word>, evicted: set<Word>, disk: Disk)

  /** The L2 table at `a`, cached or not. */
  function TableAt(t: Tables, a: Word): Option<seq<Word>> {
    if a in t.cache.blocks then Some(t.cache.blocks[a].data) else ReadTable(t.disk, a)
  }

  /** The same entry, read through memory. */
  function MemLookup(t: Tables, i: nat, j: nat): Lookup
    requires i < |t.l1|
  {
    if t.l1[i] == 0 then NoTable else EntryOf(TableAt(t, t.l1[i]), j)
  }

  function Opened(d: Disk, n: nat, capacity: nat): Tables {
    Tables(n, capacity, Masked(d.l1), false, Cache([], map[]), {}, d)
  }

  // ------------------------------------------------------------------- invariant

  /** `a` is in the L1 table on disk. */
  ghost predicate OnDisk(d: Disk, a: Word) {
    exists i :: 0 <= i < |d.l1| && Offset(d.l1[i]) == a
  }

  /** May be written in place: not yet in the L1 table on disk. */
  predicate Private(t: Tables, a: Word) {
    a in t.evicted || (a in t.cache.blocks && t.cache.blocks[a].dirty)
  }

  ghost predicate AtMostOnce(l1: seq<Word>, a: Word) {
    forall i, k :: 0 <= i < k < |l1| ==> !(l1[i] == a && l1[k] == a)
  }

  ghost predicate BlockOk(t: Tables, a: Word)
    requires a in t.cache.blocks
  {
    var b := t.cache.blocks[a];
    && a != 0 && |b.data| == t.n && AlignedAll(b.data)
    && (!b.dirty ==> ReadTable(t.disk, a) == Some(b.data))
  }

  ghost predicate PrivateOk(t: Tables, a: Word) {
    Private(t, a) ==> !OnDisk(t.disk, a) && AtMostOnce(t.l1, a)
  }

  ghost predicate Sized(d: Disk, n: nat) {
    forall a :: a in d.clusters ==> |d.clusters[a]| == n
  }

  /** Every block is the right size, and a clean one is what the disk holds; a table
      that may be written in place has one owner in memory and none on disk. */
  ghost predicate Inv(t: Tables) {
    && CacheOk(t.cache) && |t.cache.order| <= t.capacity && 0 < t.capacity && 0 < t.n
    && |t.l1| == |t.disk.l1| && AlignedAll(t.l1) && Sized(t.disk, t.n)
    && (forall a {:trigger BlockOk(t, a)} :: a in t.cache.blocks ==> BlockOk(t, a))
    && (forall a {:trigger PrivateOk(t, a)} :: PrivateOk(t, a))
    && (!t.l1Dirty ==> t.l1 == Masked(t.disk.l1))
  }

  lemma {:induction false} OpenedInv(d: Disk, n: nat, capacity: nat)
    requires Sized(d, n) && 0 < n && 0 < capacity
    ensures Inv(Opened(d, n, capacity))
    ensures forall i, j: nat :: 0 <= i < |d.l1| ==> MemLookup(Opened(d, n, capacity), i, j) == DiskLookup(d, i, j)
  {
  }
}
