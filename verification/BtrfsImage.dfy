/** The btrfs image: its chunk map, the logical-to-physical translation, and what
    a tree block tells the walker to do. */
module BtrfsImage {
  import opened Common

  const HEADER_SIZE: nat := 101
  const ITEM_SIZE: nat := 25
  const KEY_PTR_SIZE: nat := 33

  const KEY_EXTENT_DATA: Byte := 108
  const KEY_ROOT_ITEM: Byte := 132
  const KEY_EXTENT_ITEM: Byte := 168
  const KEY_METADATA_ITEM: Byte := 169

  datatype Chunk = Chunk(logical: nat, length: nat, kind: nat, stripes: seq<nat>)
  {
    /** The end of the chunk as the code computes it, in 64 bits. */
    function End(): nat { (logical + length) % U64 }

    /** Whether the block group keeps a copy on every stripe: DUP, RAID1 or RAID10. */
    predicate Mirrored() { kind / 16 % 2 == 1 || kind / 32 % 2 == 1 || kind / 64 % 2 == 1 }

    /** The stripes a byte of the chunk lives on, as far as marking is concerned. */
    function Copies(): seq<nat> {
      if Mirrored() then stripes else if stripes == [] then [] else [stripes[0]]
    }
  }

  /** `size`: bytes of the region; `disk`: a read of one node at a physical offset. */
  datatype Image = Image(entries: seq<Chunk>, nodeSize: nat, size: nat, disk: nat -> Option<seq<Byte>>)

  /** A sorted, disjoint chunk map whose ranges stay within 64 bits. */
  ghost predicate ChunksOk(entries: seq<Chunk>) {
    && (forall i :: 0 <= i < |entries| ==> ChunkOk(entries[i]))
    && (forall i, j :: 0 <= i < j < |entries| ==>
          entries[i].logical + entries[i].length <= entries[j].logical)
  }

  ghost predicate ChunkOk(c: Chunk) {
    c.logical + c.length < U64 && forall s :: s in c.stripes ==> s + c.length < U64
  }

  ghost predicate ImageOk(img: Image) {
    && ChunksOk(img.entries) && 4096 <= img.nodeSize <= 65536
    && img.size + img.nodeSize <= U64 / 2
  }

  // -------------------------------------------------------------- translation

  predicate Inside(c: Chunk, a: nat) {
    c.logical <= a < c.logical + c.length
  }

  ghost predicate Mapped(entries: seq<Chunk>, a: nat) {
    exists i :: 0 <= i < |entries| && Inside(entries[i], a)
  }

  /** The stripe `s` is one that holds a copy: any of them if one of the bits 4, 5 and 6 of
      the kind is set, and else the first. */
  predicate HoldsCopy(c: Chunk, s: nat) {
    if c.kind % 32 >= 16 || c.kind % 64 >= 32 || c.kind % 128 >= 64 then s in c.stripes
    else c.stripes != [] && s == c.stripes[0]
  }

  lemma CopiesExact(c: Chunk, s: nat)
    ensures s in c.Copies() <==> HoldsCopy(c, s)
  {
    Bit4(c.kind);
    Bit5(c.kind);
    Bit6(c.kind);
  }

  lemma Bit4(n: nat)
    ensures n / 16 % 2 == 1 <==> n % 32 >= 16
  {
    assert n / 16 == n / 32 * 2 + n % 32 / 16;
  }

  lemma Bit5(n: nat)
    ensures n / 32 % 2 == 1 <==> n % 64 >= 32
  {
    assert n / 32 == n / 64 * 2 + n % 64 / 32;
  }

  lemma Bit6(n: nat)
    ensures n / 64 % 2 == 1 <==> n % 128 >= 64
  {
    assert n / 64 == n / 128 * 2 + n % 128 / 64;
  }

  /** `q` is a place of the logical byte `a`. */
  ghost predicate Places(entries: seq<Chunk>, a: nat, q: nat) {
    exists i, s: nat ::
      && 0 <= i < |entries| && Inside(entries[i], a)
      && HoldsCopy(entries[i], s) && q == s + (a - entries[i].logical)
  }

  /** Every byte of [lo, hi) has a chunk. */
  ghost predicate MappedRange(entries: seq<Chunk>, lo: nat, hi: nat) {
    forall a: nat :: lo <= a < hi ==> Mapped(entries, a)
  }

  /** `q` holds a byte of [lo, hi) that comes before its first byte without a chunk. */
  ghost predicate HoldsByte(img: Image, lo: nat, hi: nat, q: nat) {
    q < img.size && exists a: nat ::
      lo <= a < hi && MappedRange(img.entries, lo, a + 1) && Places(img.entries, a, q)
  }

  /** The physical bytes of the region that hold [lo, hi), as far as it is mapped. */
  ghost function Bytes(img: Image, lo: nat, hi: nat): iset<nat> {
    iset q: nat | HoldsByte(img, lo, hi, q)
  }

  /** The chunk holding `logical`, by binary search on the ends. */
  method Find(entries: seq<Chunk>, logical: nat) returns (found: Option<Chunk>)
    requires ChunksOk(entries) && logical < U64
    ensures found.Some? <==> Mapped(entries, logical)
    ensures found.Some? ==> found.value in entries && Inside(found.value, logical)
  {
    var lo, hi := 0, |entries|;
    while lo < hi
      invariant 0 <= lo <= hi <= |entries|
      invariant forall i :: 0 <= i < lo ==> entries[i].logical + entries[i].length <= logical
      invariant forall i :: hi <= i < |entries| ==> entries[i].logical + entries[i].length > logical
    {
      var mid := (lo + hi) / 2;
      assert ChunkOk(entries[mid]);
      if entries[mid].End() > logical { hi := mid; } else { lo := mid + 1; }
    }
    if lo < |entries| && entries[lo].logical <= logical {
      return Some(entries[lo]);
    }
    return None;
  }

  // --------------------------------------------------------------- tree blocks

  /** What one item or pointer of a tree block asks for. */
  datatype Action = Mark(logical: nat, length: nat) | Descend(logical: nat)

  /** Extent records, inline ones and holes excepted. */
  function FileExtent(item: seq<Byte>): seq<Action> {
    if |item| < 21 || item[20] == 0 || |item| < 37 then []
    else
      var bytenr, num := Le(item[21..29]), Le(item[29..37]);
      if bytenr == 0 || num == 0 then [] else [Mark(bytenr, num)]
  }

  function RootItem(item: seq<Byte>): seq<Action> {
    if |item| < 184 then [] else [Descend(Le(item[176..184]))]
  }

  function ItemActions(nodeSize: nat, kind: Byte, objectid: nat, offset: nat, item: seq<Byte>): seq<Action> {
    if kind == KEY_EXTENT_DATA then FileExtent(item)
    else if kind == KEY_EXTENT_ITEM then [Mark(objectid, offset)]
    else if kind == KEY_METADATA_ITEM then [Mark(objectid, nodeSize)]
    else if kind == KEY_ROOT_ITEM then RootItem(item)
    else []
  }

  /** The item whose header is at `at`, unless its data ends past the block. */
  function OneItem(nodeSize: nat, buf: seq<Byte>, at: nat): seq<Action>
    requires at + ITEM_SIZE <= |buf|
  {
    var from := HEADER_SIZE + Le(buf[at + 17..at + 21]);
    var to := from + Le(buf[at + 21..at + 25]);
    if to > |buf| then []
    else ItemActions(nodeSize, buf[at + 8], Le(buf[at..at + 8]), Le(buf[at + 9..at + 17]), buf[from..to])
  }

  /** Items `i` to `n` of a leaf, in order. */
  function LeafActions(nodeSize: nat, buf: seq<Byte>, i: nat, n: nat): seq<Action>
    decreases n - i
  {
    var at := HEADER_SIZE + i * ITEM_SIZE;
    if i >= n || at + ITEM_SIZE > |buf| then []
    else OneItem(nodeSize, buf, at) + LeafActions(nodeSize, buf, i + 1, n)
  }

  /** Pointers `i` to `n` of an inner node, in order. */
  function InnerActions(buf: seq<Byte>, i: nat, n: nat): seq<Action>
    decreases n - i
  {
    var at := HEADER_SIZE + i * KEY_PTR_SIZE;
    if i >= n || at + KEY_PTR_SIZE > |buf| then []
    else [Descend(Le(buf[at + 17..at + 25]))] + InnerActions(buf, i + 1, n)
  }

  function BlockActions(nodeSize: nat, buf: seq<Byte>): seq<Action> {
    if |buf| < HEADER_SIZE || nodeSize < HEADER_SIZE then []
    else
      var n := Le(buf[HEADER_SIZE - 5..HEADER_SIZE - 1]);
      if n > (nodeSize - HEADER_SIZE) / ITEM_SIZE then []
      else if buf[HEADER_SIZE - 1] == 0 then LeafActions(nodeSize, buf, 0, n)
      else InnerActions(buf, 0, n)
  }

  // ------------------------------------------------------ what a block means

  /** Item `i` of a leaf: its header in full, and its data, inside the block. */
  predicate ItemAt(buf: seq<Byte>, i: nat, kind: Byte, objectid: nat, offset: nat, item: seq<Byte>) {
    var at := 101 + 25 * i;
    && at + 25 <= |buf| && Le(buf[at..at + 8]) == objectid && buf[at + 8] == kind && Le(buf[at + 9..at + 17]) == offset
    && var from, size := 101 + Le(buf[at + 17..at + 21]), Le(buf[at + 21..at + 25]);
       from + size <= |buf| && item == buf[from..from + size]
  }

  /** What an item records, by its key type: an extent of a file (108) that is not inline
      and no hole, an extent (168), a tree block (169), the root of a tree (132). */
  predicate Records(nodeSize: nat, kind: Byte, objectid: nat, offset: nat, item: seq<Byte>, x: Action) {
    || (kind == 108 && |item| >= 37 && item[20] != 0 && Le(item[21..29]) > 0 && Le(item[29..37]) > 0
          && x == Mark(Le(item[21..29]), Le(item[29..37])))
    || (kind == 168 && x == Mark(objectid, offset))
    || (kind == 169 && x == Mark(objectid, nodeSize))
    || (kind == 132 && |item| >= 184 && x == Descend(Le(item[176..184])))
  }

  ghost predicate ItemRecords(nodeSize: nat, buf: seq<Byte>, i: nat, x: Action) {
    exists kind, objectid, offset, item ::
      ItemAt(buf, i, kind, objectid, offset, item) && Records(nodeSize, kind, objectid, offset, item, x)
  }

  /** Pointer `i` of an inner node. */
  predicate PointerAt(buf: seq<Byte>, i: nat, x: Action) {
    var at := 101 + 33 * i;
    at + 33 <= |buf| && x == Descend(Le(buf[at + 17..at + 25]))
  }

  /** The block has a header, and room for the `n` items or pointers it announces. */
  predicate Announces(nodeSize: nat, buf: seq<Byte>, n: nat) {
    |buf| >= 101 && nodeSize >= 101 && n == Le(buf[96..100]) && 25 * n <= nodeSize - 101
  }

  /** A block asks for `x`: one of the items of a leaf, level 0, records it, or it is one
      of the pointers of an inner node. */
  ghost predicate Asks(nodeSize: nat, buf: seq<Byte>, x: Action) {
    exists n, i: nat ::
      && Announces(nodeSize, buf, n) && i < n
      && if buf[100] == 0 then ItemRecords(nodeSize, buf, i, x) else PointerAt(buf, i, x)
  }

  lemma ItemAsks(nodeSize: nat, buf: seq<Byte>, i: nat, x: Action)
    requires 101 + 25 * i + 25 <= |buf|
    ensures x in OneItem(nodeSize, buf, 101 + 25 * i) <==> ItemRecords(nodeSize, buf, i, x)
  {
    var at := 101 + 25 * i;
    var kind, objectid, offset := buf[at + 8], Le(buf[at..at + 8]), Le(buf[at + 9..at + 17]);
    var from, size := 101 + Le(buf[at + 17..at + 21]), Le(buf[at + 21..at + 25]);
    if from + size <= |buf| {
      assert ItemAt(buf, i, kind, objectid, offset, buf[from..from + size]);
      KindRecords(nodeSize, kind, objectid, offset, buf[from..from + size], x);
    }
  }

  lemma KindRecords(nodeSize: nat, kind: Byte, objectid: nat, offset: nat, item: seq<Byte>, x: Action)
    ensures x in ItemActions(nodeSize, kind, objectid, offset, item)
       <==> Records(nodeSize, kind, objectid, offset, item, x)
  {
  }

  /** One of the items from `i` to `n` records `x`. */
  ghost predicate SomeRecords(nodeSize: nat, buf: seq<Byte>, i: nat, n: nat, x: Action) {
    exists k :: i <= k < n && ItemRecords(nodeSize, buf, k, x)
  }

  lemma {:induction false} LeafAsks(nodeSize: nat, buf: seq<Byte>, i: nat, n: nat, x: Action)
    ensures x in LeafActions(nodeSize, buf, i, n) <==> SomeRecords(nodeSize, buf, i, n, x)
    decreases n - i
  {
    MoreRecords(nodeSize, buf, i, n, x);
    if i < n {
      LeafAsks(nodeSize, buf, i + 1, n, x);
      FirstActions(nodeSize, buf, i, n, x);
    }
  }

  lemma MoreRecords(nodeSize: nat, buf: seq<Byte>, i: nat, n: nat, x: Action)
    ensures SomeRecords(nodeSize, buf, i, n, x)
       <==> i < n && (ItemRecords(nodeSize, buf, i, x) || SomeRecords(nodeSize, buf, i + 1, n, x))
  {
  }

  lemma FirstActions(nodeSize: nat, buf: seq<Byte>, i: nat, n: nat, x: Action)
    requires i < n
    ensures x in LeafActions(nodeSize, buf, i, n)
       <==> ItemRecords(nodeSize, buf, i, x) || x in LeafActions(nodeSize, buf, i + 1, n)
  {
    if 101 + 25 * i + 25 <= |buf| { ItemAsks(nodeSize, buf, i, x); }
  }

  ghost predicate SomePointer(buf: seq<Byte>, i: nat, n: nat, x: Action) {
    exists k :: i <= k < n && PointerAt(buf, k, x)
  }

  lemma {:induction false} InnerAsks(buf: seq<Byte>, i: nat, n: nat, x: Action)
    ensures x in InnerActions(buf, i, n) <==> SomePointer(buf, i, n, x)
    decreases n - i
  {
    if i < n {
      assert SomePointer(buf, i, n, x) <==> PointerAt(buf, i, x) || SomePointer(buf, i + 1, n, x);
      if 101 + 33 * i + 33 <= |buf| { InnerAsks(buf, i + 1, n, x); }
    }
  }

  lemma {:induction false} AsksAt(nodeSize: nat, buf: seq<Byte>, n: nat, x: Action)
    requires |buf| >= 101 && n == Le(buf[96..100])
    ensures Asks(nodeSize, buf, x) <==>
      nodeSize >= 101 && 25 * n <= nodeSize - 101
      && if buf[100] == 0 then SomeRecords(nodeSize, buf, 0, n, x) else SomePointer(buf, 0, n, x)
  {
    assert forall m: nat :: Announces(nodeSize, buf, m) ==> m == n;
    assert Announces(nodeSize, buf, n) <==> nodeSize >= 101 && 25 * n <= nodeSize - 101;
  }

  /** The actions of a block are those it asks for, read off field by field. */
  lemma {:induction false} BlockAsks(nodeSize: nat, buf: seq<Byte>, x: Action)
    ensures x in BlockActions(nodeSize, buf) <==> Asks(nodeSize, buf, x)
  {
    if |buf| >= 101 {
      var n := Le(buf[96..100]);
      AsksAt(nodeSize, buf, n, x);
      if buf[100] == 0 { LeafAsks(nodeSize, buf, 0, n, x); } else { InnerAsks(buf, 0, n, x); }
    }
  }

  /** The chunk holding `a`, by definition rather than by search. */
  function ChunkAt(entries: seq<Chunk>, a: nat): (r: Option<Chunk>)
    ensures r.Some? ==> r.value in entries && Inside(r.value, a)
    ensures r.None? ==> forall c :: c in entries ==> !Inside(c, a)
  {
    if entries == [] then None
    else if Inside(entries[0], a) then Some(entries[0])
    else ChunkAt(entries[1..], a)
  }

  /** The block at `logical`, read through the first stripe of its chunk. */
  function BlockRead(img: Image, logical: nat): Option<seq<Byte>> {
    match ChunkAt(img.entries, logical)
    case None => None
    case Some(c) => if c.stripes == [] then None else img.disk((c.stripes[0] + (logical - c.logical)) % U64)
  }

  /** What walking the block at `logical` leads to; nothing if it cannot be read. */
  function NodeActions(img: Image, logical: nat): seq<Action> {
    match BlockRead(img, logical)
    case None => []
    case Some(buf) => BlockActions(img.nodeSize, buf)
  }

  ghost predicate SmallActions(actions: seq<Action>) {
    forall x :: x in actions ==> x.logical < U64
  }

  lemma {:induction false} LeafSmall(nodeSize: nat, buf: seq<Byte>, i: nat, n: nat)
    ensures SmallActions(LeafActions(nodeSize, buf, i, n))
    decreases n - i
  {
    var at := HEADER_SIZE + i * ITEM_SIZE;
    if i < n && at + ITEM_SIZE <= |buf| {
      LeafSmall(nodeSize, buf, i + 1, n);
      Le64(buf[at..at + 8]);
      var from := HEADER_SIZE + Le(buf[at + 17..at + 21]);
      var to := from + Le(buf[at + 21..at + 25]);
      if to <= |buf| && |buf[from..to]| >= 37 { Le64(buf[from..to][21..29]); }
      if to <= |buf| && |buf[from..to]| >= 184 { Le64(buf[from..to][176..184]); }
    }
  }

  lemma {:induction false} InnerSmall(buf: seq<Byte>, i: nat, n: nat)
    ensures SmallActions(InnerActions(buf, i, n))
    decreases n - i
  {
    var at := HEADER_SIZE + i * KEY_PTR_SIZE;
    if i < n && at + KEY_PTR_SIZE <= |buf| {
      InnerSmall(buf, i + 1, n);
      Le64(buf[at + 17..at + 25]);
    }
  }

  /** Every address a block names fits in 64 bits. */
  lemma ActionsSmall(img: Image, v: nat)
    ensures SmallActions(NodeActions(img, v))
  {
    match BlockRead(img, v)
    case None =>
    case Some(buf) =>
      if |buf| >= HEADER_SIZE {
        var n := Le(buf[HEADER_SIZE - 5..HEADER_SIZE - 1]);
        LeafSmall(img.nodeSize, buf, 0, n);
        InnerSmall(buf, 0, n);
      }
  }

  /** `buf` is what the image holds of the block at `v`: a read through the first stripe of
      its chunk. */
  ghost predicate Holds(img: Image, v: nat, buf: seq<Byte>) {
    exists i: nat :: i < |img.entries| && ReadsFrom(img, img.entries[i], v, buf)
  }

  predicate ReadsFrom(img: Image, c: Chunk, v: nat, buf: seq<Byte>) {
    && c.logical <= v < c.logical + c.length && c.stripes != []
    && img.disk((c.stripes[0] + (v - c.logical)) % U64) == Some(buf)
  }

  lemma Apart(entries: seq<Chunk>, i: nat, j: nat, v: nat)
    requires ChunksOk(entries) && i < j < |entries|
    ensures !(Inside(entries[i], v) && Inside(entries[j], v))
  {
    assert entries[i].logical + entries[i].length <= entries[j].logical;
  }

  lemma OneChunk(entries: seq<Chunk>, i: nat, j: nat, v: nat)
    requires ChunksOk(entries) && i < |entries| && j < |entries| && Inside(entries[i], v) && Inside(entries[j], v)
    ensures i == j
  {
    if i < j { Apart(entries, i, j, v); }
    if j < i { Apart(entries, j, i, v); }
  }

  lemma ReadExact(img: Image, v: nat, buf: seq<Byte>)
    requires ChunksOk(img.entries)
    ensures BlockRead(img, v) == Some(buf) <==> Holds(img, v, buf)
  {
    var found := ChunkAt(img.entries, v);
    if i: nat :| i < |img.entries| && ReadsFrom(img, img.entries[i], v, buf) {
      assert Inside(img.entries[i], v);
      var j: nat :| j < |img.entries| && img.entries[j] == found.value;
      OneChunk(img.entries, i, j, v);
    }
    if BlockRead(img, v) == Some(buf) { assert ReadsFrom(img, found.value, v, buf); }
  }

  /** Walking the block at `v` leads to what the block asks for. */
  lemma {:induction false} NodeAsks(img: Image, v: nat, x: Action)
    requires ChunksOk(img.entries)
    ensures x in NodeActions(img, v) <==> exists buf :: Holds(img, v, buf) && Asks(img.nodeSize, buf, x)
  {
    var read := BlockRead(img, v);
    if read.Some? {
      ReadExact(img, v, read.value);
      BlockAsks(img.nodeSize, read.value, x);
    }
    if buf :| Holds(img, v, buf) && Asks(img.nodeSize, buf, x) { ReadExact(img, v, buf); }
  }
}
