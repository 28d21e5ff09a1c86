/** Copying the used part of a device, and coarsening the bitmap it is copied by. */
module FsMirror {
  import opened Common
  import opened FsBitmaps

  /** The target of a copy: the bytes written so far, by offset. */
  class Store {
    var bytes: map<nat, Byte>

    constructor ()
      ensures bytes == map[]
    {
      bytes := map[];
    }

    method WriteAt(buf: seq<Byte>, off: nat)
      modifies this
      ensures bytes == old(bytes) + Placed(buf, off)
    {
      bytes := bytes + Placed(buf, off);
    }
  }

  function Placed(buf: seq<Byte>, off: nat): (m: map<nat, Byte>)
    ensures forall k :: k in m <==> off <= k < off + |buf|
    ensures forall k :: k in m ==> m[k] == buf[k - off]
  {
    var span := Span(off, off + |buf|);
    map k | k in span :: buf[k - off]
  }

  /** A positional read: what the device holds from `off` on, at most `n` bytes. */
  function ReadAt(origin: seq<Byte>, off: nat, n: nat): seq<Byte> {
    if off >= |origin| then [] else if off + n <= |origin| then origin[off..off + n] else origin[off..]
  }

  /** Byte `k` of the origin lies in a used block. */
  predicate Wanted(segs: Segments, size: int, origin: seq<Byte>, k: nat) {
    k < |origin| && size > 0 && Has(segs, k / size)
  }

  function WantedSet(segs: Segments, size: int, origin: seq<Byte>): set<nat> {
    set k | 0 <= k < |origin| && Wanted(segs, size, origin, k)
  }

  function WantedBelow(segs: Segments, size: int, origin: seq<Byte>, top: nat): set<nat> {
    set k | 0 <= k < |origin| && Wanted(segs, size, origin, k) && k < top
  }

  /** `after` is `before` with every wanted byte below `top` copied, and no other. */
  ghost predicate CopiedBelow(
    segs: Segments, size: int, origin: seq<Byte>, before: map<nat, Byte>, after: map<nat, Byte>, top: nat)
  {
    forall k: nat ::
      if k < top && Wanted(segs, size, origin, k) then k in after && after[k] == origin[k]
      else (k in after <==> k in before) && (k in before ==> after[k] == before[k])
  }

  // ----------------------------------------------------------------- counting

  lemma {:induction false} SpanSize(lo: nat, hi: nat)
    requires lo <= hi
    ensures |Span(lo, hi)| == hi - lo
    decreases hi - lo
  {
    if lo < hi {
      SpanSize(lo, hi - 1);
      assert Span(lo, hi) == Span(lo, hi - 1) + {hi - 1};
    } else {
      assert Span(lo, hi) == {};
    }
  }

  /** Growing the frontier over bytes that are all wanted adds their number. */
  lemma {:induction false} WantedGrows(segs: Segments, size: int, origin: seq<Byte>, lo: nat, hi: nat)
    requires lo <= hi <= |origin| && forall k: nat :: lo <= k < hi ==> Wanted(segs, size, origin, k)
    ensures |WantedBelow(segs, size, origin, hi)| == |WantedBelow(segs, size, origin, lo)| + (hi - lo)
  {
    SpanSize(lo, hi);
    assert WantedBelow(segs, size, origin, hi) == WantedBelow(segs, size, origin, lo) + Span(lo, hi);
    assert WantedBelow(segs, size, origin, lo) !! Span(lo, hi);
  }

  /** Moving the frontier over bytes that are not wanted changes nothing. */
  lemma {:induction false} FrontierMoves(
    segs: Segments, size: int, origin: seq<Byte>, before: map<nat, Byte>, after: map<nat, Byte>, lo: nat, hi: nat)
    requires lo <= hi && forall k: nat :: lo <= k < hi ==> !Wanted(segs, size, origin, k)
    requires CopiedBelow(segs, size, origin, before, after, lo)
    ensures CopiedBelow(segs, size, origin, before, after, hi)
    ensures WantedBelow(segs, size, origin, hi) == WantedBelow(segs, size, origin, lo)
  {
  }

  // ------------------------------------------------------------------- mirror

  /** Bytes of a run of used blocks are wanted. */
  lemma {:induction false} RunWanted(segs: Segments, size: nat, origin: seq<Byte>, runStart: nat, runEnd: nat)
    requires size > 0 && forall b: nat :: runStart <= b < runEnd ==> Has(segs, b)
    ensures forall k: nat :: runStart * size <= k < runEnd * size && k < |origin| ==> Wanted(segs, size, origin, k)
  {
    forall k: nat | runStart * size <= k < runEnd * size && k < |origin| ensures Wanted(segs, size, origin, k) {
      BlocksIn(k, size, runStart, runEnd);
    }
  }

  /** Bytes of blocks that are not used are not wanted. */
  lemma {:induction false} GapUnwanted(segs: Segments, size: nat, origin: seq<Byte>, lo: nat, hi: nat)
    requires size > 0 && forall b: nat :: lo <= b < hi ==> !Has(segs, b)
    ensures forall k: nat :: lo * size <= k < hi * size ==> !Wanted(segs, size, origin, k)
  {
    forall k: nat | lo * size <= k < hi * size ensures !Wanted(segs, size, origin, k) {
      BlocksIn(k, size, lo, hi);
    }
  }

  lemma {:induction false} PlacedCopies(
    segs: Segments, size: int, origin: seq<Byte>, before: map<nat, Byte>, prior: map<nat, Byte>, lo: nat, hi: nat)
    requires lo <= hi <= |origin| && forall k: nat :: lo <= k < hi ==> Wanted(segs, size, origin, k)
    requires CopiedBelow(segs, size, origin, before, prior, lo)
    ensures CopiedBelow(segs, size, origin, before, prior + Placed(origin[lo..hi], lo), hi)
  {
  }

  /** The length of a chunk; what is left after it. */
  function ChunkBytes(blocks: nat, chunk: nat, size: nat): (n: nat)
    requires 0 < chunk <= blocks && size > 0
    ensures 0 < n <= blocks * size && blocks * size == n + (blocks - chunk) * size
  {
    Scale(1, chunk, size);
    Blocks(chunk, blocks - chunk, size);
    chunk * size
  }

  /** How the device operations at one offset fare: a failing write may have written the
      first bytes of its buffer. */
  datatype Fate = Fine | ReadError | WriteError(written: nat)

  /** The most a failed operation has written. */
  function Leftover(fate: Fate): nat {
    match fate case WriteError(written) => written case _ => 0
  }

  /** `lo` begins a run of used blocks that goes on to `b`, and `b` begins a chunk of it. */
  ghost predicate Begins(segs: Segments, lo: nat, b: nat) {
    lo <= b && (b - lo) % 1024 == 0 && (lo == 0 || !Has(segs, lo - 1)) && forall x: nat :: lo <= x <= b ==> Has(segs, x)
  }

  ghost predicate ChunkStart(segs: Segments, b: nat) {
    exists lo :: Begins(segs, lo, b)
  }

  /** The device was fine at every chunk below block `top` that begins inside the origin. */
  ghost predicate AllFine(segs: Segments, size: nat, origin: seq<Byte>, fates: nat -> Fate, top: nat) {
    forall b: nat :: b < top && ChunkStart(segs, b) && b * size < |origin| ==> fates(b * size).Fine?
  }

  /** A device failed at `at`: where a chunk begins, or, when the origin ends before a run
      does, at its end. */
  ghost predicate FailedAt(segs: Segments, size: nat, origin: seq<Byte>, fates: nat -> Fate, at: nat) {
    && !fates(at).Fine? && size > 0 && Has(segs, at / size)
    && ((exists b: nat :: ChunkStart(segs, b) && at == b * size) || at == |origin|)
  }

  /** Writes the bytes of the origin from `offset`, all of them wanted. */
  method CopyChunk(origin: seq<Byte>, target: Store, buf: seq<Byte>, offset: nat,
                   ghost segs: Segments, ghost size: nat, ghost before: map<nat, Byte>)
    requires offset + |buf| <= |origin| && buf == origin[offset..offset + |buf|]
    requires forall k: nat :: offset <= k < offset + |buf| ==> Wanted(segs, size, origin, k)
    requires CopiedBelow(segs, size, origin, before, target.bytes, offset)
    modifies target
    ensures CopiedBelow(segs, size, origin, before, target.bytes, offset + |buf|)
    ensures |WantedBelow(segs, size, origin, offset + |buf|)| == |WantedBelow(segs, size, origin, offset)| + |buf|
  {
    WantedGrows(segs, size, origin, offset, offset + |buf|);
    PlacedCopies(segs, size, origin, before, target.bytes, offset, offset + |buf|);
    target.WriteAt(buf, offset);
  }

  /** Copies the used blocks [runStart, runEnd) in chunks; `before` is what the target
      held when the mirror began. After a failure the bytes below `at` are counted and
      those below `reached` copied. */
  method CopyRun(bm: FsBitmap, origin: seq<Byte>, target: Store, runStart: nat, runEnd: nat, fates: nat -> Fate,
                 ghost before: map<nat, Byte>) returns (ok: bool, copied: nat, ghost at: nat, ghost reached: nat)
    requires bm.blockSize > 0 && runStart <= runEnd && (runStart == 0 || !Has(bm.segments, runStart - 1))
    requires forall b: nat :: runStart <= b < runEnd ==> Has(bm.segments, b)
    requires CopiedBelow(bm.segments, bm.blockSize, origin, before, target.bytes, runStart * bm.blockSize)
    requires AllFine(bm.segments, bm.blockSize, origin, fates, runStart)
    modifies target
    ensures at <= reached && (ok ==> at == reached == runEnd * bm.blockSize)
    ensures if ok then AllFine(bm.segments, bm.blockSize, origin, fates, runEnd)
            else FailedAt(bm.segments, bm.blockSize, origin, fates, at) && reached <= at + Leftover(fates(at))
    ensures CopiedBelow(bm.segments, bm.blockSize, origin, before, target.bytes, reached)
    ensures copied + |WantedBelow(bm.segments, bm.blockSize, origin, runStart * bm.blockSize)|
         == |WantedBelow(bm.segments, bm.blockSize, origin, at)|
  {
    var size: nat := bm.blockSize;
    RunWanted(bm.segments, size, origin, runStart, runEnd);
    Blocks(runStart, runEnd - runStart, size);
    ok, copied, at, reached :=
      CopyBlocks(origin, target, runStart * size, runEnd - runStart, size, fates, runEnd * size, bm.segments, before);
    if ok {
      RunFine(bm.segments, size, origin, fates, runStart, runEnd);
    } else {
      RunFailed(bm.segments, size, origin, fates, runStart, runEnd, at);
    }
  }

  /** The chunks of a run of `blocks` blocks from `first` on are those its blocks 0, 1024
      and so on begin. */
  ghost predicate RunAllFine(size: nat, origin: seq<Byte>, fates: nat -> Fate, first: nat, blocks: nat) {
    forall b: nat :: b < blocks && b % 1024 == 0 && first + b * size < |origin| ==> fates(first + b * size).Fine?
  }

  ghost predicate RunFailedAt(size: nat, origin: seq<Byte>, fates: nat -> Fate, first: nat, blocks: nat, at: nat) {
    && !fates(at).Fine? && first <= at < first + blocks * size
    && ((exists b: nat :: b < blocks && b % 1024 == 0 && at == first + b * size) || at == |origin|)
  }

  /** In a run no other chunks begin. */
  lemma OnlyRun(segs: Segments, lo: nat, hi: nat, b: nat)
    requires lo <= b < hi && (lo == 0 || !Has(segs, lo - 1)) && forall x: nat :: lo <= x < hi ==> Has(segs, x)
    ensures ChunkStart(segs, b) <==> (b - lo) % 1024 == 0
  {
    if (b - lo) % 1024 == 0 { assert Begins(segs, lo, b); }
    if from: nat :| Begins(segs, from, b) {
      if from < lo { assert false; }
      if from > lo { assert false; }
    }
  }

  lemma {:induction false} RunFine(segs: Segments, size: nat, origin: seq<Byte>, fates: nat -> Fate, lo: nat, hi: nat)
    requires lo <= hi && (lo == 0 || !Has(segs, lo - 1)) && forall x: nat :: lo <= x < hi ==> Has(segs, x)
    requires AllFine(segs, size, origin, fates, lo) && RunAllFine(size, origin, fates, lo * size, hi - lo)
    ensures AllFine(segs, size, origin, fates, hi)
  {
    forall b: nat | b < hi && ChunkStart(segs, b) && b * size < |origin| ensures fates(b * size).Fine? {
      if b >= lo { StartFine(segs, size, origin, fates, lo, hi, b); }
    }
  }

  lemma {:induction false} StartFine(
    segs: Segments, size: nat, origin: seq<Byte>, fates: nat -> Fate, lo: nat, hi: nat, b: nat)
    requires lo <= b < hi && (lo == 0 || !Has(segs, lo - 1)) && forall x: nat :: lo <= x < hi ==> Has(segs, x)
    requires RunAllFine(size, origin, fates, lo * size, hi - lo) && ChunkStart(segs, b) && b * size < |origin|
    ensures fates(b * size).Fine?
  {
    OnlyRun(segs, lo, hi, b);
    Blocks(lo, b - lo, size);
  }

  lemma {:induction false} RunFailed(
    segs: Segments, size: nat, origin: seq<Byte>, fates: nat -> Fate, lo: nat, hi: nat, at: nat)
    requires lo <= hi && (lo == 0 || !Has(segs, lo - 1)) && forall x: nat :: lo <= x < hi ==> Has(segs, x)
    requires size > 0 && RunFailedAt(size, origin, fates, lo * size, hi - lo, at)
    ensures FailedAt(segs, size, origin, fates, at)
  {
    Blocks(lo, hi - lo, size);
    BlocksIn(at, size, lo, hi);
    if at != |origin| {
      var b: nat :| b < hi - lo && b % 1024 == 0 && at == lo * size + b * size;
      Blocks(lo, b, size);
      OnlyRun(segs, lo, hi, lo + b);
      assert ChunkStart(segs, lo + b) && at == (lo + b) * size;
    }
  }

  /** The loop of it, over bytes: `blocks` blocks from `first`, up to `last`. */
  method CopyBlocks(origin: seq<Byte>, target: Store, first: nat, blocks: nat, size: nat, fates: nat -> Fate,
                    ghost last: nat, ghost segs: Segments, ghost before: map<nat, Byte>)
    returns (ok: bool, copied: nat, ghost at: nat, ghost reached: nat)
    requires size > 0 && last == first + blocks * size
    requires forall k: nat :: first <= k < last && k < |origin| ==> Wanted(segs, size, origin, k)
    requires CopiedBelow(segs, size, origin, before, target.bytes, first)
    modifies target
    ensures at <= reached && (ok ==> at == reached == last)
    ensures CopiedBelow(segs, size, origin, before, target.bytes, reached)
    ensures copied + |WantedBelow(segs, size, origin, first)| == |WantedBelow(segs, size, origin, at)|
    ensures if ok then RunAllFine(size, origin, fates, first, blocks)
            else RunFailedAt(size, origin, fates, first, blocks, at) && reached <= at + Leftover(fates(at))
  {
    var offset: nat, remaining: nat := first, blocks;
    copied := 0;
    while remaining > 0
      invariant first <= offset <= last
      invariant Progress(size, origin, fates, first, blocks, offset, remaining)
      invariant CopiedBelow(segs, size, origin, before, target.bytes, offset)
      invariant copied + |WantedBelow(segs, size, origin, first)| == |WantedBelow(segs, size, origin, offset)|
      decreases remaining
    {
      var n;
      ok, n, remaining, reached :=
        CopyNext(origin, target, offset, remaining, size, fates, first, blocks, last, segs, before);
      if !ok {
        return false, copied, offset, reached;
      }
      if n == 0 {
        break;
      }
      copied, offset := copied + n, offset + n;
    }
    FrontierMoves(segs, size, origin, before, target.bytes, offset, last);
    return true, copied, last, last;
  }

  /** The chunk at `offset`. */
  method CopyNext(origin: seq<Byte>, target: Store, offset: nat, remaining: nat, size: nat, fates: nat -> Fate,
                  ghost first: nat, ghost blocks: nat, ghost last: nat, ghost segs: Segments, ghost before: map<nat, Byte>)
    returns (ok: bool, n: nat, left: nat, ghost reached: nat)
    requires size > 0 && remaining > 0 && last == first + blocks * size && first <= offset
    requires Progress(size, origin, fates, first, blocks, offset, remaining)
    requires forall k: nat :: first <= k < last && k < |origin| ==> Wanted(segs, size, origin, k)
    requires CopiedBelow(segs, size, origin, before, target.bytes, offset)
    modifies target
    ensures offset <= reached && CopiedBelow(segs, size, origin, before, target.bytes, reached)
    ensures !ok ==> RunFailedAt(size, origin, fates, first, blocks, offset) && reached <= offset + Leftover(fates(offset))
    ensures ok ==>
      && reached == offset + n <= last && left < remaining
      && |WantedBelow(segs, size, origin, offset + n)| == |WantedBelow(segs, size, origin, offset)| + n
      && if n > 0 then Progress(size, origin, fates, first, blocks, offset + n, left)
         else |origin| <= offset && RunAllFine(size, origin, fates, first, blocks)
  {
    ProgressLeft(size, origin, fates, first, blocks, offset, remaining);
    ok, n, left, reached := CopyTurn(origin, target, offset, remaining, size, fates(offset), last, segs, before);
    if !ok {
      ProgressFails(size, origin, fates, first, blocks, offset, remaining);
    } else if n == 0 {
      RestFine(size, origin, fates, first, blocks, offset, remaining);
    } else {
      ProgressMore(size, origin, fates, first, blocks, offset, remaining, n);
      ProgressLeft(size, origin, fates, first, blocks, offset + n, left);
    }
  }

  /** `remaining` blocks of the run are left, whole chunks done; `offset` is where the next
      begins, or the end of an origin that ends before. */
  ghost predicate Progress(
    size: nat, origin: seq<Byte>, fates: nat -> Fate, first: nat, blocks: nat, offset: nat, remaining: nat)
  {
    && remaining <= blocks && (remaining == 0 || (blocks - remaining) % 1024 == 0)
    && (offset == first + (blocks - remaining) * size || (offset == |origin| && offset < first + (blocks - remaining) * size))
    && RunAllFine(size, origin, fates, first, blocks - remaining)
  }

  /** What is left lies before the end of the run, and reaches it unless the origin ends. */
  lemma {:induction false} ProgressLeft(
    size: nat, origin: seq<Byte>, fates: nat -> Fate, first: nat, blocks: nat, offset: nat, remaining: nat)
    requires Progress(size, origin, fates, first, blocks, offset, remaining)
    ensures offset <= first + blocks * size
    ensures offset + remaining * size == first + blocks * size || |origin| <= offset
  {
    Blocks(blocks - remaining, remaining, size);
  }

  lemma {:induction false} ProgressFails(
    size: nat, origin: seq<Byte>, fates: nat -> Fate, first: nat, blocks: nat, offset: nat, remaining: nat)
    requires size > 0 && remaining > 0 && first <= offset && !fates(offset).Fine?
    requires Progress(size, origin, fates, first, blocks, offset, remaining)
    ensures RunFailedAt(size, origin, fates, first, blocks, offset)
  {
    Blocks(blocks - remaining, remaining, size);
    Scale(1, remaining, size);
  }

  /** One more chunk was fine, or begins past the end of the origin. */
  lemma {:induction false} ChunkFine(
    size: nat, origin: seq<Byte>, fates: nat -> Fate, first: nat, done: nat, next: nat, offset: nat)
    requires done % 1024 == 0 && done <= next <= done + 1024 && RunAllFine(size, origin, fates, first, done)
    requires offset < |origin| ==> fates(offset).Fine? && offset == first + done * size
    requires |origin| <= offset ==> offset <= first + done * size
    ensures RunAllFine(size, origin, fates, first, next)
  {
    forall b: nat | b < next && b % 1024 == 0 && first + b * size < |origin| ensures fates(first + b * size).Fine? {
      if b >= done { assert b == done; }
    }
  }

  /** At the end of the origin the rest was fine. */
  lemma {:induction false} RestFine(
    size: nat, origin: seq<Byte>, fates: nat -> Fate, first: nat, blocks: nat, offset: nat, remaining: nat)
    requires |origin| <= offset && Progress(size, origin, fates, first, blocks, offset, remaining)
    ensures RunAllFine(size, origin, fates, first, blocks)
  {
    forall b: nat | b < blocks && b % 1024 == 0 && first + b * size < |origin| ensures fates(first + b * size).Fine? {
      if b >= blocks - remaining { Scale(blocks - remaining, b, size); }
    }
  }

  function AfterChunk(remaining: nat): nat {
    if remaining > 1024 then remaining - 1024 else 0
  }

  lemma {:induction false} ProgressMore(
    size: nat, origin: seq<Byte>, fates: nat -> Fate, first: nat, blocks: nat, offset: nat, remaining: nat, n: nat)
    requires remaining > 0 && Progress(size, origin, fates, first, blocks, offset, remaining)
    requires offset < |origin| && fates(offset).Fine?
    requires var bytes := (remaining - AfterChunk(remaining)) * size;
      n == bytes || (offset + n == |origin| && n < bytes)
    ensures Progress(size, origin, fates, first, blocks, offset + n, AfterChunk(remaining))
  {
    var left, done := AfterChunk(remaining), blocks - remaining;
    Blocks(done, remaining - left, size);
    ChunkFine(size, origin, fates, first, done, blocks - left, offset);
  }

  /** One turn: `n` bytes read and written, `left` blocks to go; none at the end of the
      origin. */
  method CopyTurn(origin: seq<Byte>, target: Store, offset: nat, remaining: nat, size: nat, fate: Fate,
                  ghost last: nat, ghost segs: Segments, ghost before: map<nat, Byte>)
    returns (ok: bool, n: nat, left: nat, ghost reached: nat)
    requires size > 0 && remaining > 0 && (offset + remaining * size == last || |origin| <= offset)
    requires forall k: nat :: offset <= k < last && k < |origin| ==> Wanted(segs, size, origin, k)
    requires CopiedBelow(segs, size, origin, before, target.bytes, offset)
    modifies target
    ensures offset <= reached && CopiedBelow(segs, size, origin, before, target.bytes, reached)
    ensures ok <==> !fate.ReadError? && (|origin| <= offset || fate.Fine?)
    ensures !ok ==> reached <= offset + Leftover(fate)
    ensures ok ==>
      && left == AfterChunk(remaining)
      && (n == (remaining - left) * size || (offset + n == |origin| && n < (remaining - left) * size) || n == 0)
      && reached == offset + n && (n == 0 <==> |origin| <= offset)
      && |WantedBelow(segs, size, origin, offset + n)| == |WantedBelow(segs, size, origin, offset)| + n
  {
    var chunkBlocks := if remaining > MAX_CHUNK_BLOCKS then MAX_CHUNK_BLOCKS else remaining;
    if fate.ReadError? { return false, 0, remaining, offset; }
    var buf := ReadAt(origin, offset, ChunkBytes(remaining, chunkBlocks, size));
    n, left := |buf|, remaining - chunkBlocks;
    ok, reached := TryCopy(origin, target, buf, offset, fate, segs, size, before);
  }

  /** A write that may fail: what it has written of the chunk is copied. An empty chunk is
      not written. */
  method TryCopy(origin: seq<Byte>, target: Store, buf: seq<Byte>, offset: nat, fate: Fate,
                 ghost segs: Segments, ghost size: nat, ghost before: map<nat, Byte>)
    returns (ok: bool, ghost reached: nat)
    requires buf != [] ==> offset + |buf| <= |origin| && buf == origin[offset..offset + |buf|]
    requires forall k: nat :: offset <= k < offset + |buf| ==> Wanted(segs, size, origin, k)
    requires CopiedBelow(segs, size, origin, before, target.bytes, offset)
    modifies target
    ensures offset <= reached && CopiedBelow(segs, size, origin, before, target.bytes, reached)
    ensures ok <==> buf == [] || !fate.WriteError?
    ensures reached == offset + if ok || Leftover(fate) >= |buf| then |buf| else Leftover(fate)
    ensures |WantedBelow(segs, size, origin, offset + |buf|)| == |WantedBelow(segs, size, origin, offset)| + |buf|
  {
    ok := buf == [] || !fate.WriteError?;
    if buf == [] { return ok, offset; }
    WantedGrows(segs, size, origin, offset, offset + |buf|);
    var n := if fate.WriteError? && fate.written < |buf| then fate.written else |buf|;
    CopyChunk(origin, target, buf[..n], offset, segs, size, before);
    return ok, offset + n;
  }

  /** MirrorFs copies exactly the used data: afterwards the target equals the origin
      on every byte of a used block that the origin has, is untouched elsewhere, and
      the count returned is the number of those bytes. If a device fails the same holds
      below `reached`, nothing above it is touched, and the count is that of the bytes
      below `at`, the start of the chunk that failed. */
  method MirrorFs(bm: FsBitmap, roaring: Roaring, origin: seq<Byte>, target: Store, fates: nat -> Fate)
    returns (ok: bool, total: nat, ghost at: nat, ghost reached: nat)
    requires bm.Valid() && bm.blockSize >= 0 && RoaringOk(roaring)
    modifies target
    ensures ok ==> at == reached == |origin|
    ensures at <= reached && CopiedBelow(bm.segments, bm.blockSize, origin, old(target.bytes), target.bytes, reached)
    ensures total == |WantedBelow(bm.segments, bm.blockSize, origin, at)|
    ensures ok ==> total == |WantedSet(bm.segments, bm.blockSize, origin)|
    ensures bm.blockSize > 0 && bm.bits > 0 && ok ==> AllFine(bm.segments, bm.blockSize, origin, fates, bm.bits)
    ensures !ok ==> FailedAt(bm.segments, bm.blockSize, origin, fates, at) && reached <= at + Leftover(fates(at))
  {
    ghost var before, segs := target.bytes, bm.segments;
    total := 0;
    var pos: nat := 0;
    assert WantedBelow(segs, bm.blockSize, origin, 0) == {};
    while pos < bm.bits
      invariant CopiedBelow(segs, bm.blockSize, origin, before, target.bytes, pos * bm.blockSize)
      invariant total == |WantedBelow(segs, bm.blockSize, origin, pos * bm.blockSize)|
      invariant pos == 0 || !Has(segs, pos)
      invariant bm.blockSize > 0 ==> AllFine(segs, bm.blockSize, origin, fates, pos)
    {
      var copied;
      ok, copied, pos, at, reached := MirrorTurn(bm, roaring, origin, target, pos, fates, before);
      total := total + copied;
      if !ok { return; }
    }
    MirrorDone(segs, bm.bits, bm.blockSize, origin, before, target.bytes, pos);
    return true, total, |origin|, |origin|;
  }

  /** One turn: skips the unused blocks from `pos` and copies the run behind them; `next`
      is the end of that run, or of the bitmap. */
  method MirrorTurn(bm: FsBitmap, roaring: Roaring, origin: seq<Byte>, target: Store, pos: nat, fates: nat -> Fate,
                    ghost before: map<nat, Byte>)
    returns (ok: bool, copied: nat, next: nat, ghost at: nat, ghost reached: nat)
    requires bm.Valid() && bm.blockSize >= 0 && RoaringOk(roaring) && pos < bm.bits
    requires CopiedBelow(bm.segments, bm.blockSize, origin, before, target.bytes, pos * bm.blockSize)
    requires pos == 0 || !Has(bm.segments, pos)
    requires bm.blockSize > 0 ==> AllFine(bm.segments, bm.blockSize, origin, fates, pos)
    modifies target
    ensures !ok ==> FailedAt(bm.segments, bm.blockSize, origin, fates, at) && reached <= at + Leftover(fates(at))
    ensures ok ==> !Has(bm.segments, next) && (bm.blockSize > 0 ==> AllFine(bm.segments, bm.blockSize, origin, fates, next))
    ensures pos < next && at <= reached && (ok ==> at == reached == next * bm.blockSize)
    ensures CopiedBelow(bm.segments, bm.blockSize, origin, before, target.bytes, reached)
    ensures copied + |WantedBelow(bm.segments, bm.blockSize, origin, pos * bm.blockSize)|
         == |WantedBelow(bm.segments, bm.blockSize, origin, at)|
  {
    var size: nat := bm.blockSize;
    var runStart := bm.NextSetBit(roaring, pos);
    if size > 0 {
      GapUnwanted(bm.segments, size, origin, pos, runStart);
      Scale(pos, runStart, size);
      FrontierMoves(bm.segments, size, origin, before, target.bytes, pos * size, runStart * size);
    }
    GapFine(bm.segments, size, origin, fates, pos, runStart);
    NothingAbove(bm.segments, bm.bits, bm.bits);
    if runStart >= bm.bits { return true, 0, runStart, runStart * size, runStart * size; }
    next := bm.NextClearBit(roaring, runStart);
    if size == 0 { return true, 0, next, 0, 0; }
    ok, copied, at, reached := CopyRun(bm, origin, target, runStart, next, fates, before);
  }

  lemma StartUsed(segs: Segments, b: nat)
    ensures ChunkStart(segs, b) ==> Has(segs, b)
  {
    if lo: nat :| Begins(segs, lo, b) {}
  }

  /** No chunk begins in a gap. */
  lemma GapFine(segs: Segments, size: nat, origin: seq<Byte>, fates: nat -> Fate, lo: nat, hi: nat)
    requires lo <= hi && forall b: nat :: lo <= b < hi ==> !Has(segs, b)
    ensures AllFine(segs, size, origin, fates, lo) ==> AllFine(segs, size, origin, fates, hi)
  {
    forall b: nat | lo <= b < hi ensures !ChunkStart(segs, b) { StartUsed(segs, b); }
  }

  lemma MirrorDone(
    segs: Segments, bits: int, size: nat, origin: seq<Byte>, before: map<nat, Byte>, after: map<nat, Byte>, pos: nat)
    requires SegmentsOk(segs, bits) && pos >= bits
    requires CopiedBelow(segs, size, origin, before, after, pos * size)
    ensures CopiedBelow(segs, size, origin, before, after, |origin|)
    ensures WantedBelow(segs, size, origin, pos * size) == WantedSet(segs, size, origin)
    ensures WantedBelow(segs, size, origin, |origin|) == WantedSet(segs, size, origin)
  {
    var top := pos * size;
    forall k: nat | k >= top ensures !Wanted(segs, size, origin, k) {
      NothingWantedAbove(segs, bits, size, origin, pos, k);
    }
    FrontierPassed(segs, size, origin, before, after, top);
  }

  lemma NothingWantedAbove(segs: Segments, bits: int, size: nat, origin: seq<Byte>, pos: nat, k: nat)
    requires SegmentsOk(segs, bits) && pos >= bits && k >= pos * size
    ensures !Wanted(segs, size, origin, k)
  {
    if size > 0 {
      var b := k / size;
      BlockOf(k, size, b);
      if b < pos { Scale(b + 1, pos, size); }
      NothingAbove(segs, bits, b);
    }
  }

  lemma {:induction false} FrontierPassed(
    segs: Segments, size: int, origin: seq<Byte>, before: map<nat, Byte>, after: map<nat, Byte>, top: nat)
    requires forall k: nat :: k >= top ==> !Wanted(segs, size, origin, k)
    requires CopiedBelow(segs, size, origin, before, after, top)
    ensures CopiedBelow(segs, size, origin, before, after, |origin|)
    ensures WantedBelow(segs, size, origin, top) == WantedSet(segs, size, origin)
  {
  }

  // --------------------------------------------------------------- coarsening

  /** Changing the block size loses no used data, and adds only bytes that share a
      coarse block with a used one. */
  lemma CoarserKeepsData(before: Segments, after: Segments, size: nat, ratio: nat, origin: seq<Byte>, k: nat)
    requires size > 0 && ratio > 0 && Regrouped(before, after, ratio)
    ensures Wanted(before, size, origin, k) ==> Wanted(after, size * ratio, origin, k)
    ensures Wanted(after, size * ratio, origin, k) ==>
      exists b: nat :: Has(before, b) && b / ratio == k / size / ratio
  {
    CoarseBlock(k, size, ratio);
  }
}
