/** Marking physical and logical ranges in the bitmap.

    `MarkedWith` is exact: the blocks set are those set before and those holding one
    of the given physical bytes. */
module BtrfsWalker {
  import opened Common
  import opened FsBitmaps
  import opened BtrfsImage

  // ------------------------------------------------------------------ marking

  ghost predicate Covered(size: nat, bytes: iset<nat>, b: nat)
    requires size > 0
  {
    exists q: nat :: q in bytes && q / size == b
  }

  /** Exactly the blocks holding a byte of `bytes` were added, within the bitmap. */
  ghost predicate MarkedWith(before: Segments, after: Segments, bits: int, size: nat, bytes: iset<nat>)
    requires size > 0
  {
    forall b: nat :: Has(after, b) <==> Has(before, b) || (b < bits && Covered(size, bytes, b))
  }

  lemma MarkedTrans(a: Segments, b: Segments, c: Segments, bits: int, size: nat, x: iset<nat>, y: iset<nat>)
    requires size > 0 && MarkedWith(a, b, bits, size, x) && MarkedWith(b, c, bits, size, y)
    ensures MarkedWith(a, c, bits, size, x + y)
  {
  }

  lemma MarkedNothing(a: Segments, bits: int, size: nat)
    requires size > 0
    ensures MarkedWith(a, a, bits, size, iset{})
  {
  }

  predicate InRegion(img: Image, p: nat, n: nat, q: nat) {
    p <= q < p + n && q < img.size
  }

  ghost function Physical(img: Image, p: nat, n: nat): iset<nat> {
    iset q: nat | InRegion(img, p, n, q)
  }

  /** Number of blocks needed for the first `n` bytes. */
  function CeilDiv(n: nat, size: nat): nat
    requires size > 0
  {
    if n % size != 0 then n / size + 1 else n / size
  }

  lemma CeilBound(n: nat, size: nat, b: nat)
    requires size > 0
    ensures b < CeilDiv(n, size) <==> b * size < n
  {
    var q := n / size;
    assert n == q * size + n % size;
    if b < q { Scale(b + 1, q, size); }
    if b > q { Scale(q + 1, b, size); }
  }

  /** A block between the first byte's and the last byte's holds one of the bytes. */
  lemma BlockHit(size: nat, p: nat, end: nat, b: nat) returns (q: nat)
    requires size > 0 && p < end && BlockAt(p, size) <= b && b * size < end
    ensures p <= q < end && q / size == b
  {
    var first := BlockAt(p, size);
    q := p;
    if first < b {
      Scale(first + 1, b, size);
      q := b * size;
      BlockOf(q, size, b);
    }
  }

  lemma BlockBetween(size: nat, p: nat, q: nat, b: nat)
    requires size > 0 && p <= q && q / size == b
    ensures BlockAt(p, size) <= b && b * size <= q
  {
    var first := BlockAt(p, size);
    BlockOf(q, size, b);
    if first > b { Scale(b + 1, first, size); }
  }

  /** The blocks from the first byte's up to the last byte's are those hit. */
  lemma BlockRange(img: Image, p: nat, n: nat, b: nat)
    requires img.nodeSize > 0 && n > 0 && p < img.size
    ensures var end := if p + n > img.size then img.size else p + n;
      BlockAt(p, img.nodeSize) <= b < CeilDiv(end, img.nodeSize) <==> Covered(img.nodeSize, Physical(img, p, n), b)
  {
    var end := if p + n > img.size then img.size else p + n;
    CeilBound(end, img.nodeSize, b);
    if BlockAt(p, img.nodeSize) <= b < CeilDiv(end, img.nodeSize) {
      var q := BlockHit(img.nodeSize, p, end, b);
      assert q in Physical(img, p, n);
    }
    if Covered(img.nodeSize, Physical(img, p, n), b) {
      var q: nat :| q in Physical(img, p, n) && q / img.nodeSize == b;
      BlockBetween(img.nodeSize, p, q, b);
    }
  }

  /** The length after clipping to the region, in 64-bit arithmetic. */
  function Clip(img: Image, p: nat, n: nat): nat {
    if p + n > img.size then (U64 + img.size - p) % U64 else n
  }

  lemma ClipEnd(img: Image, p: nat, n: nat)
    requires ImageOk(img) && p + n < U64
    ensures (p + Clip(img, p, n)) % U64 == if p + n > img.size then img.size else p + n
  {
  }

  lemma MarkHits(img: Image, p: nat, n: nat, b: nat)
    requires ImageOk(img) && p + n < U64 && n > 0 && AsInt64(p) < img.size
    ensures BlockAt(p, img.nodeSize) <= b < CeilDiv((p + Clip(img, p, n)) % U64, img.nodeSize)
       <==> Covered(img.nodeSize, Physical(img, p, n), b)
  {
    ClipEnd(img, p, n);
    if p < img.size {
      BlockRange(img, p, n, b);
    } else {
      HighStart(img, p);
    }
  }

  /** Sets the blocks [start, end), one by one. */
  method MarkBlocks(bm: FsBitmap, start: nat, end: nat)
    requires bm.Valid()
    modifies bm`segments
    ensures bm.Valid()
    ensures forall x: nat :: Has(bm.segments, x) <==> old(Has(bm.segments, x)) || (start <= x < end && x < bm.bits)
  {
    var b := start;
    while b < end
      invariant start <= b && (b <= end || b == start) && bm.Valid()
      invariant forall x: nat :: Has(bm.segments, x) <==> old(Has(bm.segments, x)) || (start <= x < b && x < bm.bits)
    {
      bm.Set(b);
      b := b + 1;
    }
  }

  /** Marks the blocks of a physical range, clipped to the region. */
  method MarkPhysical(bm: FsBitmap, img: Image, physical: nat, length: nat)
    requires bm.Valid() && ImageOk(img) && physical + length < U64
    modifies bm`segments
    ensures bm.Valid()
    ensures MarkedWith(old(bm.segments), bm.segments, bm.bits, img.nodeSize, Physical(img, physical, length))
  {
    if length == 0 || AsInt64(physical) >= img.size {
      assert Physical(img, physical, length) == iset{};
      return;
    }
    var len := Clip(img, physical, length);
    MarkBlocks(bm, BlockAt(physical, img.nodeSize), CeilDiv((physical + len) % U64, img.nodeSize));
    MarkDone(old(bm.segments), bm.segments, bm.bits, img, physical, length);
  }

  lemma {:induction false} MarkDone(before: Segments, after: Segments, bits: int, img: Image, p: nat, n: nat)
    requires ImageOk(img) && p + n < U64 && n > 0 && AsInt64(p) < img.size
    requires var start, end := BlockAt(p, img.nodeSize), CeilDiv((p + Clip(img, p, n)) % U64, img.nodeSize);
      forall x: nat :: Has(after, x) <==> Has(before, x) || (start <= x < end && x < bits)
    ensures MarkedWith(before, after, bits, img.nodeSize, Physical(img, p, n))
  {
    forall x: nat
      ensures Has(after, x) <==> Has(before, x) || (x < bits && Covered(img.nodeSize, Physical(img, p, n), x))
    {
      MarkHits(img, p, n, x);
    }
  }

  /** The signed reading of a 64-bit offset. */
  function AsInt64(x: nat): int {
    if x >= U64 / 2 then x - U64 else x
  }

  /** An offset that reads as negative starts past the last block of the region. */
  lemma HighStart(img: Image, p: nat)
    requires ImageOk(img) && p >= U64 / 2
    ensures BlockAt(p, img.nodeSize) >= CeilDiv(img.size, img.nodeSize)
  {
    CeilBound(img.size, img.nodeSize, BlockAt(p, img.nodeSize));
  }

  // ----------------------------------------------------------- logical ranges

  /** The bytes of `n` bytes at offset `off` of a chunk, on the first `k` copies. */
  ghost predicate OnCopies(img: Image, c: Chunk, off: nat, n: nat, k: nat, q: nat)
    requires k <= |c.Copies()|
  {
    exists i :: 0 <= i < k && InRegion(img, c.Copies()[i] + off, n, q)
  }

  ghost function CopyBytes(img: Image, c: Chunk, off: nat, n: nat, k: nat): iset<nat>
    requires k <= |c.Copies()|
  {
    iset q: nat | OnCopies(img, c, off, n, k, q)
  }

  lemma CopyBytesStep(img: Image, c: Chunk, off: nat, n: nat, k: nat)
    requires k < |c.Copies()|
    ensures CopyBytes(img, c, off, n, k + 1) == CopyBytes(img, c, off, n, k) + Physical(img, c.Copies()[k] + off, n)
  {
  }

  method MarkCopies(bm: FsBitmap, img: Image, c: Chunk, off: nat, n: nat)
    requires bm.Valid() && ImageOk(img) && ChunkOk(c) && off + n <= c.length
    modifies bm`segments
    ensures bm.Valid()
    ensures MarkedWith(old(bm.segments), bm.segments, bm.bits, img.nodeSize, CopyBytes(img, c, off, n, |c.Copies()|))
  {
    var copies := c.Copies();
    ghost var before := bm.segments;
    var k := 0;
    assert CopyBytes(img, c, off, n, 0) == iset{};
    MarkedNothing(before, bm.bits, img.nodeSize);
    while k < |copies|
      invariant 0 <= k <= |copies| && bm.Valid()
      invariant MarkedWith(before, bm.segments, bm.bits, img.nodeSize, CopyBytes(img, c, off, n, k))
    {
      ghost var prior := bm.segments;
      assert copies[k] in c.stripes;
      MarkPhysical(bm, img, copies[k] + off, n);
      MarkedTrans(before, prior, bm.segments, bm.bits, img.nodeSize,
                  CopyBytes(img, c, off, n, k), Physical(img, copies[k] + off, n));
      CopyBytesStep(img, c, off, n, k);
      k := k + 1;
    }
  }

  /** A byte of the chunk `c` is placed exactly on the copies of `c`. */
  lemma PlacesInChunk(entries: seq<Chunk>, c: Chunk, a: nat, q: nat)
    requires ChunksOk(entries) && c in entries && Inside(c, a)
    ensures Places(entries, a, q) <==> exists i :: 0 <= i < |c.Copies()| && q == c.Copies()[i] + (a - c.logical)
  {
    var j :| 0 <= j < |entries| && entries[j] == c;
    if Places(entries, a, q) {
      var i, s: nat :| && 0 <= i < |entries| && Inside(entries[i], a)
                  && HoldsCopy(entries[i], s) && q == s + (a - entries[i].logical);
      assert i == j;
      CopiesExact(c, s);
    }
    if i :| 0 <= i < |c.Copies()| && q == c.Copies()[i] + (a - c.logical) {
      CopiesExact(c, c.Copies()[i]);
      assert HoldsCopy(entries[j], c.Copies()[i]);
    }
  }

  /** One chunk's worth of a range: the bytes of [lo, cur + n) are those of
      [lo, cur) and the copies of the `n` bytes at `cur`. */
  lemma BytesGrow(img: Image, c: Chunk, lo: nat, cur: nat, n: nat)
    requires ImageOk(img) && c in img.entries && lo <= cur && MappedRange(img.entries, lo, cur)
    requires c.logical <= cur && cur + n <= c.logical + c.length
    ensures MappedRange(img.entries, lo, cur + n)
    ensures Bytes(img, lo, cur + n)
         == Bytes(img, lo, cur) + CopyBytes(img, c, cur - c.logical, n, |c.Copies()|)
  {
    forall a: nat | cur <= a < cur + n ensures Mapped(img.entries, a) {
      assert Inside(c, a);
    }
    var grown, parts := Bytes(img, lo, cur + n), Bytes(img, lo, cur) + CopyBytes(img, c, cur - c.logical, n, |c.Copies()|);
    forall q: nat ensures q in grown <==> q in parts { GrownExact(img, c, lo, cur, n, q); }
    assert grown == parts;
  }

  lemma GrownExact(img: Image, c: Chunk, lo: nat, cur: nat, n: nat, q: nat)
    requires ImageOk(img) && c in img.entries && lo <= cur && MappedRange(img.entries, lo, cur + n)
    requires c.logical <= cur && cur + n <= c.logical + c.length
    ensures HoldsByte(img, lo, cur + n, q)
       <==> HoldsByte(img, lo, cur, q) || OnCopies(img, c, cur - c.logical, n, |c.Copies()|, q)
  {
    if HoldsByte(img, lo, cur + n, q) { GrownFrom(img, c, lo, cur, n, q); }
    if HoldsByte(img, lo, cur, q) { HoldsMore(img, lo, cur, cur + n, q); }
    if OnCopies(img, c, cur - c.logical, n, |c.Copies()|, q) { GrownTo(img, c, lo, cur, n, q); }
  }

  lemma HoldsMore(img: Image, lo: nat, hi: nat, more: nat, q: nat)
    requires hi <= more && HoldsByte(img, lo, hi, q)
    ensures HoldsByte(img, lo, more, q)
  {
  }

  lemma GrownFrom(img: Image, c: Chunk, lo: nat, cur: nat, n: nat, q: nat)
    requires ImageOk(img) && c in img.entries && lo <= cur
    requires c.logical <= cur && cur + n <= c.logical + c.length
    requires HoldsByte(img, lo, cur + n, q)
    ensures HoldsByte(img, lo, cur, q) || OnCopies(img, c, cur - c.logical, n, |c.Copies()|, q)
  {
    var a: nat :| lo <= a < cur + n && MappedRange(img.entries, lo, a + 1) && Places(img.entries, a, q);
    if a >= cur {
      PlacesInChunk(img.entries, c, a, q);
      var i :| 0 <= i < |c.Copies()| && q == c.Copies()[i] + (a - c.logical);
    }
  }

  lemma GrownTo(img: Image, c: Chunk, lo: nat, cur: nat, n: nat, q: nat)
    requires ImageOk(img) && c in img.entries && lo <= cur && MappedRange(img.entries, lo, cur + n)
    requires c.logical <= cur && cur + n <= c.logical + c.length
    requires OnCopies(img, c, cur - c.logical, n, |c.Copies()|, q)
    ensures HoldsByte(img, lo, cur + n, q)
  {
    var i :| 0 <= i < |c.Copies()| && InRegion(img, c.Copies()[i] + (cur - c.logical), n, q);
    var a := q - c.Copies()[i] + c.logical;
    PlacesInChunk(img.entries, c, a, q);
    assert lo <= a < cur + n && MappedRange(img.entries, lo, a + 1);
  }

  /** Past the first unmapped byte nothing is added. */
  lemma BytesStop(img: Image, lo: nat, cur: nat, hi: nat)
    requires lo <= cur <= hi && (cur == hi || !Mapped(img.entries, cur))
    ensures Bytes(img, lo, hi) == Bytes(img, lo, cur)
  {
  }

  /** Marks the blocks of a logical range, chunk by chunk, giving up at the first
      byte without a chunk. */
  method MarkLogicalRange(bm: FsBitmap, img: Image, logical: nat, length: nat)
    requires bm.Valid() && ImageOk(img) && logical < U64
    modifies bm`segments
    ensures bm.Valid()
    ensures MarkedWith(old(bm.segments), bm.segments, bm.bits, img.nodeSize, Bytes(img, logical, logical + length))
  {
    ghost var before := bm.segments;
    var remain: nat, cur: nat := length, logical;
    assert Bytes(img, logical, logical) == iset{};
    MarkedNothing(before, bm.bits, img.nodeSize);
    while remain > 0
      invariant logical <= cur < U64 && cur + remain == logical + length && bm.Valid()
      invariant MappedRange(img.entries, logical, cur)
      invariant MarkedWith(before, bm.segments, bm.bits, img.nodeSize, Bytes(img, logical, cur))
      decreases remain
    {
      var ce := Find(img.entries, cur);
      if ce.None? {
        BytesStop(img, logical, cur, logical + length);
        return;
      }
      var c := ce.value;
      assert ChunkOk(c);
      var avail := c.End() - cur;
      var n := if remain > avail then avail else remain;
      MarkPiece(bm, img, c, logical, cur, n, before);
      cur := cur + n;
      remain := remain - n;
    }
    assert cur == logical + length;
  }

  /** One turn: the `n` bytes at `cur`, which lie in the chunk `c`. */
  method MarkPiece(bm: FsBitmap, img: Image, c: Chunk, ghost lo: nat, cur: nat, n: nat, ghost before: Segments)
    requires bm.Valid() && ImageOk(img) && c in img.entries && ChunkOk(c)
    requires c.logical <= cur && cur + n <= c.logical + c.length && lo <= cur && MappedRange(img.entries, lo, cur)
    requires MarkedWith(before, bm.segments, bm.bits, img.nodeSize, Bytes(img, lo, cur))
    modifies bm`segments
    ensures bm.Valid() && MappedRange(img.entries, lo, cur + n)
    ensures MarkedWith(before, bm.segments, bm.bits, img.nodeSize, Bytes(img, lo, cur + n))
  {
    ghost var prior := bm.segments;
    MarkCopies(bm, img, c, cur - c.logical, n);
    BytesGrow(img, c, lo, cur, n);
    MarkedTrans(before, prior, bm.segments, bm.bits, img.nodeSize,
                Bytes(img, lo, cur), CopyBytes(img, c, cur - c.logical, n, |c.Copies()|));
  }
}
