/** The used-block bitmap of a file system.

    Set bits live in segments of 2^32 values, one compressed set per segment; the
    compressed sets are plain sets here, and the two searches the code asks of the
    compression library are parameters with contracts. The contract of the search
    for an absent value is the weak one the code allows for: any value below the
    starting point may come back. */
module FsBitmaps {

  const SEGMENT: nat := 0x1_0000_0000
  const MAX_CHUNK_BLOCKS: nat := 1024

  type Segments = map<nat, set<nat>>

  /** Bit `b` is set. */
  predicate Has(segs: Segments, b: nat) {
    b / SEGMENT in segs && b % SEGMENT in segs[b / SEGMENT]
  }

  /** No empty segment is kept, and no bit at or above `bits` is set. */
  ghost predicate SegmentsOk(segs: Segments, bits: int) {
    forall i :: i in segs ==>
      segs[i] != {} && forall v :: v in segs[i] ==> v < SEGMENT && i * SEGMENT + v < bits
  }

  // ------------------------------------------------------ the search contracts

  datatype Roaring = Roaring(nextValue: (set<nat>, nat) -> int, nextAbsent: (set<nat>, nat) -> int)

  /** The least element from `lo` on, or a negative value. */
  ghost predicate NextValueOk(seg: set<nat>, lo: nat, v: int) {
    if v < 0 then forall u :: u in seg ==> u < lo
    else v in seg && lo <= v && forall u :: u in seg && lo <= u ==> v <= u
  }

  /** From `lo` on it is right; below `lo` nothing is promised. */
  ghost predicate NextAbsentWeak(seg: set<nat>, lo: nat, v: int) {
    if lo <= v < SEGMENT then v !in seg && forall u :: lo <= u < v ==> u in seg
    else if 0 <= v < lo then true
    else forall u :: lo <= u < SEGMENT ==> u in seg
  }

  ghost predicate RoaringOk(r: Roaring) {
    && (forall seg: set<nat>, lo: nat :: NextValueOk(seg, lo, r.nextValue(seg, lo)))
    && (forall seg: set<nat>, lo: nat :: lo < SEGMENT ==> NextAbsentWeak(seg, lo, r.nextAbsent(seg, lo)))
  }

  // ------------------------------------------------------------------- ranges

  lemma Split(b: nat)
    ensures b == b / SEGMENT * SEGMENT + b % SEGMENT && b % SEGMENT < SEGMENT
  {
  }

  lemma Join(i: nat, v: nat)
    requires v < SEGMENT
    ensures (i * SEGMENT + v) / SEGMENT == i && (i * SEGMENT + v) % SEGMENT == v
  {
  }

  lemma NothingAbove(segs: Segments, bits: int, b: nat)
    requires SegmentsOk(segs, bits) && b >= bits
    ensures !Has(segs, b)
  {
  }

  predicate Between(v: int, lo: nat, hi: nat) {
    lo <= v < hi
  }

  function Span(lo: nat, hi: nat): set<nat> {
    set v | lo <= v < hi && Between(v, lo, hi)
  }

  class FsBitmap {
    var bits: int
    var blockSize: int
    var segments: Segments

    ghost predicate Valid()
      reads this
    {
      SegmentsOk(segments, bits)
    }

    constructor (numBits: int, size: int)
      ensures Valid() && bits == numBits && blockSize == size && forall b: nat :: !Has(segments, b)
    {
      bits, blockSize, segments := numBits, size, map[];
    }

    /** Sets one bit; a bit outside the bitmap is ignored. */
    method Set(b: nat)
      requires Valid()
      modifies this`segments
      ensures Valid()
      ensures forall x: nat :: Has(segments, x) <==> old(Has(segments, x)) || (x == b && b < bits)
    {
      if bits <= 0 || b >= bits { return; }
      AddBitHas(segments, bits, b);
      segments := AddBit(segments, b);
    }

    /** Sets exactly the bits of [start, end). */
    method AddRange(start: nat, end: nat)
      requires Valid() && end <= bits
      modifies this`segments
      ensures Valid()
      ensures forall b: nat :: Has(segments, b) <==> old(Has(segments, b)) || start <= b < end
    {
      var at := start;
      while at < end
        invariant start <= at && (at <= end || at == start)
        invariant Valid()
        invariant forall b: nat :: Has(segments, b) <==> old(Has(segments, b)) || start <= b < at
      {
        var idx := at / SEGMENT;
        var segStart := idx * SEGMENT;
        var hi := if end > segStart + SEGMENT then segStart + SEGMENT else end;
        var seg := if idx in segments then segments[idx] else {};
        ghost var before := segments;
        segments := segments[idx := seg + Span(at - segStart, hi - segStart)];
        SegmentGrown(before, segments, bits, idx, at, hi);
        at := hi;
      }
    }

    /** Clears exactly the bits of [start, end). */
    method RemoveRange(start: nat, end: nat)
      requires Valid() && end <= bits
      modifies this`segments
      ensures Valid()
      ensures forall b: nat :: Has(segments, b) <==> old(Has(segments, b)) && !(start <= b < end)
    {
      var at := start;
      while at < end
        invariant start <= at && (at <= end || at == start)
        invariant Valid()
        invariant forall b: nat :: Has(segments, b) <==> old(Has(segments, b)) && !(start <= b < at)
      {
        var idx := at / SEGMENT;
        var segStart := idx * SEGMENT;
        var hi := if end > segStart + SEGMENT then segStart + SEGMENT else end;
        ghost var before := segments;
        if idx in segments {
          var seg := segments[idx] - Span(at - segStart, hi - segStart);
          segments := if seg == {} then segments - {idx} else segments[idx := seg];
        }
        SegmentCut(before, segments, idx, at, hi);
        at := hi;
      }
    }

    /** The first set bit from `from` on, or `bits`. */
    method NextSetBit(roaring: Roaring, from: int) returns (r: int)
      requires Valid() && RoaringOk(roaring)
      ensures bits <= 0 ==> r == bits
      ensures bits > 0 ==> (from <= r || r == bits) && 0 <= r <= bits
      ensures 0 <= r < bits ==> Has(segments, r)
      ensures forall b: nat :: from <= b < r ==> !Has(segments, b)
    {
      var start := if from < 0 then 0 else from;
      if bits <= 0 || start >= bits { return bits; }
      var lastIdx := (bits - 1) / SEGMENT;
      var lo := start % SEGMENT;
      var idx := start / SEGMENT;
      while idx <= lastIdx
        invariant start / SEGMENT <= idx <= lastIdx + 1
        invariant lo == if idx == start / SEGMENT then start % SEGMENT else 0
        invariant forall b: nat :: start <= b && b / SEGMENT < idx ==> !Has(segments, b)
      {
        if idx in segments {
          var v := roaring.nextValue(segments[idx], lo);
          assert NextValueOk(segments[idx], lo, v);
          if v >= 0 {
            Join(idx, v);
            r := idx * SEGMENT + v;
            forall b: nat | start <= b < r ensures !Has(segments, b) { Split(b); }
            return;
          }
        }
        forall b: nat | start <= b && b / SEGMENT == idx ensures !Has(segments, b) { Split(b); }
        lo := 0;
        idx := idx + 1;
      }
      return bits;
    }

    /** The first clear bit from `from` on, or `bits`; right even where the library's
        search is not. */
    method NextClearBit(roaring: Roaring, from: int) returns (r: int)
      requires Valid() && RoaringOk(roaring)
      ensures bits <= 0 ==> r == bits
      ensures bits > 0 ==> (from <= r || r == bits) && 0 <= r <= bits
      ensures 0 <= r < bits ==> !Has(segments, r)
      ensures forall b: nat :: from <= b < r ==> Has(segments, b)
    {
      var start := if from < 0 then 0 else from;
      if bits <= 0 || start >= bits { return bits; }
      var lastIdx := (bits - 1) / SEGMENT;
      var lo := start % SEGMENT;
      var idx := start / SEGMENT;
      while idx <= lastIdx
        invariant start / SEGMENT <= idx <= lastIdx + 1
        invariant lo == if idx == start / SEGMENT then start % SEGMENT else 0
        invariant forall b: nat :: start <= b && b / SEGMENT < idx ==> Has(segments, b)
      {
        var segStart := idx * SEGMENT;
        if idx !in segments {
          r := if start > segStart then start else segStart;
          return;
        }
        var v := roaring.nextAbsent(segments[idx], lo);
        assert NextAbsentWeak(segments[idx], lo, v);
        if 0 <= v < lo {
          v := ScanAbsent(segments[idx], lo);
        }
        if lo <= v < SEGMENT {
          Join(idx, v);
          r := segStart + v;
          forall b: nat | start <= b < r ensures Has(segments, b) { Split(b); }
          if r >= bits { r := bits; }
          return;
        }
        forall b: nat | start <= b && b / SEGMENT == idx ensures Has(segments, b) { Split(b); }
        lo := 0;
        idx := idx + 1;
      }
      forall b: nat | start <= b < bits ensures Has(segments, b) {}
      return bits;
    }

    /** Regroups the blocks by a multiple of the block size. */
    method ChangeBlockSize(size: int) returns (ok: bool)
      requires Valid()
      modifies this
      ensures Valid()
      ensures ok <==> size > 0 && old(blockSize) > 0 && size % old(blockSize) == 0
      ensures !ok ==> bits == old(bits) && blockSize == old(blockSize) && segments == old(segments)
      ensures ok ==> blockSize == size && Regrouped(old(segments), segments, size / old(blockSize))
      ensures ok && old(bits) <= 0 ==> bits == old(bits)
      ensures ok && old(bits) > 0 ==> (bits - 1) * (size / old(blockSize)) < old(bits) <= bits * (size / old(blockSize))
    {
      if size <= 0 || blockSize <= 0 { return false; }
      RatioFacts(size, blockSize);
      if size == blockSize {
        SameGroups(segments);
        return true;
      }
      if size < blockSize { return false; }
      if size % blockSize != 0 { return false; }
      var ratio: nat := size / blockSize;
      if bits <= 0 {
        forall b: nat ensures !Has(segments, b) { NothingAbove(segments, bits, b); }
        blockSize := size;
        return true;
      }
      var newBits := (bits + ratio - 1) / ratio;
      FewestBlocks(bits, ratio);
      var segs := Coarsen(segments, bits, ratio);
      segments, bits, blockSize := segs, newBits, size;
      return true;
    }
  }

  /** A coarse bit is set exactly when one of the bits it covers was. */
  ghost predicate Regrouped(before: Segments, after: Segments, ratio: int)
    requires ratio > 0
  {
    && (forall b: nat :: Has(before, b) ==> Has(after, b / ratio))
    && (forall c: nat :: Has(after, c) ==> exists b: nat :: Has(before, b) && b / ratio == c)
  }

  // --------------------------------------------------------------- coarsening

  lemma RatioFacts(size: int, block: int)
    requires size > 0 && block > 0
    ensures size < block ==> size % block != 0
    ensures size == block ==> size % block == 0 && size / block == 1
    ensures size > block ==> size / block > 0
  {
  }

  lemma FewestBlocks(bits: nat, ratio: nat)
    requires bits > 0 && ratio > 0
    ensures ((bits + ratio - 1) / ratio - 1) * ratio < bits <= (bits + ratio - 1) / ratio * ratio
  {
  }

  lemma SameGroups(segs: Segments)
    ensures Regrouped(segs, segs, 1)
  {
  }

  function AddBit(segs: Segments, b: nat): Segments {
    segs[b / SEGMENT := (if b / SEGMENT in segs then segs[b / SEGMENT] else {}) + {b % SEGMENT}]
  }

  lemma AddBitHas(segs: Segments, bits: int, b: nat)
    requires SegmentsOk(segs, bits) && b < bits
    ensures SegmentsOk(AddBit(segs, b), bits)
    ensures forall x: nat :: Has(AddBit(segs, b), x) <==> Has(segs, x) || x == b
  {
  }

  /** `segs` holds exactly the coarse images of the bits in `done`. */
  ghost predicate Coarse(segs: Segments, done: set<nat>, ratio: nat)
    requires ratio > 0
  {
    && (forall b :: b in done ==> Has(segs, b / ratio))
    && (forall c: nat :: Has(segs, c) ==> exists b :: b in done && b / ratio == c)
  }

  lemma CoarseStep(segs: Segments, bits: int, done: set<nat>, ratio: nat, b: nat)
    requires ratio > 0 && SegmentsOk(segs, bits) && b / ratio < bits && Coarse(segs, done, ratio)
    ensures SegmentsOk(AddBit(segs, b / ratio), bits) && Coarse(AddBit(segs, b / ratio), done + {b}, ratio)
  {
    AddBitHas(segs, bits, b / ratio);
    var more := done + {b};
    forall c: nat | Has(AddBit(segs, b / ratio), c) ensures exists d :: d in more && d / ratio == c {
      if c == b / ratio {
        assert b in more;
      } else {
        var d :| d in done && d / ratio == c;
        assert d in more;
      }
    }
  }

  lemma CoarseBound(b: nat, bits: int, ratio: nat)
    requires ratio > 0 && b < bits
    ensures b / ratio < (bits + ratio - 1) / ratio
  {
  }

  /** Adds the coarse image of one whole segment. */
  method CoarsenSegment(segs: Segments, idx: nat, seg: set<nat>, ratio: nat, ghost bits: int, ghost done: set<nat>)
    returns (r: Segments, ghost seen: set<nat>)
    requires ratio > 0
    requires forall v :: v in seg ==> v < SEGMENT && idx * SEGMENT + v < bits
    requires SegmentsOk(segs, (bits + ratio - 1) / ratio) && Coarse(segs, done, ratio)
    ensures SegmentsOk(r, (bits + ratio - 1) / ratio) && Coarse(r, seen, ratio)
    ensures forall b: nat :: b in seen <==> b in done || (b / SEGMENT == idx && b % SEGMENT in seg)
  {
    r, seen := segs, done;
    var vals := seg;
    while vals != {}
      invariant vals <= seg && SegmentsOk(r, (bits + ratio - 1) / ratio) && Coarse(r, seen, ratio)
      invariant forall b: nat :: b in seen <==>
                  b in done || (b / SEGMENT == idx && b % SEGMENT in seg && b % SEGMENT !in vals)
      decreases vals
    {
      var v: nat :| v in vals;
      var b := idx * SEGMENT + v;
      Join(idx, v);
      CoarseBound(b, bits, ratio);
      CoarseStep(r, (bits + ratio - 1) / ratio, seen, ratio, b);
      r := AddBit(r, b / ratio);
      ghost var prior := seen;
      seen := seen + {b};
      forall x: nat ensures x in seen <==>
        x in done || (x / SEGMENT == idx && x % SEGMENT in seg && x % SEGMENT !in vals - {v}) { Split(x); }
      vals := vals - {v};
    }
  }

  /** The segments of the coarser bitmap. */
  method Coarsen(segments: Segments, bits: int, ratio: nat) returns (segs: Segments)
    requires ratio > 0 && SegmentsOk(segments, bits)
    ensures SegmentsOk(segs, (bits + ratio - 1) / ratio) && Regrouped(segments, segs, ratio)
  {
    var keys := segments.Keys;
    segs := map[];
    ghost var done: set<nat> := {};
    while keys != {}
      invariant keys <= segments.Keys
      invariant SegmentsOk(segs, (bits + ratio - 1) / ratio) && Coarse(segs, done, ratio)
      invariant forall b: nat :: b in done <==> Has(segments, b) && b / SEGMENT !in keys
      decreases keys
    {
      var idx: nat :| idx in keys;
      segs, done := CoarsenSegment(segs, idx, segments[idx], ratio, bits, done);
      keys := keys - {idx};
    }
  }

  /** The fallback: walk the values from `lo` up to the first hole. */
  method ScanAbsent(seg: set<nat>, lo: nat) returns (v: int)
    requires lo < SEGMENT
    ensures lo <= v <= SEGMENT && NextAbsentWeak(seg, lo, v)
  {
    v := lo;
    while v < SEGMENT && v in seg
      invariant lo <= v <= SEGMENT && forall u :: lo <= u < v ==> u in seg
    {
      v := v + 1;
    }
  }

  lemma SegmentGrown(before: Segments, after: Segments, bits: int, idx: nat, at: nat, hi: nat)
    requires SegmentsOk(before, bits) && idx == at / SEGMENT
    requires at < hi <= bits && hi <= idx * SEGMENT + SEGMENT
    requires after == before[idx := (if idx in before then before[idx] else {})
                                    + Span(at - idx * SEGMENT, hi - idx * SEGMENT)]
    ensures SegmentsOk(after, bits)
    ensures forall b: nat :: Has(after, b) <==> Has(before, b) || at <= b < hi
  {
    assert at - idx * SEGMENT in after[idx];
    forall b: nat ensures Has(after, b) <==> Has(before, b) || at <= b < hi { Split(b); }
  }

  lemma {:induction false} SegmentCut(before: Segments, after: Segments, idx: nat, at: nat, hi: nat)
    requires idx == at / SEGMENT && at < hi <= idx * SEGMENT + SEGMENT
    requires after == if idx !in before then before
                      else var seg := before[idx] - Span(at - idx * SEGMENT, hi - idx * SEGMENT);
                           if seg == {} then before - {idx} else before[idx := seg]
    ensures forall b: nat :: Has(after, b) <==> Has(before, b) && !(at <= b < hi)
  {
    forall b: nat ensures Has(after, b) <==> Has(before, b) && !(at <= b < hi) {
      Split(b);
      if b / SEGMENT == idx && idx in before {
        var seg := before[idx] - Span(at - idx * SEGMENT, hi - idx * SEGMENT);
        assert b % SEGMENT in seg <==> b % SEGMENT in before[idx] && !(at <= b < hi);
      }
    }
  }
}
