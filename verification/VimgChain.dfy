/** The logical disk of a backing chain, as values: `chain[0]` is the image itself,
    the rest its backing images. The meaning of a chain is what `ReadCluster` gives
    for every cluster, or equally `ByteAt` for every byte. */
module VimgChain {
  import opened Common
  import opened VimgCodec
  import opened VimgLayer

  ghost predicate ChainOk(chain: seq<Layer>) {
    && |chain| > 0
    && forall i :: 0 <= i < |chain| ==> LayerOk(chain[i]) && chain[i].clusterSize == chain[0].clusterSize
  }

  predicate SameSizes(chain: seq<Layer>) {
    forall i :: 0 <= i < |chain| ==> chain[i].clusterSize == chain[0].clusterSize
  }

  predicate InRange(l: Layer, c: nat) {
    c * l.clusterSize < l.virtualSize
  }

  lemma InRangeSmall(l: Layer, c: nat)
    requires Sized(l) && InRange(l, c)
    ensures c < U64
  {
  }

  /** The number of clusters in range, the last of them possibly cut. */
  function TotalClusters(size: nat, cluster: nat): (n: nat)
    requires cluster > 0
    ensures forall c: nat :: c < n <==> c * cluster < size
  {
    var n := BlockAt(size, cluster) + if size % cluster != 0 then 1 else 0;
    forall c: nat ensures c < n <==> c * cluster < size {
      CountedClusters(size, cluster, c);
    }
    n
  }

  lemma CountedClusters(size: nat, cluster: nat, c: nat)
    requires cluster > 0
    ensures c < size / cluster + (if size % cluster != 0 then 1 else 0) <==> c * cluster < size
  {
    var q := BlockAt(size, cluster);
    assert size == q * cluster + size % cluster;
    if c < q { Scale(c + 1, q, cluster); } else { Scale(q, c, cluster); if c > q { Scale(q + 1, c, cluster); } }
  }

  function AsRead(f: Found): Option<Bytes>
    requires !f.Missing?
  {
    if f.Got? then Some(f.bytes) else None
  }

  /** Cluster `c` of the disk; None is a read error. */
  function ReadCluster(chain: seq<Layer>, c: nat): (r: Option<Bytes>)
    requires |chain| > 0 && SameSizes(chain)
    ensures r.Some? ==> |r.value| == chain[0].clusterSize
    decreases |chain|
  {
    var l := chain[0];
    if !InRange(l, c) then Some(Zeros(l.clusterSize))
    else
      var f := ReadLocal(l, c);
      if !f.Missing? then AsRead(f)
      else Below(chain, c)
  }

  /** What the chain holds below its first image. */
  function Below(chain: seq<Layer>, c: nat): (r: Option<Bytes>)
    requires |chain| > 0 && SameSizes(chain)
    ensures r.Some? ==> |r.value| == chain[0].clusterSize
    decreases |chain|, 0
  {
    if |chain| == 1 then Some(Zeros(chain[0].clusterSize))
    else
      assert chain[1..][0] == chain[1];
      ReadCluster(chain[1..], c)
  }

  /** Byte `k` of the disk. */
  function ByteAt(chain: seq<Layer>, k: nat): Option<Byte>
    requires |chain| > 0 && SameSizes(chain) && chain[0].clusterSize > 0
  {
    var r := ReadCluster(chain, k / chain[0].clusterSize);
    if r.Some? then Some(r.value[k % chain[0].clusterSize]) else None
  }

  // -------------------------------------------------------------------- owners

  /** The depth of the layer a read takes cluster `c` from, or -1 for zeros. */
  function Owner(chain: seq<Layer>, c: nat): (d: int)
    requires |chain| > 0
    ensures -1 <= d < |chain|
    decreases |chain|
  {
    if !InRange(chain[0], c) then -1
    else if c in Replay(chain[0].idx) then 0
    else if |chain| == 1 then -1
    else var d := Owner(chain[1..], c); if d < 0 then -1 else d + 1
  }

  /** The owner is where the bytes come from; without one they are zeros. */
  lemma {:induction false} OwnerReads(chain: seq<Layer>, c: nat)
    requires |chain| > 0 && SameSizes(chain)
    ensures var d := Owner(chain, c);
      if d < 0 then ReadCluster(chain, c) == Some(Zeros(chain[0].clusterSize))
      else !ReadLocal(chain[d], c).Missing? && ReadCluster(chain, c) == AsRead(ReadLocal(chain[d], c))
    decreases |chain|
  {
    if InRange(chain[0], c) && c !in Replay(chain[0].idx) && |chain| > 1 {
      assert chain[1..][0] == chain[1];
      OwnerReads(chain[1..], c);
    }
  }

  // ------------------------------------------------------------- one new layer

  /** `after` is `before` with cluster `c` overwritten by `buf`. */
  ghost predicate Overwrites(before: Layer, after: Layer, c: nat, buf: Bytes) {
    && LayerOk(after) && Whole(after) && SameShape(before, after) && |buf| == before.clusterSize
    && ReadLocal(after, c) == Back(before, c, buf)
    && forall d :: d != c ==> ReadLocal(after, d) == ReadLocal(before, d)
  }

  ghost predicate SameShape(a: Layer, b: Layer) {
    b == a.(data := b.data, idx := b.idx)
  }

  /** Of the chain, only the files of the first image have changed, and they have grown. */
  ghost predicate Grown(before: seq<Layer>, after: seq<Layer>) {
    && |after| == |before| > 0 && after == before[0 := after[0]] && SameShape(before[0], after[0])
    && before[0].data <= after[0].data && before[0].idx <= after[0].idx
  }

  /** Appending a cluster overwrites it, and enters it into the index. */
  lemma AppendOverwrites(l: Layer, c: nat, buf: Bytes, nonce: Bytes)
    requires LayerOk(l) && Whole(l) && c < U64 && |buf| == l.clusterSize && |nonce| == NONCE && Room(l, c, buf, nonce)
    ensures Overwrites(l, Append(l, c, buf, nonce), c, buf)
    ensures Replay(Append(l, c, buf, nonce).idx)
         == Replay(l.idx)[c := Entry(c, |l.data|, |Encode(l.codec, c, buf, nonce)|)]
  {
    AppendReads(l, c, buf, nonce);
    AppendIndex(l, c, buf, nonce);
  }

  /** What an image reads after `buf` was written to one of its clusters. */
  function Rewritten(l: Layer, c: nat, buf: Bytes): Option<Bytes>
    requires |buf| == l.clusterSize
  {
    AsRead(Back(l, c, buf))
  }

  lemma {:induction false} RewrittenExact(l: Layer, c: nat, buf: Bytes)
    requires |buf| == l.clusterSize
    ensures Rewritten(l, c, buf) == Some(buf) <==> Keeps(l.codec, buf)
  {
    BackExact(l, c, buf);
  }

  /** Overwriting a cluster of the first image changes what the chain reads there and
      nowhere else. */
  lemma {:induction false} OverwriteReads(chain: seq<Layer>, after: Layer, c: nat, buf: Bytes)
    requires ChainOk(chain) && Overwrites(chain[0], after, c, buf)
    ensures ChainOk(chain[0 := after])
    ensures InRange(chain[0], c) ==> ReadCluster(chain[0 := after], c) == Rewritten(chain[0], c, buf)
    ensures forall d: nat :: d != c ==> ReadCluster(chain[0 := after], d) == ReadCluster(chain, d)
  {
  }

  // -------------------------------------------------------------------- writes

  /** Some byte of the `n` from `off` lies past the end of the disk. */
  ghost predicate Beyond(size: nat, off: nat, n: nat) {
    exists k :: off <= k < off + n && PastEnd(size, k)
  }

  predicate PastEnd(size: nat, k: nat) {
    k >= size
  }

  /** The last one does if any does. */
  lemma Last(size: nat, off: nat, n: nat)
    ensures Beyond(size, off, n) <==> n > 0 && off + n > size
  {
    if n > 0 && off + n > size { assert PastEnd(size, off + n - 1); }
  }

  /** `buf`, the bytes at `base`, with the part covered by `p` at `off` replaced. */
  function Patch(buf: Bytes, base: int, p: Bytes, off: nat): (r: Bytes)
    ensures |r| == |buf|
    ensures forall i :: 0 <= i < |buf| ==>
      r[i] == if off <= base + i < off + |p| then p[base + i - off] else buf[i]
  {
    seq(|buf|, i requires 0 <= i < |buf| => if off <= base + i < off + |p| then p[base + i - off] else buf[i])
  }

  /** Cluster `c` of the disk with the part covered by `p` at `off` replaced. */
  ghost function Patched(chain: seq<Layer>, p: Bytes, off: nat, c: nat): (r: Bytes)
    requires ChainOk(chain) && ReadCluster(chain, c).Some?
    ensures |r| == chain[0].clusterSize
  {
    Patch(ReadCluster(chain, c).value, c * chain[0].clusterSize, p, off)
  }

  predicate Touches(size: nat, c: nat, off: nat, n: nat) {
    n > 0 && c * size < off + n && off < c * size + size
  }

  /** A finished write of `p` at `off`: every touched cluster reads as its old bytes
      patched and passed through the codec, every other one as before. */
  ghost predicate WroteCluster(before: seq<Layer>, after: seq<Layer>, p: Bytes, off: nat, c: nat)
    requires ChainOk(before) && ChainOk(after)
  {
    if Touches(before[0].clusterSize, c, off, |p|) then
      && ReadCluster(before, c).Some?
      && ReadCluster(after, c) == Rewritten(before[0], c, Patched(before, p, off, c))
    else ReadCluster(after, c) == ReadCluster(before, c)
  }

  ghost predicate Wrote(before: seq<Layer>, after: seq<Layer>, p: Bytes, off: nat) {
    && ChainOk(before) && ChainOk(after)
    && SameShape(before[0], after[0]) && after[1..] == before[1..]
    && forall c: nat :: WroteCluster(before, after, p, off, c)
  }

  /** The clusters a write stores are ones the codec keeps. */
  ghost predicate KeepsWrite(before: seq<Layer>, p: Bytes, off: nat)
    requires ChainOk(before)
  {
    forall c: nat :: Touches(before[0].clusterSize, c, off, |p|) && ReadCluster(before, c).Some? ==>
      Keeps(before[0].codec, Patched(before, p, off, c))
  }

  /** A write refines a flat byte array: it replaces exactly the bytes in its range and
      nothing else, if the codec keeps the clusters it stores. */
  lemma {:induction false} WriteIsFlat(before: seq<Layer>, after: seq<Layer>, p: Bytes, off: nat, k: nat)
    requires Wrote(before, after, p, off) && KeepsWrite(before, p, off)
    ensures ByteAt(after, k) == if off <= k < off + |p| then Some(p[k - off]) else ByteAt(before, k)
  {
    var size := before[0].clusterSize;
    var c := BlockAt(k, size);
    ByteIn(before, k, c, k - c * size);
    ByteIn(after, k, c, k - c * size);
    assert WroteCluster(before, after, p, off, c);
    if Touches(size, c, off, |p|) {
      RewrittenExact(before[0], c, Patched(before, p, off, c));
    }
  }

  /** And only then: a cluster the codec does not keep reads back as something else. */
  lemma {:induction false} WriteLosesFrames(before: seq<Layer>, after: seq<Layer>, p: Bytes, off: nat, c: nat)
    requires Wrote(before, after, p, off) && Touches(before[0].clusterSize, c, off, |p|)
    ensures ReadCluster(before, c).Some?
    ensures ReadCluster(after, c) == Some(Patched(before, p, off, c))
       <==> Keeps(before[0].codec, Patched(before, p, off, c))
  {
    assert WroteCluster(before, after, p, off, c);
    RewrittenExact(before[0], c, Patched(before, p, off, c));
  }

  // ------------------------------------------------------------ partial writes

  /** Of a write of `p` at `off`, the first `k` clusters have been carried out. */
  ghost predicate WroteSome(before: seq<Layer>, now: seq<Layer>, p: Bytes, off: nat, first: nat, k: nat) {
    && ChainOk(before) && ChainOk(now)
    && SameShape(before[0], now[0]) && now[1..] == before[1..]
    && forall c: nat ::
         if first <= c < first + k then WroteCluster(before, now, p, off, c)
         else ReadCluster(now, c) == ReadCluster(before, c)
  }

  /** A write that broke off after `k` clusters: the next one could not be read, or there
      was no room for it. */
  ghost predicate BrokeOff(before: seq<Layer>, now: seq<Layer>, p: Bytes, off: nat, first: nat, k: nat) {
    && WroteSome(before, now, p, off, first, k) && Touches(before[0].clusterSize, first + k, off, |p|)
    && (ReadCluster(before, first + k).None? || Full(now[0]))
  }

  /** Before its turn a cluster reads as at first. */
  lemma TurnOpen(
    before: seq<Layer>, now: seq<Layer>, p: Bytes, off: nat, at: nat, first: nat, i: nat, inner: nat, n: nat)
    requires first <= i && WroteSome(before, now, p, off, first, i - first) && Turn(now[0], p, off, at, i, inner, n)
    requires off + |p| <= now[0].virtualSize
    ensures ReadCluster(now, i) == ReadCluster(before, i) && Touches(before[0].clusterSize, i, off, |p|)
  {
    TurnFacts(now[0], p, off, at, i, inner, n);
  }

  lemma {:induction false} WroteNone(chain: seq<Layer>, p: Bytes, off: nat, first: nat)
    requires ChainOk(chain)
    ensures WroteSome(chain, chain, p, off, first, 0)
  {
  }

  /** One more cluster, the next one: `c`. */
  lemma {:induction false} WroteMore(
    before: seq<Layer>, now: seq<Layer>, after: Layer, p: Bytes, off: nat, first: nat, c: nat, buf: Bytes)
    requires ChainOk(before) && ChainOk(now) && first <= c && ReadCluster(before, c).Some?
    requires buf == Patched(before, p, off, c)
    requires InRange(now[0], c) && Touches(now[0].clusterSize, c, off, |p|)
    requires Overwrites(now[0], after, c, buf) && WroteSome(before, now, p, off, first, c - first)
    ensures WroteSome(before, now[0 := after], p, off, first, c - first + 1)
  {
    var t := now[0 := after];
    OverwriteReads(now, after, c, buf);
    assert t[1..] == now[1..];
    assert WroteCluster(before, t, p, off, c);
    forall d: nat
      ensures if first <= d <= c then WroteCluster(before, t, p, off, d)
              else ReadCluster(t, d) == ReadCluster(before, d)
    {
      if first <= d < c { StillWrote(before, now, t, p, off, d); }
    }
  }

  lemma {:induction false} StillWrote(before: seq<Layer>, now: seq<Layer>, later: seq<Layer>, p: Bytes, off: nat, c: nat)
    requires ChainOk(before) && ChainOk(now) && ChainOk(later) && WroteCluster(before, now, p, off, c)
    requires ReadCluster(later, c) == ReadCluster(now, c)
    ensures WroteCluster(before, later, p, off, c)
  {
  }

  /** All touched clusters have been carried out. */
  lemma {:induction false} WroteAll(before: seq<Layer>, now: seq<Layer>, p: Bytes, off: nat, k: nat)
    requires ChainOk(before)
    requires WroteSome(before, now, p, off, off / before[0].clusterSize, k)
    requires off + |p| <= (off / before[0].clusterSize + k) * before[0].clusterSize
    ensures Wrote(before, now, p, off)
  {
    var size := before[0].clusterSize;
    var first := off / size;
    forall c: nat ensures WroteCluster(before, now, p, off, c) {
      if Touches(size, c, off, |p|) {
        TouchedBetween(size, c, off, |p|, first + k);
      }
    }
  }

  lemma TouchedBetween(size: nat, c: nat, off: nat, n: nat, end: nat)
    requires size > 0 && Touches(size, c, off, n) && off + n <= end * size
    ensures off / size <= c < end
  {
    BlockOf(off, size, off / size);
    if c < off / size { Scale(c + 1, off / size, size); }
    if end <= c { Scale(end, c, size); }
  }

  /** The three pieces a write puts together are the patched cluster. */
  lemma PatchPieces(buf: Bytes, base: nat, p: Bytes, off: nat, at: nat, inner: nat, n: nat)
    requires at == base + inner && off <= at <= off + |p| && (inner == 0 || at == off)
    requires inner <= |buf| && n <= |buf| - inner && at + n <= off + |p|
    requires n == |buf| - inner || at + n == off + |p|
    ensures buf[..inner] + p[at - off..at - off + n] + buf[inner + n..] == Patch(buf, base, p, off)
  {
  }

  /** Where one turn of the write loop works: the cluster `i` of the position `at`. */
  predicate Turn(l: Layer, p: Bytes, off: nat, at: nat, i: nat, inner: nat, n: nat) {
    && inner <= at == i * l.clusterSize + inner && off <= at < off + |p| && (inner == 0 || at == off)
    && inner < l.clusterSize && 0 < n <= l.clusterSize - inner && at + n <= off + |p|
    && (n == l.clusterSize - inner || at + n == off + |p|)
  }

  /** Where the write loop stands: in cluster `c` at `at`, or past the last one. */
  predicate Standing(size: nat, off: nat, n: nat, c: nat, at: nat) {
    if at == off + n then n == 0 || at <= c * size
    else off <= at < off + n && c * size <= at < c * size + size && (at == off || at == c * size)
  }

  lemma NextStand(l: Layer, p: Bytes, off: nat, c: nat, at: nat, inner: nat, n: nat)
    requires Standing(l.clusterSize, off, |p|, c, at) && at < off + |p| && at == c * l.clusterSize + inner
    requires n == if off + |p| - at < l.clusterSize - inner then off + |p| - at else l.clusterSize - inner
    ensures Turn(l, p, off, at, c, inner, n) && Standing(l.clusterSize, off, |p|, c + 1, at + n)
  {
    Blocks(c, 1, l.clusterSize);
  }

  lemma TurnFacts(l: Layer, p: Bytes, off: nat, at: nat, i: nat, inner: nat, n: nat)
    requires Turn(l, p, off, at, i, inner, n) && off + |p| <= l.virtualSize < U64
    ensures i < U64 && InRange(l, i) && Touches(l.clusterSize, i, off, |p|)
  {
  }

  /** The cluster put together in one turn. */
  lemma {:induction false} TurnPatches(
    before: seq<Layer>, now: seq<Layer>, p: Bytes, off: nat, first: nat, c: nat, at: nat, inner: nat, n: nat)
    requires first <= c && WroteSome(before, now, p, off, first, c - first) && Turn(now[0], p, off, at, c, inner, n)
    requires ReadCluster(now, c).Some?
    ensures ReadCluster(before, c).Some?
    ensures var b := ReadCluster(now, c).value;
      b[..inner] + p[at - off..at - off + n] + b[inner + n..] == Patched(before, p, off, c)
  {
    NextUnwritten(before, now, p, off, first, c - first);
    PatchedAt(before, p, off, c, at - inner);
    var b := ReadCluster(now, c).value;
    PatchPieces(b, at - inner, p, off, at, inner, n);
    assert Patched(before, p, off, c) == Patch(b, at - inner, p, off);
  }

  /** One turn of the write loop, as a whole. */
  lemma {:induction false} TurnWrites(
    before: seq<Layer>, now: seq<Layer>, after: Layer, p: Bytes, off: nat, first: nat, c: nat,
    at: nat, inner: nat, n: nat, buf: Bytes)
    requires first <= c && WroteSome(before, now, p, off, first, c - first) && Turn(now[0], p, off, at, c, inner, n)
    requires off + |p| <= now[0].virtualSize && ReadCluster(now, c).Some?
    requires var b := ReadCluster(now, c).value; buf == b[..inner] + p[at - off..at - off + n] + b[inner + n..]
    requires Overwrites(now[0], after, c, buf)
    ensures WroteSome(before, now[0 := after], p, off, first, c - first + 1)
  {
    TurnFacts(now[0], p, off, at, c, inner, n);
    TurnPatches(before, now, p, off, first, c, at, inner, n);
    WroteMore(before, now, after, p, off, first, c, buf);
  }

  lemma {:induction false} PatchedAt(chain: seq<Layer>, p: Bytes, off: nat, c: nat, base: nat)
    requires ChainOk(chain) && ReadCluster(chain, c).Some? && base == c * chain[0].clusterSize
    ensures Patched(chain, p, off, c) == Patch(ReadCluster(chain, c).value, base, p, off)
  {
  }

  /** The next cluster to write still reads as it did at first. */
  lemma {:induction false} NextUnwritten(before: seq<Layer>, now: seq<Layer>, p: Bytes, off: nat, first: nat, k: nat)
    requires WroteSome(before, now, p, off, first, k)
    ensures ReadCluster(now, first + k) == ReadCluster(before, first + k)
    ensures ChainOk(now) && now[0].clusterSize == before[0].clusterSize && now[0].virtualSize == before[0].virtualSize
  {
  }
  // --------------------------------------------------------------------- reads

  /** `b` is what the disk holds at `off`. */
  ghost predicate Reads(chain: seq<Layer>, off: nat, b: Bytes)
    requires ChainOk(chain)
  {
    forall k :: 0 <= k < |b| ==> ByteAt(chain, off + k) == Some(b[k])
  }

  lemma {:induction false} ByteIn(chain: seq<Layer>, k: nat, i: nat, inner: nat)
    requires ChainOk(chain) && k == i * chain[0].clusterSize + inner && inner < chain[0].clusterSize
    ensures ByteAt(chain, k) ==
      if ReadCluster(chain, i).Some? then Some(ReadCluster(chain, i).value[inner]) else None
  {
    BlockOf(k, chain[0].clusterSize, i);
    assert k / chain[0].clusterSize == i && k % chain[0].clusterSize == inner;
  }

  /** The next bytes come from the cluster of the position reached. */
  lemma {:induction false} ReadMore(chain: seq<Layer>, off: nat, b: Bytes, i: nat, inner: nat, n: nat)
    requires ChainOk(chain) && Reads(chain, off, b)
    requires off + |b| == i * chain[0].clusterSize + inner && inner + n <= chain[0].clusterSize
    requires ReadCluster(chain, i).Some?
    ensures Reads(chain, off, b + ReadCluster(chain, i).value[inner..inner + n])
  {
    var r := b + ReadCluster(chain, i).value[inner..inner + n];
    forall k | |b| <= k < |r| ensures ByteAt(chain, off + k) == Some(r[k]) {
      ByteIn(chain, off + k, i, inner + k - |b|);
    }
  }

  // --------------------------------------------------------------------- guids

  ghost function Guids(chain: seq<Layer>): set<string> {
    set i | 0 <= i < |chain| :: chain[i].guid
  }

  /** Some image of the chain is called `g`. */
  ghost predicate Names(chain: seq<Layer>, g: string) {
    exists i :: 0 <= i < |chain| && chain[i].guid == g
  }

  ghost predicate Repeats(chain: seq<Layer>) {
    exists i, j :: 0 <= i < j < |chain| && chain[i].guid == chain[j].guid
  }

  /** The search for `g` has passed the first `n` images without a hit. */
  ghost predicate Searched(chain: seq<Layer>, n: nat, visited: set<string>, g: string) {
    n <= |chain| && Guids(chain[..n]) == visited && g !in visited && !Repeats(chain[..n])
  }

  lemma SearchStart(chain: seq<Layer>, g: string)
    ensures Searched(chain, 0, {}, g)
  {
  }

  lemma SearchStep(chain: seq<Layer>, n: nat, visited: set<string>, g: string)
    requires n < |chain| && Searched(chain, n, visited, g)
    ensures if chain[n].guid == g || chain[n].guid in visited then Names(chain, g) || Repeats(chain)
            else Searched(chain, n + 1, visited + {chain[n].guid}, g)
  {
  }

  lemma SearchEnd(chain: seq<Layer>, visited: set<string>, g: string)
    requires Searched(chain, |chain|, visited, g)
    ensures !Names(chain, g) && !Repeats(chain)
  {
  }

  // ------------------------------------------------------------------- recovery

  /** The disk of a chain depends on its first image through what that image holds. */
  lemma {:induction false} SameTop(a: Layer, b: Layer, rest: seq<Layer>, c: nat)
    requires ChainOk([a] + rest) && ChainOk([b] + rest)
    requires b.clusterSize == a.clusterSize && b.virtualSize == a.virtualSize && ReadLocal(a, c) == ReadLocal(b, c)
    ensures ReadCluster([a] + rest, c) == ReadCluster([b] + rest, c)
  {
    assert ([a] + rest)[1..] == rest && ([b] + rest)[1..] == rest;
  }

  lemma TopOk(a: Layer, rest: seq<Layer>)
    requires LayerOk(a) && forall i :: 0 <= i < |rest| ==> LayerOk(rest[i]) && rest[i].clusterSize == a.clusterSize
    ensures ChainOk([a] + rest)
  {
  }

  /** Log recovery, for the disk: over any backing chain, an image whose index file was cut
      at any byte `n` reads, torn entry and all, as it stood after the first n / 20
      cluster writes. */
  lemma {:induction false} RecoveryDisk(l: Layer, ws: seq<Write>, n: nat, data: Bytes, rest: seq<Layer>, c: nat)
    requires l.idx == [] && Log(l, ws) && n <= |AfterLog(l, ws).idx| && |data| < FILE_LIMIT
    requires n / ENTRY <= |ws| && AfterLog(l, ws[..n / ENTRY]).data <= data
    requires forall i :: 0 <= i < |rest| ==> LayerOk(rest[i]) && rest[i].clusterSize == l.clusterSize
    ensures var cut := AfterLog(l, ws).(data := data, idx := AfterLog(l, ws).idx[..n]);
      var early := AfterLog(l, ws[..n / ENTRY]);
      && ChainOk([cut] + rest) && ChainOk([early] + rest)
      && ReadCluster([cut] + rest, c) == ReadCluster([early] + rest, c)
  {
    var k := n / ENTRY;
    LogPrefix(l, ws, k);
    LogOk(l, ws);
    LogOk(l, ws[..k]);
    var cut := AfterLog(l, ws).(data := data, idx := AfterLog(l, ws).idx[..n]);
    TopOk(cut, rest);
    TopOk(AfterLog(l, ws[..k]), rest);
    Recovery(l, ws, n, data, c);
    SameTop(cut, AfterLog(l, ws[..k]), rest, c);
  }
}
