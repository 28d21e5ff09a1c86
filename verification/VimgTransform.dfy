/** Map, Commit and Rebase as relations between chains, and what they preserve. */
module VimgTransform {
  import opened Common
  import opened VimgCodec
  import opened VimgLayer
  import opened VimgChain

  // ----------------------------------------------------------------------- map

  datatype Source = FromData | FromBacking | FromZero

  datatype Segment = Segment(offset: nat, length: nat, source: Source, owner: string)

  function Resolve(chain: seq<Layer>, top: string, c: nat): (Source, string)
    requires |chain| > 0
  {
    var d := Owner(chain, c);
    if d < 0 then (FromZero, "")
    else (if chain[d].guid == top then FromData else FromBacking, chain[d].guid)
  }

  /** Resolving layer by layer, as the code does. */
  lemma ResolveStep(chain: seq<Layer>, top: string, c: nat)
    requires |chain| > 0
    ensures Resolve(chain, top, c) ==
      if !InRange(chain[0], c) then (FromZero, "")
      else if c in Replay(chain[0].idx) then (if chain[0].guid == top then FromData else FromBacking, chain[0].guid)
      else if |chain| == 1 then (FromZero, "")
      else Resolve(chain[1..], top, c)
  {
  }

  /** The segments tile [off, end) without gaps, none empty, neighbours different, and
      every byte is labelled with what its cluster resolves to. */
  ghost predicate Tiles(chain: seq<Layer>, segs: seq<Segment>, off: nat, end: nat)
    requires ChainOk(chain)
  {
    && Covers(segs, off, end)
    && (forall i, k: nat :: 0 <= i < |segs| && segs[i].offset <= k < segs[i].offset + segs[i].length ==>
          Labelled(chain, segs[i], k))
  }

  predicate Covers(segs: seq<Segment>, off: nat, end: nat) {
    && (forall i :: 0 <= i < |segs| ==> segs[i].length > 0)
    && (forall i :: 0 < i < |segs| ==> Follows(segs[i - 1], segs[i]))
    && if segs == [] then off == end
       else segs[0].offset == off && segs[|segs| - 1].offset + segs[|segs| - 1].length == end
  }

  /** Neighbours abut and differ. */
  predicate Follows(a: Segment, b: Segment) {
    a.offset + a.length == b.offset && (a.source, a.owner) != (b.source, b.owner)
  }

  ghost predicate Labelled(chain: seq<Layer>, s: Segment, k: nat)
    requires ChainOk(chain)
  {
    Resolve(chain, chain[0].guid, k / chain[0].clusterSize) == (s.source, s.owner)
  }

  /** A piece that stays inside one cluster, labelled with what that resolves to. */
  lemma {:induction false} LabelledAll(chain: seq<Layer>, s: Segment, i: nat)
    requires ChainOk(chain) && s.length > 0
    requires (s.source, s.owner) == Resolve(chain, chain[0].guid, i)
    requires i * chain[0].clusterSize <= s.offset && s.offset + s.length <= i * chain[0].clusterSize + chain[0].clusterSize
    ensures forall k: nat :: s.offset <= k < s.offset + s.length ==> Labelled(chain, s, k)
  {
    forall k: nat | s.offset <= k < s.offset + s.length ensures Labelled(chain, s, k) {
      BlockOf(k, chain[0].clusterSize, i);
    }
  }

  function Join(segs: seq<Segment>, s: Segment): seq<Segment> {
    if segs == [] then [s]
    else
      var last := segs[|segs| - 1];
      if last.offset + last.length == s.offset && last.source == s.source && last.owner == s.owner
      then segs[..|segs| - 1] + [last.(length := last.length + s.length)]
      else segs + [s]
  }

  lemma CoversJoin(segs: seq<Segment>, s: Segment, off: nat)
    requires Covers(segs, off, s.offset) && s.length > 0
    ensures Covers(Join(segs, s), off, s.offset + s.length)
  {
  }

  /** Adding the next piece, merged into the last segment or after it. */
  lemma {:induction false} TilesJoin(chain: seq<Layer>, segs: seq<Segment>, s: Segment, off: nat)
    requires ChainOk(chain) && Tiles(chain, segs, off, s.offset) && s.length > 0
    requires forall k: nat :: s.offset <= k < s.offset + s.length ==> Labelled(chain, s, k)
    ensures Tiles(chain, Join(segs, s), off, s.offset + s.length)
  {
    var r := Join(segs, s);
    CoversJoin(segs, s, off);
    forall i, k: nat | 0 <= i < |r| && r[i].offset <= k < r[i].offset + r[i].length
      ensures Labelled(chain, r[i], k)
    {
      if i < |segs| && k < segs[i].offset + segs[i].length {
        assert Labelled(chain, segs[i], k);
      } else {
        assert Labelled(chain, s, k);
      }
    }
  }

  /** Map agrees with read: a byte of a Zero segment reads as zero; any other byte is
      read from the layer that owns its segment. */
  lemma {:induction false} MapAgrees(chain: seq<Layer>, segs: seq<Segment>, off: nat, end: nat, i: nat, k: nat)
    requires ChainOk(chain) && Tiles(chain, segs, off, end) && i < |segs|
    requires segs[i].offset <= k < segs[i].offset + segs[i].length
    ensures segs[i].source.FromZero? ==> ByteAt(chain, k) == Some(0)
    ensures !segs[i].source.FromZero? ==>
      exists d :: 0 <= d < |chain| && chain[d].guid == segs[i].owner
        && !ReadLocal(chain[d], k / chain[0].clusterSize).Missing?
        && ReadCluster(chain, k / chain[0].clusterSize) == AsRead(ReadLocal(chain[d], k / chain[0].clusterSize))
  {
    assert Labelled(chain, segs[i], k);
    OwnerReads(chain, k / chain[0].clusterSize);
  }

  // -------------------------------------------------------------------- commit

  /** The clusters `done` of the child's layer have been copied into the backing layer. */
  ghost predicate Pushed(child: Layer, before: Layer, now: Layer, done: set<nat>) {
    && LayerOk(now) && Whole(now) && SameShape(before, now) && child.clusterSize == before.clusterSize
    && forall c: nat ::
         if c in done then
           ReadLocal(child, c).Got? && ReadLocal(now, c) == Back(before, c, ReadLocal(child, c).bytes)
         else ReadLocal(now, c) == ReadLocal(before, c)
  }

  /** Of the chain before, only the backing image has changed, by a commit so far. */
  ghost predicate Committed(before: seq<Layer>, now: seq<Layer>, done: set<nat>) {
    && ChainOk(before) && |now| == |before| > 1 && now == before[1 := now[1]]
    && done <= Replay(before[0].idx).Keys && Pushed(before[0], before[1], now[1], done)
  }

  /** The backing image's files have grown, and if it was `good` at first, by a commit. */
  ghost predicate CommitSoFar(before: seq<Layer>, now: seq<Layer>, done: set<nat>, good: bool) {
    && |now| == |before| > 1 && Grown(before[1..], now[1..]) && (good ==> Committed(before, now, done))
  }

  /** A cluster of the image that has not been pushed cannot be read, or there is no room
      for it. */
  ghost predicate CommitStuck(now: seq<Layer>, done: set<nat>) {
    |now| > 1 && exists c :: c in Replay(now[0].idx) && c !in done && (!ReadLocal(now[0], c).Got? || Full(now[1]))
  }

  lemma {:induction false} CommitStart(chain: seq<Layer>)
    requires ChainOk(chain) && |chain| > 1 && Whole(chain[1])
    ensures Committed(chain, chain, {})
  {
  }

  lemma {:induction false} CommitMore(before: seq<Layer>, now: seq<Layer>, after: Layer, done: set<nat>, c: nat)
    requires Committed(before, now, done) && ReadLocal(before[0], c).Got?
    requires Overwrites(now[1], after, c, ReadLocal(before[0], c).bytes)
    ensures Committed(before, now[1 := after], done + {c})
  {
  }

  /** A commit, finished or broken off, never changes the child's disk: the clusters it
      has touched in the backing image are hidden by the child's own. */
  lemma {:induction false} CommitKeepsChild(before: seq<Layer>, now: seq<Layer>, done: set<nat>, c: nat)
    requires Committed(before, now, done)
    ensures ChainOk(now) && ReadCluster(now, c) == ReadCluster(before, c)
  {
    assert now[1..] == before[1..][0 := now[1]] && now[1..][1..] == before[1..][1..];
    if c !in Replay(before[0].idx) {
      assert ReadCluster(now[1..], c) == ReadCluster(before[1..], c);
    }
  }

  /** After a finished commit the backing image reads, on every cluster in range of
      both, what the child reads, passed through the backing codec where the child had
      its own cluster. */
  lemma {:induction false} CommitPushes(before: seq<Layer>, now: seq<Layer>, c: nat)
    requires |before| > 0 && Committed(before, now, Replay(before[0].idx).Keys)
    requires InRange(before[0], c) && InRange(before[1], c)
    ensures ChainOk(now[1..])
    ensures var under, disk := ReadCluster(now[1..], c), ReadCluster(before, c);
      if c in Replay(before[0].idx) then
        && disk.Some? && under == Rewritten(before[1], c, disk.value)
        && (under == disk <==> Keeps(before[1].codec, disk.value))
      else under == disk
  {
    assert now[1..][1..] == before[1..][1..];
    if c in Replay(before[0].idx) {
      RewrittenExact(before[1], c, ReadLocal(before[0], c).bytes);
    } else {
      assert ReadCluster(now[1..], c) == ReadCluster(before[1..], c);
      assert ReadCluster(before, c) == Below(before, c);
    }
  }

  // -------------------------------------------------------------------- rebase

  /** Cluster `c` must be copied up: it is not the image's own, and the two backings
      differ on it. */
  ghost predicate MustCopy(chain: seq<Layer>, other: seq<Layer>, c: nat)
    requires ChainOk(chain) && ChainOk(other)
  {
    InRange(chain[0], c) && ReadLocal(chain[0], c).Missing? && Below(chain, c) != ReadCluster(other, c)
  }

  /** Both backings could be read where it matters. */
  ghost predicate Readable(chain: seq<Layer>, other: seq<Layer>, c: nat)
    requires ChainOk(chain) && ChainOk(other)
  {
    InRange(chain[0], c) && ReadLocal(chain[0], c).Missing? ==>
      Below(chain, c).Some? && ReadCluster(other, c).Some?
  }

  /** The clusters below `n` have been dealt with; `now` is the image's layer. */
  ghost predicate Rebasing(chain: seq<Layer>, other: seq<Layer>, now: Layer, n: nat) {
    && ChainOk(chain) && ChainOk(other) && LayerOk(now) && Whole(now) && SameShape(chain[0], now)
    && other[0].clusterSize == chain[0].clusterSize
    && forall c: nat ::
         && (c < n ==> Readable(chain, other, c))
         && ReadLocal(now, c) == if c < n && MustCopy(chain, other, c) then Back(chain[0], c, Below(chain, c).value)
                                 else ReadLocal(chain[0], c)
  }

  /** Cluster `n` is not the image's own, and one of the two backings cannot be read there,
      or it has to be copied up and there is no room for it. */
  ghost predicate RebaseStuck(chain: seq<Layer>, other: seq<Layer>, now: Layer, n: nat) {
    && ChainOk(chain) && ChainOk(other) && InRange(chain[0], n) && ReadLocal(chain[0], n).Missing?
    && (Below(chain, n).None? || ReadCluster(other, n).None? || (Below(chain, n) != ReadCluster(other, n) && Full(now)))
  }

  lemma {:induction false} RebaseStart(chain: seq<Layer>, other: seq<Layer>)
    requires ChainOk(chain) && ChainOk(other) && other[0].clusterSize == chain[0].clusterSize && Whole(chain[0])
    ensures Rebasing(chain, other, chain[0], 0)
  {
  }

  /** The next cluster is still as it was. */
  lemma {:induction false} RebaseAt(chain: seq<Layer>, other: seq<Layer>, now: Layer, n: nat)
    requires Rebasing(chain, other, now, n)
    ensures ReadLocal(now, n) == ReadLocal(chain[0], n)
  {
  }

  lemma {:induction false} RebaseSkip(chain: seq<Layer>, other: seq<Layer>, now: Layer, n: nat)
    requires Rebasing(chain, other, now, n) && Readable(chain, other, n) && !MustCopy(chain, other, n)
    ensures Rebasing(chain, other, now, n + 1)
  {
  }

  lemma {:induction false} RebaseCopy(chain: seq<Layer>, other: seq<Layer>, now: Layer, after: Layer, n: nat)
    requires Rebasing(chain, other, now, n) && Readable(chain, other, n) && MustCopy(chain, other, n)
    requires Overwrites(now, after, n, Below(chain, n).value)
    ensures Rebasing(chain, other, after, n + 1)
  {
  }

  /** Rebase preserves meaning. After the backing was replaced, a cluster reads as
      before, unless it had to be copied up and the image's codec does not keep it. */
  lemma {:induction false} RebaseExact(chain: seq<Layer>, other: seq<Layer>, now: Layer, n: nat, c: nat)
    requires Rebasing(chain, other, now, n) && (InRange(chain[0], c) ==> c < n)
    ensures ChainOk([now] + other)
    ensures ReadCluster([now] + other, c) == ReadCluster(chain, c) <==>
      (MustCopy(chain, other, c) ==> Keeps(chain[0].codec, Below(chain, c).value))
  {
    var t := [now] + other;
    assert t[1..] == other;
    assert c < n ==> Readable(chain, other, c);
    if MustCopy(chain, other, c) {
      RewrittenExact(chain[0], c, Below(chain, c).value);
    }
  }

  /** Broken off before the switch, a rebase has changed no cluster the codec keeps. */
  lemma {:induction false} RebaseBrokenOff(chain: seq<Layer>, other: seq<Layer>, now: Layer, n: nat, c: nat)
    requires Rebasing(chain, other, now, n)
    ensures ChainOk(chain[0 := now])
    ensures ReadCluster(chain[0 := now], c) == ReadCluster(chain, c)
      || (c < n && MustCopy(chain, other, c) && !Keeps(chain[0].codec, Below(chain, c).value))
  {
    var t := chain[0 := now];
    assert t[1..] == chain[1..];
    if c < n && MustCopy(chain, other, c) {
      RewrittenExact(chain[0], c, Below(chain, c).value);
    }
  }
}
