/** The open image: files, in-memory index and a pointer to the backing image. Its
    abstract value is the chain of layers it heads; every operation is specified by
    what it does to that chain. */
module VimgImage {
  import opened Common
  import opened VimgCodec
  import opened VimgLayer
  import opened VimgChain
  import opened VimgTransform

  datatype Status = Done | OutOfRange | Failed

  /** How a commit or a rebase ended: carried out, turned down before it began, or
      broken off by a failing read or write. */
  datatype Outcome = Finished | Refused | BrokenOff

  class Image {
    const guid: string
    const virtualSize: nat
    const clusterSize: nat
    const codec: Codec
    var data: Bytes
    var idx: Bytes
    var index: Index
    var backing: Image?
    ghost var Repr: set<object>

    ghost function Self(): Layer
      reads this
    {
      Layer(guid, virtualSize, clusterSize, codec, data, idx)
    }

    /** An open image, whatever its index in memory. */
    ghost predicate Sound()
      reads this, Repr
      ensures Sound() ==> this in Repr
      decreases Repr
    {
      && this in Repr && LayerOk(Self()) && (forall c :: c in index ==> c < U64)
      && (backing != null ==>
            && backing in Repr && backing.Repr <= Repr && this !in backing.Repr
            && backing.Sound() && backing.clusterSize == clusterSize)
    }

    /** One whose index in memory, like those below, is what a reload would give. */
    ghost predicate Valid()
      reads this, Repr
      ensures Valid() ==> Sound()
      decreases Repr
    {
      Sound() && index == Replay(idx) && (backing != null ==> backing.Valid())
    }

    ghost function Chain(): (c: seq<Layer>)
      requires Sound()
      reads this, Repr
      ensures ChainOk(c) && c[0] == Self()
      decreases Repr
    {
      if backing == null then [Self()] else [Self()] + backing.Chain()
    }

    /** open: the files of `l`, over an image opened before it. */
    constructor (l: Layer, under: Image?)
      requires LayerOk(l) && (under != null ==> under.Valid() && under.clusterSize == l.clusterSize)
      ensures Valid() && Self() == l && backing == under
      ensures Chain() == if under == null then [l] else [l] + under.Chain()
      ensures Repr == {this} + if under == null then {} else under.Repr
    {
      guid, virtualSize, clusterSize, codec := l.guid, l.virtualSize, l.clusterSize, l.codec;
      data, idx, index, backing := l.data, l.idx, map[], under;
      Repr := {this} + if under == null then {} else under.Repr;
      new;
      LoadIndex();
    }

    /** loadIndexNoLock: reads whole entries from the start, ignoring a torn tail. */
    method LoadIndex()
      modifies this`index
      ensures index == Replay(idx) && forall c :: c in index ==> c < U64
    {
      index := map[];
      var offset := 0;
      while offset + ENTRY <= |idx|
        invariant 0 <= offset <= |idx| && offset % ENTRY == 0
        invariant index == ReplayN(idx, offset / ENTRY)
      {
        var e := GetEntry(idx[offset..offset + ENTRY]);
        index := index[e.cluster := e];
        offset := offset + ENTRY;
      }
      ReplayKeys(idx);
    }

    method Reload()
      requires Sound()
      modifies this`index
      ensures Sound() && Chain() == old(Chain()) && index == Replay(idx)
      ensures old(Valid()) ==> Valid()
    {
      LoadIndex();
    }

    /** readLocalCluster: reloads the index on a miss, then looks again. */
    method ReadLocalCluster(c: nat) returns (f: Found)
      requires Sound()
      modifies this`index
      ensures Sound() && Chain() == old(Chain()) && (f.Got? ==> |f.bytes| == clusterSize)
      ensures index == (if c in old(index) then old(index) else Replay(idx))
      ensures f == if c in old(index) then Fetch(Self(), c, old(index)[c]) else ReadLocal(Self(), c)
      ensures old(Valid()) ==> Valid() && f == ReadLocal(Self(), c)
    {
      if c !in index {
        Reload();
        if c !in index { return Missing; }
      }
      f := FetchEntry(c, index[c]);
    }

    method FetchEntry(c: nat, e: Entry) returns (f: Found)
      ensures f == Fetch(Self(), c, e)
    {
      if e.offset >= FILE_LIMIT || (e.length > 0 && e.offset + e.length > |data|) { return Bad; }
      var stored := if e.length == 0 then [] else data[e.offset..e.offset + e.length];
      match Decode(codec, c, stored)
      case None => return Bad;
      case Some(plain) =>
        if |plain| > clusterSize { return Bad; }
        return Got(Pad(plain, clusterSize));
    }

    method ReadCluster(c: nat) returns (r: Option<Bytes>)
      requires Sound()
      modifies Repr
      ensures Sound() && Repr == old(Repr) && backing == old(backing) && Chain() == old(Chain())
      ensures r.Some? ==> |r.value| == clusterSize
      ensures old(Valid()) ==> Valid() && r == VimgChain.ReadCluster(Chain(), c)
      decreases Repr
    {
      if c * clusterSize >= virtualSize { return Some(Zeros(clusterSize)); }
      var f := ReadLocalCluster(c);
      if !f.Missing? { return AsRead(f); }
      if backing != null {
        r := backing.ReadCluster(c);
        return;
      }
      return Some(Zeros(clusterSize));
    }

    /** writeCluster: appends the stored form and its entry; `nonce` is the random
        source's contribution. Fails on a wrong length or a full file. On whole files that
        overwrites the cluster; otherwise `VimgLayer.AppendExact` says what a reload finds. */
    method WriteCluster(c: nat, buf: Bytes, nonce: Bytes) returns (ok: bool)
      requires Sound() && c < U64 && |nonce| == NONCE
      modifies this`data, this`idx, this`index
      ensures ok <==> |buf| == clusterSize && !Full(old(Self()))
      ensures Sound() && Chain() == old(Chain())[0 := Self()]
      ensures !ok ==> Self() == old(Self()) && index == old(index) && (old(Valid()) ==> Valid())
      ensures ok ==> |buf| == clusterSize && Self() == Append(old(Self()), c, buf, nonce)
      ensures ok ==> index == old(index)[c := Entry(c, |old(data)|, |Encode(codec, c, buf, nonce)|)]
      ensures ok && old(Valid()) && Whole(old(Self())) ==> Valid() && Overwrites(old(Self()), Self(), c, buf)
    {
      if |buf| != clusterSize { return false; }
      FullExact(Self(), c, buf, nonce);
      var stored := Encode(codec, c, buf, nonce);
      if |data| + |stored| >= FILE_LIMIT { return false; }
      ghost var before := Self();
      if Whole(before) { AppendOverwrites(before, c, buf, nonce); }
      AppendStored(c, stored);
      assert Self() == Append(before, c, buf, nonce);
      return true;
    }

    method AppendStored(c: nat, stored: Bytes)
      requires Sound() && c < U64 && |stored| < U32 && |data| + |stored| < FILE_LIMIT
      modifies this`data, this`idx, this`index
      ensures Sound() && Chain() == old(Chain())[0 := Self()]
      ensures old(Valid()) && index == Replay(idx) ==> Valid()
      ensures data == old(data) + stored && idx == old(idx) + PutEntry(Entry(c, |old(data)|, |stored|))
      ensures index == old(index)[c := Entry(c, |old(data)|, |stored|)]
    {
      var entry := Entry(c, |data|, |stored|);
      data := data + stored;
      idx := idx + PutEntry(entry);
      index := index[c := entry];
    }

    predicate InBounds(off: nat, n: nat)
      ensures n > 0 ==> (InBounds(off, n) <==> !Beyond(virtualSize, off, n))
    {
      Last(virtualSize, off, n);
      off < virtualSize && off + n <= virtualSize
    }

    /** WriteAt: read, patch and rewrite one cluster after the other. */
    method WriteAt(p: Bytes, off: nat, nonces: nat -> Bytes) returns (r: Status)
      requires Sound() && forall i :: |nonces(i)| == NONCE
      modifies Repr
      ensures Sound() && Repr == old(Repr) && backing == old(backing)
      ensures r.OutOfRange? <==> Beyond(virtualSize, off, |p|)
      ensures r.OutOfRange? ==> Chain() == old(Chain())
      ensures Grown(old(Chain()), Chain())
      ensures old(Valid()) && Whole(old(Self())) ==>
        && Valid() && Whole(Self())
        && (r.Done? ==> Wrote(old(Chain()), Chain(), p, off))
        && (r.Failed? ==> exists k: nat :: BrokeOff(old(Chain()), Chain(), p, off, off / clusterSize, k))
    {
      ghost var before, good := Chain(), Valid() && Whole(Self());
      if |p| == 0 { return Done; }
      if !InBounds(off, |p|) { return OutOfRange; }
      ghost var first := off / clusterSize;
      WroteNone(before, p, off, first);
      ghost var k;
      var ok;
      ok, k := WriteAll(p, off, nonces, before, good);
      if !ok { return Failed; }
      if good { WroteAll(before, Chain(), p, off, k); }
      return Done;
    }

    method WriteAll(p: Bytes, off: nat, nonces: nat -> Bytes, ghost before: seq<Layer>, ghost good: bool)
      returns (ok: bool, ghost k: nat)
      requires Sound() && (forall i :: |nonces(i)| == NONCE) && p != [] && InBounds(off, |p|) && Chain() == before
      requires good ==> Valid() && Whole(Self()) && WroteSome(before, before, p, off, off / clusterSize, 0)
      modifies Repr
      ensures Sound() && Repr == old(Repr) && backing == old(backing) && Grown(before, Chain())
      ensures good ==> Valid() && Whole(Self()) && WroteSome(before, Chain(), p, off, off / clusterSize, k)
      ensures good && !ok ==> BrokeOff(before, Chain(), p, off, off / clusterSize, k)
      ensures ok ==> off + |p| <= (off / clusterSize + k) * clusterSize
    {
      var at: nat, c: nat := off, BlockAt(off, clusterSize);
      ghost var first := c;
      k := 0;
      while at < off + |p|
        invariant Sound() && Repr == old(Repr) && backing == old(backing) && Grown(before, Chain())
        invariant Standing(clusterSize, off, |p|, c, at) && c == first + k
        invariant good ==> Valid() && Whole(Self()) && WroteSome(before, Chain(), p, off, first, k)
        decreases off + |p| - at
      {
        var inner := at - c * clusterSize;
        var n := if off + |p| - at < clusterSize - inner then off + |p| - at else clusterSize - inner;
        NextStand(Self(), p, off, c, at, inner, n);
        ok := PatchCluster(p, off, at, c, inner, n, nonces(c), before, first, good);
        if !ok { return; }
        at, c, k := at + n, c + 1, k + 1;
      }
      ok := true;
    }

    /** One turn of the write loop. */
    method PatchCluster(p: Bytes, off: nat, at: nat, i: nat, inner: nat, n: nat, nonce: Bytes,
                        ghost before: seq<Layer>, ghost first: nat, ghost good: bool) returns (ok: bool)
      requires Sound() && |nonce| == NONCE && first <= i && InBounds(off, |p|) && Grown(before, Chain())
      requires Turn(Self(), p, off, at, i, inner, n)
      requires good ==> Valid() && Whole(Self()) && WroteSome(before, Chain(), p, off, first, i - first)
      modifies Repr
      ensures Sound() && Repr == old(Repr) && backing == old(backing) && Grown(before, Chain())
      ensures good ==> Valid() && Whole(Self())
      ensures good ==> if ok then WroteSome(before, Chain(), p, off, first, i + 1 - first)
                       else BrokeOff(before, Chain(), p, off, first, i - first)
    {
      ghost var now := Chain();
      TurnFacts(now[0], p, off, at, i, inner, n);
      if good { TurnOpen(before, now, p, off, at, first, i, inner, n); }
      var got := ReadCluster(i);
      if got.None? { return false; }
      var buf := got.value[..inner] + p[at - off..at - off + n] + got.value[inner + n..];
      ok := WriteCluster(i, buf, nonce);
      if ok && good { TurnWrites(before, now, Self(), p, off, first, i, at, inner, n, buf); }
    }

    /** ReadAt: fills `p` cluster by cluster. */
    method ReadAt(p: array<Byte>, off: nat) returns (r: Status)
      requires Sound() && p !in Repr
      modifies Repr, p
      ensures Sound() && Repr == old(Repr) && backing == old(backing) && Chain() == old(Chain())
      ensures r.OutOfRange? <==> Beyond(virtualSize, off, p.Length)
      ensures r.OutOfRange? ==> p[..] == old(p[..])
      ensures old(Valid()) ==>
        && Valid() && (r.Done? ==> Reads(Chain(), off, p[..]))
        && (r.Failed? ==> exists k :: off <= k < off + p.Length && ByteAt(Chain(), k).None?)
    {
      ghost var good := Valid();
      if p.Length == 0 { return Done; }
      if !InBounds(off, p.Length) { return OutOfRange; }
      var done: nat := 0;
      while done < p.Length
        invariant done <= p.Length
        invariant Sound() && Repr == old(Repr) && backing == old(backing) && Chain() == old(Chain())
        invariant good ==> Valid() && Reads(Chain(), off, p[..done])
      {
        var i := BlockAt(off + done, clusterSize);
        var inner := off + done - i * clusterSize;
        var n := if p.Length - done < clusterSize - inner then p.Length - done else clusterSize - inner;
        var ok := FillPiece(p, off, done, i, inner, n, good);
        if !ok { return Failed; }
        done := done + n;
      }
      assert p[..done] == p[..];
      return Done;
    }

    /** One turn of the read loop. */
    method FillPiece(p: array<Byte>, off: nat, done: nat, i: nat, inner: nat, n: nat, ghost good: bool) returns (ok: bool)
      requires Sound() && p !in Repr && done < p.Length && (good ==> Valid() && Reads(Chain(), off, p[..done]))
      requires off + done == i * clusterSize + inner && inner + n <= clusterSize && 0 < n <= p.Length - done
      modifies Repr, p
      ensures Sound() && Repr == old(Repr) && backing == old(backing) && Chain() == old(Chain())
      ensures good ==> Valid() && if ok then Reads(Chain(), off, p[..done + n]) else ByteAt(Chain(), off + done).None?
    {
      var buf := ReadCluster(i);
      ByteIn(Chain(), off + done, i, inner);
      if buf.None? { return false; }
      if good { ReadMore(Chain(), off, p[..done], i, inner, n); }
      CopyInto(p, done, buf.value[inner..inner + n]);
      return true;
    }

    static method CopyInto(p: array<Byte>, at: nat, b: Bytes)
      requires at + |b| <= p.Length
      modifies p
      ensures p[..at + |b|] == old(p[..at]) + b
    {
      forall k | 0 <= k < |b| { p[at + k] := b[k]; }
    }

    /** resolveMapSource: finds the layer that owns cluster `c`, seen from `top`. */
    method ResolveCluster(c: nat, top: string) returns (source: Source, owner: string)
      requires Sound()
      modifies Repr
      ensures Sound() && Repr == old(Repr) && backing == old(backing) && Chain() == old(Chain())
      ensures old(Valid()) ==> Valid() && (source, owner) == Resolve(Chain(), top, c)
      decreases Repr
    {
      ResolveStep(Chain(), top, c);
      if c * clusterSize >= virtualSize { return FromZero, ""; }
      if c !in index { Reload(); }
      if c in index { return if guid == top then FromData else FromBacking, guid; }
      if backing == null { return FromZero, ""; }
      source, owner := backing.ResolveCluster(c, top);
    }

    /** Map: one segment per run of clusters with the same owner; None when the range
        is not inside the disk. */
    method Map(off: nat, length: nat) returns (segs: Option<seq<Segment>>)
      requires Sound()
      modifies Repr
      ensures Sound() && Repr == old(Repr) && backing == old(backing) && Chain() == old(Chain())
      ensures segs.None? <==> Beyond(virtualSize, off, length)
      ensures old(Valid()) ==> Valid() && (segs.Some? ==> Tiles(Chain(), segs.value, off, off + length))
    {
      ghost var good := Valid();
      if length == 0 { return Some([]); }
      if !InBounds(off, length) { return None; }
      Reload();
      var pos: nat, done: seq<Segment> := off, [];
      while pos < off + length
        invariant off <= pos <= off + length
        invariant Sound() && Repr == old(Repr) && backing == old(backing) && Chain() == old(Chain())
        invariant good ==> Valid() && Tiles(Chain(), done, off, pos)
      {
        var i := BlockAt(pos, clusterSize);
        var stop := i * clusterSize + clusterSize;
        if stop > virtualSize { stop := virtualSize; }
        if stop > off + length { stop := off + length; }
        done := MapPiece(done, off, pos, stop, i, good);
        pos := stop;
      }
      return Some(done);
    }

    /** One turn of the map loop: the piece [pos, stop) of cluster `i`. */
    method MapPiece(segs: seq<Segment>, ghost off: nat, pos: nat, stop: nat, i: nat, ghost good: bool)
      returns (r: seq<Segment>)
      requires Sound() && (good ==> Valid() && Tiles(Chain(), segs, off, pos))
      requires i * clusterSize <= pos < stop <= i * clusterSize + clusterSize
      modifies Repr
      ensures Sound() && Repr == old(Repr) && backing == old(backing) && Chain() == old(Chain())
      ensures good ==> Valid() && Tiles(Chain(), r, off, stop)
    {
      var source, owner := ResolveCluster(i, guid);
      var s := Segment(pos, stop - pos, source, owner);
      if good {
        LabelledAll(Chain(), s, i);
        TilesJoin(Chain(), segs, s, off);
      }
      return Join(segs, s);
    }

    /** Commit: copies the image's own clusters, in any order, into its backing image. */
    method Commit(nonces: nat -> Bytes) returns (r: Outcome, ghost done: set<nat>)
      requires Sound() && forall i :: |nonces(i)| == NONCE
      modifies Repr
      ensures Sound() && Repr == old(Repr) && backing == old(backing) && Self() == old(Self())
      ensures r.Refused? <==> backing == null
      ensures r.Refused? ==> Chain() == old(Chain())
      ensures !r.Refused? ==> Grown(old(Chain())[1..], Chain()[1..])
      ensures r.Finished? ==> done == old(index.Keys)
      ensures old(Valid()) && !r.Refused? && Whole(old(Chain())[1]) ==>
        && Valid() && Committed(old(Chain()), Chain(), done)
        && (r.BrokenOff? ==> CommitStuck(Chain(), done))
    {
      done := {};
      if backing == null { return Refused, done; }
      ghost var before, good := Chain(), Valid() && Whole(backing.Self());
      var ok;
      if good { CommitStart(before); }
      ok, done := PushAll(nonces, before, good);
      if !ok { return BrokenOff, done; }
      ReloadBacking();
      return Finished, done;
    }

    method PushAll(nonces: nat -> Bytes, ghost before: seq<Layer>, ghost good: bool)
      returns (ok: bool, ghost done: set<nat>)
      requires Sound() && backing != null && (forall i :: |nonces(i)| == NONCE) && Chain() == before
      requires CommitSoFar(before, before, {}, good) && (good ==> Valid())
      modifies Repr
      ensures Sound() && Repr == old(Repr) && backing == old(backing) && Self() == old(Self())
      ensures CommitSoFar(before, Chain(), done, good) && (good ==> Valid()) && (ok ==> done == old(index.Keys))
      ensures good && !ok ==> CommitStuck(Chain(), done)
    {
      done := {};
      var rest := index.Keys;
      ghost var all := rest;
      while rest != {}
        invariant Sound() && Repr == old(Repr) && backing == old(backing) && Self() == old(Self())
        invariant rest <= all && done == all - rest
        invariant CommitSoFar(before, Chain(), done, good) && (good ==> Valid())
        decreases |rest|
      {
        var c :| c in rest;
        ok := PushCluster(c, nonces(c), before, done, good);
        if !ok { return; }
        rest, done := rest - {c}, done + {c};
      }
      ok := true;
    }

    method ReloadBacking()
      requires Sound() && backing != null
      modifies backing`index
      ensures Sound() && Chain() == old(Chain()) && (old(Valid()) ==> Valid())
    {
      backing.Reload();
    }

    /** One turn of the commit loop. */
    method PushCluster(c: nat, nonce: Bytes, ghost before: seq<Layer>, ghost done: set<nat>, ghost good: bool)
      returns (ok: bool)
      requires Sound() && backing != null && |nonce| == NONCE && c < U64
      requires CommitSoFar(before, Chain(), done, good) && (good ==> Valid())
      modifies Repr
      ensures Sound() && Repr == old(Repr) && backing == old(backing) && Self() == old(Self())
      ensures CommitSoFar(before, Chain(), if ok then done + {c} else done, good) && (good ==> Valid())
      ensures good && !ok ==> !ReadLocal(Self(), c).Got? || Full(Chain()[1])
    {
      ghost var now := Chain();
      var f := ReadLocalCluster(c);
      if !f.Got? { return false; }
      ok := backing.WriteCluster(c, f.bytes, nonce);
      if ok && good { CommitMore(before, now, backing.Self(), done, c); }
    }

    /** hasGuidInChain: also true of a chain in which some guid comes twice. */
    method HasGuidInChain(g: string) returns (r: bool)
      requires Sound()
      ensures r <==> Names(Chain(), g) || Repeats(Chain())
    {
      ghost var n: nat, chain := 0, Chain();
      var visited: set<string> := {};
      var cur: Image? := this;
      SearchStart(chain, g);
      while cur != null
        invariant Searched(chain, n, visited, g) && (cur == null ==> n == |chain|)
        invariant cur != null ==> n < |chain| && cur.Sound() && cur.Chain() == chain[n..]
        decreases |chain| - n
      {
        assert cur.Chain()[0] == chain[n];
        SearchStep(chain, n, visited, g);
        if cur.guid == g || cur.guid in visited { return true; }
        visited := visited + {cur.guid};
        assert cur.Chain()[1..] == chain[n + 1..];
        cur := cur.backing;
        n := n + 1;
      }
      SearchEnd(chain, visited, g);
      return false;
    }

    /** Rebase: copies up every cluster on which the two backings differ, then
        switches. `newBacking` is freshly opened; `n` clusters were dealt with. */
    method Rebase(newBacking: Image, nonces: nat -> Bytes) returns (r: Outcome, ghost n: nat)
      requires Sound() && newBacking.Valid() && Repr !! newBacking.Repr
      requires forall i :: |nonces(i)| == NONCE
      modifies Repr, newBacking.Repr
      ensures Sound() && newBacking.Valid() && newBacking.Chain() == old(newBacking.Chain())
      ensures r.Refused? <==>
        Names(newBacking.Chain(), guid) || Repeats(newBacking.Chain()) || newBacking.clusterSize != clusterSize
      ensures r.Refused? ==> Chain() == old(Chain()) && backing == old(backing)
      ensures Grown(old(Chain()), old(Chain())[0 := Self()])
      ensures old(Valid()) && Whole(old(Self())) && !r.Refused? ==>
        && Valid() && Rebasing(old(Chain()), newBacking.Chain(), Self(), n)
        && (r.BrokenOff? ==> RebaseStuck(old(Chain()), newBacking.Chain(), Self(), n))
      ensures r.BrokenOff? ==> backing == old(backing) && Chain() == old(Chain())[0 := Self()]
      ensures r.Finished? ==> backing == newBacking && Chain() == [Self()] + newBacking.Chain()
      ensures r.Finished? ==> forall c: nat :: InRange(Self(), c) ==> c < n
    {
      n := 0;
      ghost var chain, other, good := Chain(), newBacking.Chain(), Valid() && Whole(Self());
      var cycle := newBacking.HasGuidInChain(guid);
      assert other[0] == newBacking.Self();
      if newBacking.guid == guid || cycle || newBacking.clusterSize != clusterSize {
        return Refused, n;
      }
      if good { RebaseStart(chain, other); }
      var ok;
      ok, n := CopyAll(newBacking, nonces, chain, other, good);
      if !ok { return BrokenOff, n; }
      SwitchBacking(newBacking);
      return Finished, n;
    }

    method CopyAll(newBacking: Image, nonces: nat -> Bytes,
                   ghost chain: seq<Layer>, ghost other: seq<Layer>, ghost good: bool)
      returns (ok: bool, ghost n: nat)
      requires Sound() && newBacking.Valid() && Repr !! newBacking.Repr && Chain() == chain && newBacking.Chain() == other
      requires (forall i :: |nonces(i)| == NONCE) && (good ==> Valid() && Rebasing(chain, other, Self(), 0))
      modifies Repr, newBacking.Repr
      ensures Sound() && newBacking.Valid() && Repr == old(Repr) && newBacking.Repr == old(newBacking.Repr)
      ensures backing == old(backing) && newBacking.Chain() == other
      ensures Chain() == chain[0 := Self()] && Grown(chain, Chain())
      ensures good ==> Valid() && Rebasing(chain, other, Self(), n)
      ensures good && !ok ==> RebaseStuck(chain, other, Self(), n)
      ensures ok ==> forall c: nat :: InRange(Self(), c) ==> c < n
    {
      n := 0;
      var total := TotalClusters(virtualSize, clusterSize);
      for i := 0 to total
        invariant Sound() && newBacking.Valid() && Repr == old(Repr) && newBacking.Repr == old(newBacking.Repr)
        invariant backing == old(backing) && n == i
        invariant newBacking.Chain() == other && Chain() == chain[0 := Self()] && Grown(chain, Chain())
        invariant good ==> Valid() && Rebasing(chain, other, Self(), n)
      {
        ok := CopyUp(i, newBacking, nonces(i), chain, other, good);
        if !ok { return; }
        n := n + 1;
      }
      ok := true;
    }

    method SwitchBacking(newBacking: Image)
      requires Sound() && newBacking.Valid() && Repr !! newBacking.Repr && newBacking.clusterSize == clusterSize
      modifies this`backing, this`Repr
      ensures Sound() && (old(Valid()) ==> Valid()) && backing == newBacking
      ensures Chain() == [Self()] + newBacking.Chain() && Self() == old(Self())
      ensures newBacking.Valid() && newBacking.Chain() == old(newBacking.Chain())
    {
      backing := newBacking;
      Repr := {this} + newBacking.Repr;
    }

    /** One turn of the rebase loop. */
    method CopyUp(c: nat, newBacking: Image, nonce: Bytes,
                  ghost chain: seq<Layer>, ghost other: seq<Layer>, ghost good: bool)
      returns (ok: bool)
      requires Sound() && newBacking.Valid() && Repr !! newBacking.Repr && |nonce| == NONCE
      requires newBacking.Chain() == other && |chain| > 0 && Chain() == chain[0 := Self()] && Grown(chain, Chain())
      requires InRange(Self(), c) && (good ==> Valid() && Rebasing(chain, other, Self(), c))
      modifies Repr, newBacking.Repr
      ensures Sound() && newBacking.Valid() && Repr == old(Repr) && newBacking.Repr == old(newBacking.Repr)
      ensures backing == old(backing) && newBacking.Chain() == other
      ensures Chain() == chain[0 := Self()] && Grown(chain, Chain())
      ensures good ==> Valid() && Rebasing(chain, other, Self(), if ok then c + 1 else c)
      ensures good && !ok ==> RebaseStuck(chain, other, Self(), c)
    {
      if good { RebaseAt(chain, other, Self(), c); }
      if c in index {
        if good { RebaseSkip(chain, other, Self(), c); }
        return true;
      }
      var was, will := ReadBoth(c, newBacking);
      assert Chain()[1..] == chain[1..];
      if was.None? || will.None? { return false; }
      if was.value == will.value {
        if good { RebaseSkip(chain, other, Self(), c); }
        return true;
      }
      ok := Pull(c, was.value, nonce, chain, other, good);
    }

    /** Cluster `c` of the backing image, zeros without one, and of the new backing. */
    method ReadBoth(c: nat, newBacking: Image) returns (was: Option<Bytes>, will: Option<Bytes>)
      requires Sound() && newBacking.Valid() && Repr !! newBacking.Repr
      modifies Repr, newBacking.Repr
      ensures Sound() && newBacking.Valid() && Repr == old(Repr) && newBacking.Repr == old(newBacking.Repr)
      ensures backing == old(backing) && Chain() == old(Chain()) && newBacking.Chain() == old(newBacking.Chain())
      ensures Self() == old(Self()) && will == VimgChain.ReadCluster(newBacking.Chain(), c)
      ensures old(Valid()) ==> Valid() && was == Below(Chain(), c)
    {
      was := Some(Zeros(clusterSize));
      if backing != null { was := backing.ReadCluster(c); }
      will := newBacking.ReadCluster(c);
    }

    /** Copies one cluster up. */
    method Pull(c: nat, buf: Bytes, nonce: Bytes, ghost chain: seq<Layer>, ghost other: seq<Layer>, ghost good: bool)
      returns (ok: bool)
      requires Sound() && |nonce| == NONCE && |chain| > 0 && Chain() == chain[0 := Self()] && Grown(chain, Chain())
      requires InRange(Self(), c) && (good ==> Valid() && Rebasing(chain, other, Self(), c))
      requires good ==> MustCopy(chain, other, c) && Readable(chain, other, c) && Below(chain, c) == Some(buf)
      modifies this
      ensures Sound() && Repr == old(Repr) && backing == old(backing)
      ensures Chain() == chain[0 := Self()] && Grown(chain, Chain())
      ensures good ==> Valid() && Rebasing(chain, other, Self(), if ok then c + 1 else c)
      ensures good && !ok ==> Full(Self())
    {
      ghost var now := Self();
      InRangeSmall(now, c);
      ok := WriteCluster(c, buf, nonce);
      if ok && good { RebaseCopy(chain, other, now, Self(), c); }
    }
  }
}
