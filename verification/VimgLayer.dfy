/** One image of a backing chain: an append-only DATA file, an append-only IDX file
    of 20-byte entries, and the index they spell, the last entry of a cluster winning. */
module VimgLayer {
  import opened Common
  import opened VimgCodec

  const ENTRY: nat := 20
  const FILE_LIMIT: nat := U64 / 2

  datatype Entry = Entry(cluster: nat, offset: nat, length: nat)

  predicate EntryFits(e: Entry) {
    e.cluster < U64 && e.offset < U64 && e.length < U32
  }

  function PutEntry(e: Entry): (b: Bytes)
    ensures |b| == ENTRY
  {
    Put(e.cluster, 8) + Put(e.offset, 8) + Put(e.length, 4)
  }

  function GetEntry(b: Bytes): Entry
    requires |b| == ENTRY
  {
    Entry(Le(b[0..8]), Le(b[8..16]), Le(b[16..20]))
  }

  lemma {:induction false} EntryRoundTrip(e: Entry)
    requires EntryFits(e)
    ensures GetEntry(PutEntry(e)) == e
  {
    Pow256Values();
    LePut(e.cluster, 8);
    LePut(e.offset, 8);
    LePut(e.length, 4);
    var b := PutEntry(e);
    assert b[0..8] == Put(e.cluster, 8) && b[8..16] == Put(e.offset, 8) && b[16..20] == Put(e.length, 4);
  }

  // -------------------------------------------------------------------- replay

  type Index = map<nat, Entry>

  /** The index after the first `n` entries of the file. */
  function ReplayN(idx: Bytes, n: nat): Index
    requires n * ENTRY <= |idx|
  {
    if n == 0 then map[]
    else
      var e := GetEntry(idx[(n - 1) * ENTRY..n * ENTRY]);
      ReplayN(idx, n - 1)[e.cluster := e]
  }

  /** Loading the file: whole entries only, a torn one at the end is ignored. */
  function Replay(idx: Bytes): Index {
    ReplayN(idx, |idx| / ENTRY)
  }

  lemma {:induction false} ReplayPrefix(idx: Bytes, longer: Bytes, n: nat)
    requires n * ENTRY <= |idx| && idx <= longer
    ensures ReplayN(longer, n) == ReplayN(idx, n)
  {
    if n > 0 {
      ReplayPrefix(idx, longer, n - 1);
      assert longer[(n - 1) * ENTRY..n * ENTRY] == idx[(n - 1) * ENTRY..n * ENTRY];
    }
  }

  /** A 64-bit field gives a 64-bit cluster number. */
  lemma {:induction false} ReplayNKeys(idx: Bytes, n: nat, c: nat)
    requires n * ENTRY <= |idx| && c in ReplayN(idx, n)
    ensures c < U64
  {
    var e := GetEntry(idx[(n - 1) * ENTRY..n * ENTRY]);
    if c == e.cluster { Le64(idx[(n - 1) * ENTRY..n * ENTRY][0..8]); } else { ReplayNKeys(idx, n - 1, c); }
  }

  lemma {:induction false} ReplayKeys(idx: Bytes)
    ensures forall c :: c in Replay(idx) ==> c < U64
  {
    forall c | c in Replay(idx) ensures c < U64 { ReplayNKeys(idx, |idx| / ENTRY, c); }
  }

  /** An entry appended to whole entries is the last one replayed. */
  lemma {:induction false} ReplayAppend(idx: Bytes, e: Entry)
    requires |idx| % ENTRY == 0 && EntryFits(e)
    ensures Replay(idx + PutEntry(e)) == Replay(idx)[e.cluster := e]
  {
    var n := |idx| / ENTRY;
    var after := idx + PutEntry(e);
    assert |after| / ENTRY == n + 1;
    assert after[n * ENTRY..(n + 1) * ENTRY] == PutEntry(e);
    EntryRoundTrip(e);
    ReplayPrefix(idx, after, n);
  }

  /** What a reload reads at the end of the whole entries once `e` has been appended. */
  function Seam(idx: Bytes, e: Entry): (b: Bytes)
    ensures |b| == ENTRY
  {
    (idx[|idx| / ENTRY * ENTRY..] + PutEntry(e))[..ENTRY]
  }

  /** Appending an entry that is not there yet takes effect exactly when a reload reads
      that entry back from the seam, whatever the file ends with. */
  lemma {:induction false} AppendExact(idx: Bytes, e: Entry)
    requires EntryFits(e) && (e.cluster in Replay(idx) ==> Replay(idx)[e.cluster] != e)
    ensures Replay(idx + PutEntry(e)) == Replay(idx)[e.cluster := e] <==> Seam(idx, e) == PutEntry(e)
  {
    var n := |idx| / ENTRY;
    var after, got := idx + PutEntry(e), GetEntry(Seam(idx, e));
    assert |after| / ENTRY == n + 1 && after[n * ENTRY..(n + 1) * ENTRY] == Seam(idx, e);
    ReplayPrefix(idx, after, n);
    assert Replay(after) == Replay(idx)[got.cluster := got];
    EntryRoundTrip(e);
    PutGet(Seam(idx, e));
    if Replay(after) == Replay(idx)[e.cluster := e] {
      assert Replay(after)[e.cluster] == e;
    }
  }

  lemma PutGet(b: Bytes)
    requires |b| == ENTRY
    ensures PutEntry(GetEntry(b)) == b
  {
    PutLe(b[0..8]);
    PutLe(b[8..16]);
    PutLe(b[16..20]);
    assert b == b[0..8] + b[8..16] + b[16..20];
  }

  /** Over a torn tail it need not: opening tolerates the torn bytes, but the next
      append lands behind them, and a reload reads across the seam. Here the new
      cluster 5 is lost. */
  lemma TornTailLosesAppend()
    ensures var idx: Bytes := [0];
      Replay(idx) == map[] && 5 !in Replay(idx + PutEntry(Entry(5, 0, 512)))
  {
    var e := PutEntry(Entry(5, 0, 512));
    var after: Bytes := [0] + e;
    assert |after| / ENTRY == 1 && ReplayN(after, 0) == map[];
    assert Put(5, 8)[0] == 5;
    ShiftedField(after[0..20][0..8]);
  }

  lemma {:induction false} ShiftedField(b: Bytes)
    requires |b| > 1 && b[0] == 0 && b[1] == 5
    ensures Le(b) > 5
  {
  }

  // -------------------------------------------------------------------- layers

  datatype Layer = Layer(
    guid: string, virtualSize: nat, clusterSize: nat, codec: Codec, data: Bytes, idx: Bytes)

  /** What a layer says about a cluster: nothing, something unreadable, or its bytes. */
  datatype Found = Missing | Bad | Got(bytes: Bytes)

  function Pad(b: Bytes, n: nat): (r: Bytes)
    requires |b| <= n
    ensures |r| == n && r[..|b|] == b && forall i :: |b| <= i < n ==> r[i] == 0
  {
    b + Zeros(n - |b|)
  }

  function Zeros(n: nat): (r: Bytes)
    ensures |r| == n && forall i :: 0 <= i < n ==> r[i] == 0
  {
    seq(n, _ => 0)
  }

  function Decoded(l: Layer, c: nat, stored: Bytes): (f: Found)
    ensures f.Got? ==> |f.bytes| == l.clusterSize
  {
    match Decode(l.codec, c, stored)
    case None => Bad
    case Some(plain) => if |plain| > l.clusterSize then Bad else Got(Pad(plain, l.clusterSize))
  }

  function Fetch(l: Layer, c: nat, e: Entry): (f: Found)
    ensures f.Got? ==> |f.bytes| == l.clusterSize
  {
    if e.offset >= FILE_LIMIT || (e.length > 0 && e.offset + e.length > |l.data|) then Bad
    else Decoded(l, c, if e.length == 0 then [] else l.data[e.offset..e.offset + e.length])
  }

  function ReadLocal(l: Layer, c: nat): (f: Found)
    ensures f.Got? ==> |f.bytes| == l.clusterSize
  {
    var m := Replay(l.idx);
    if c in m then Fetch(l, c, m[c]) else Missing
  }

  /** Every entry lies within DATA. */
  ghost predicate EntriesInside(l: Layer) {
    forall c :: c in Replay(l.idx) ==>
      Replay(l.idx)[c].offset + Replay(l.idx)[c].length <= |l.data|
  }

  predicate Sized(l: Layer) {
    0 < l.clusterSize <= U32 - 512 && l.virtualSize < U64
  }

  /** An image as it may be opened: the index file may end in a torn entry and name
      clusters that did not reach DATA. */
  ghost predicate LayerOk(l: Layer) {
    Sized(l) && CipherOk(l.codec.cipher) && |l.data| < FILE_LIMIT
  }

  /** One that may be appended to: whole entries, all of them inside DATA. */
  ghost predicate Whole(l: Layer) {
    |l.idx| % ENTRY == 0 && EntriesInside(l)
  }

  // -------------------------------------------------------------------- writing

  function Append(l: Layer, c: nat, buf: Bytes, nonce: Bytes): Layer {
    var stored := Encode(l.codec, c, buf, nonce);
    l.(data := l.data + stored, idx := l.idx + PutEntry(Entry(c, |l.data|, |stored|)))
  }

  predicate Room(l: Layer, c: nat, buf: Bytes, nonce: Bytes) {
    |l.data| + |Encode(l.codec, c, buf, nonce)| < FILE_LIMIT
  }

  /** There is no room for one more cluster: it takes its own bytes, and in a frame 24 for
      the header, 12 for the nonce and 16 for the tag. */
  predicate Full(l: Layer) {
    |l.data| + l.clusterSize + (if l.codec.encrypted then 52 else 0) >= 0x8000_0000_0000_0000
  }

  lemma FullExact(l: Layer, c: nat, buf: Bytes, nonce: Bytes)
    requires LayerOk(l) && |buf| == l.clusterSize && |nonce| == NONCE
    ensures Full(l) <==> !Room(l, c, buf, nonce)
  {
  }

  /** What reading a cluster back gives, whatever the nonce was. */
  function Back(l: Layer, c: nat, buf: Bytes): Found
    requires |buf| == l.clusterSize
  {
    if l.codec.encrypted then Got(buf) else Decoded(l, c, buf)
  }

  /** A write is seen by reads of its cluster and by no other. */
  lemma {:induction false} AppendReads(l: Layer, c: nat, buf: Bytes, nonce: Bytes)
    requires LayerOk(l) && Whole(l) && c < U64 && |buf| == l.clusterSize && |nonce| == NONCE && Room(l, c, buf, nonce)
    ensures LayerOk(Append(l, c, buf, nonce)) && Whole(Append(l, c, buf, nonce))
    ensures ReadLocal(Append(l, c, buf, nonce), c) == Back(l, c, buf)
    ensures forall d :: d != c ==> ReadLocal(Append(l, c, buf, nonce), d) == ReadLocal(l, d)
  {
    AppendIndex(l, c, buf, nonce);
    var after := Append(l, c, buf, nonce);
    AppendedFetch(l, c, buf, nonce);
    forall d | d != c ensures ReadLocal(after, d) == ReadLocal(l, d) {
      if d in Replay(l.idx) { FetchGrows(l, after, d, Replay(l.idx)[d]); }
    }
  }

  lemma {:induction false} AppendIndex(l: Layer, c: nat, buf: Bytes, nonce: Bytes)
    requires LayerOk(l) && Whole(l) && c < U64 && |buf| == l.clusterSize && |nonce| == NONCE && Room(l, c, buf, nonce)
    ensures LayerOk(Append(l, c, buf, nonce)) && Whole(Append(l, c, buf, nonce))
    ensures Replay(Append(l, c, buf, nonce).idx)
         == Replay(l.idx)[c := Entry(c, |l.data|, |Encode(l.codec, c, buf, nonce)|)]
  {
    StoredSize(l, c, buf, nonce);
    ReplayAppend(l.idx, Entry(c, |l.data|, |Encode(l.codec, c, buf, nonce)|));
  }

  lemma AppendedFetch(l: Layer, c: nat, buf: Bytes, nonce: Bytes)
    requires LayerOk(l) && |buf| == l.clusterSize && |nonce| == NONCE && Room(l, c, buf, nonce)
    ensures Fetch(Append(l, c, buf, nonce), c, Entry(c, |l.data|, |Encode(l.codec, c, buf, nonce)|)) == Back(l, c, buf)
  {
    var stored := Encode(l.codec, c, buf, nonce);
    StoredSize(l, c, buf, nonce);
    FetchTail(l, c, stored);
    DecodedStored(l, c, buf, nonce);
  }

  /** What has just been appended is what is fetched. */
  lemma {:induction false} FetchTail(l: Layer, c: nat, stored: Bytes)
    requires 0 < |stored| && |l.data| < FILE_LIMIT
    ensures forall idx :: Fetch(l.(data := l.data + stored, idx := idx), c, Entry(c, |l.data|, |stored|)) == Decoded(l, c, stored)
  {
    assert (l.data + stored)[|l.data|..|l.data| + |stored|] == stored;
  }

  lemma {:induction false} DecodedStored(l: Layer, c: nat, buf: Bytes, nonce: Bytes)
    requires LayerOk(l) && |buf| == l.clusterSize && |nonce| == NONCE
    ensures Decoded(l, c, Encode(l.codec, c, buf, nonce)) == Back(l, c, buf)
  {
    ReadBack(l.codec, c, buf, nonce);
    assert Pad(buf, l.clusterSize) == buf;
  }

  lemma {:induction false} StoredSize(l: Layer, c: nat, buf: Bytes, nonce: Bytes)
    requires LayerOk(l) && |buf| == l.clusterSize && |nonce| == NONCE
    ensures 0 < |Encode(l.codec, c, buf, nonce)| < U32
  {
  }

  /** Appending to DATA changes no read of an entry inside it. */
  lemma {:induction false} FetchGrows(l: Layer, after: Layer, c: nat, e: Entry)
    requires l.data <= after.data && after.codec == l.codec && after.clusterSize == l.clusterSize
    requires e.offset + e.length <= |l.data|
    ensures Fetch(after, c, e) == Fetch(l, c, e)
  {
    if e.length > 0 {
      assert after.data[e.offset..e.offset + e.length] == l.data[e.offset..e.offset + e.length];
    }
  }

  /** The entry `e` of `d` ends past DATA, and the bytes an append of `stored` puts under
      it decode: what was unreadable comes to life. */
  predicate RevivesEntry(l: Layer, d: nat, e: Entry, stored: Bytes) {
    && e.length > 0 && e.offset < FILE_LIMIT
    && |l.data| < e.offset + e.length <= |l.data| + |stored|
    && Decoded(l, d, (l.data + stored)[e.offset..e.offset + e.length]).Got?
  }

  predicate Revives(l: Layer, d: nat, stored: Bytes) {
    d in Replay(l.idx) && RevivesEntry(l, d, Replay(l.idx)[d], stored)
  }

  lemma {:induction false} FetchExact(l: Layer, after: Layer, d: nat, e: Entry, stored: Bytes)
    requires after == l.(data := l.data + stored, idx := after.idx)
    ensures Fetch(after, d, e) == Fetch(l, d, e) <==> !RevivesEntry(l, d, e, stored)
  {
    if e.offset + e.length <= |l.data| {
      FetchGrows(l, after, d, e);
    } else {
      assert forall s :: Decoded(after, d, s) == Decoded(l, d, s);
    }
  }

  /** Behind whole entries, a write of one cluster is seen by reads of another exactly when
      it revives that other one's entry. */
  lemma {:induction false} AppendReadsExact(l: Layer, c: nat, d: nat, buf: Bytes, nonce: Bytes)
    requires LayerOk(l) && |l.idx| % ENTRY == 0 && c < U64 && d != c
    requires |buf| == l.clusterSize && |nonce| == NONCE && Room(l, c, buf, nonce)
    ensures ReadLocal(Append(l, c, buf, nonce), d) == ReadLocal(l, d)
       <==> !Revives(l, d, Encode(l.codec, c, buf, nonce))
  {
    var after, stored := Append(l, c, buf, nonce), Encode(l.codec, c, buf, nonce);
    StoredSize(l, c, buf, nonce);
    ReplayAppend(l.idx, Entry(c, |l.data|, |stored|));
    if d in Replay(l.idx) { FetchExact(l, after, d, Replay(l.idx)[d], stored); }
  }

  /** For instance: an entry that names just what is appended reads as another cluster's
      data. */
  lemma {:induction false} OverhangRevives(l: Layer, c: nat, d: nat, buf: Bytes, nonce: Bytes)
    requires LayerOk(l) && |l.idx| % ENTRY == 0 && !l.codec.encrypted && !Framed(buf)
    requires c < U64 && d != c && 0 < |buf| == l.clusterSize && Room(l, c, buf, nonce)
    requires d in Replay(l.idx) && Replay(l.idx)[d] == Entry(d, |l.data|, |buf|)
    ensures Revives(l, d, Encode(l.codec, c, buf, nonce))
    ensures ReadLocal(l, d) == Bad && ReadLocal(Append(l, c, buf, nonce), d) == Got(buf)
  {
    ReplayAppend(l.idx, Entry(c, |l.data|, |buf|));
    FetchTail(l, d, buf);
    assert (l.data + buf)[|l.data|..|l.data| + |buf|] == buf;
    assert Pad(buf, l.clusterSize) == buf;
  }

  /** A written cluster reads back as written exactly when the codec keeps it. */
  lemma {:induction false} BackExact(l: Layer, c: nat, buf: Bytes)
    requires |buf| == l.clusterSize
    ensures Back(l, c, buf) == Got(buf) <==> Keeps(l.codec, buf)
  {
    if Keeps(l.codec, buf) {
      assert Pad(buf, l.clusterSize) == buf;
    } else if Back(l, c, buf) == Got(buf) {
      FrameNeverItself(l, c, buf);
    }
  }

  /** A raw cluster that looks like a frame decodes, if at all, to a proper suffix of
      itself, and padding that with zeros cannot give the cluster back. */
  lemma {:induction false} FrameNeverItself(l: Layer, c: nat, buf: Bytes)
    requires |buf| == l.clusterSize && !l.codec.encrypted && Framed(buf)
    ensures Decoded(l, c, buf) != Got(buf)
  {
    if Decoded(l, c, buf) == Got(buf) {
      var plain := Decode(l.codec, c, buf).value;
      var p := |buf| - |plain|;
      assert plain == buf[p..];
      FrameStart(buf);
      AllZero(buf, p, 0);
    }
  }

  lemma FrameStart(buf: Bytes)
    requires Framed(buf)
    ensures buf[0] == 0x56
  {
  }

  lemma {:induction false} AllZero(buf: Bytes, p: nat, i: nat)
    requires 0 < p <= |buf| && i < |buf| && buf == Pad(buf[p..], |buf|)
    ensures buf[i] == 0
    decreases |buf| - i
  {
    if i + p < |buf| {
      AllZero(buf, p, i + p);
      assert buf[..|buf| - p][i] == buf[p..][i];
    }
  }

  // ------------------------------------------------------------------- recovery

  datatype Write = Write(cluster: nat, buf: Bytes, nonce: Bytes)

  /** A log of cluster writes, each of which had room. */
  ghost predicate Log(l: Layer, ws: seq<Write>)
    decreases |ws|
  {
    if ws == [] then LayerOk(l) && Whole(l)
    else
      var w := ws[|ws| - 1];
      && Log(l, ws[..|ws| - 1])
      && w.cluster < U64 && |w.buf| == l.clusterSize && |w.nonce| == NONCE
      && Room(AfterLog(l, ws[..|ws| - 1]), w.cluster, w.buf, w.nonce)
  }

  function AfterLog(l: Layer, ws: seq<Write>): Layer
    decreases |ws|
  {
    if ws == [] then l
    else
      var w := ws[|ws| - 1];
      Append(AfterLog(l, ws[..|ws| - 1]), w.cluster, w.buf, w.nonce)
  }

  /** A log only extends the files: one entry and one cluster per write. */
  lemma {:induction false} LogOk(l: Layer, ws: seq<Write>)
    requires Log(l, ws)
    ensures var r := AfterLog(l, ws);
      && LayerOk(r) && Whole(r) && |r.idx| == |l.idx| + |ws| * ENTRY
      && r == l.(data := r.data, idx := r.idx)
    decreases |ws|
  {
    if ws != [] {
      var w := ws[|ws| - 1];
      LogOk(l, ws[..|ws| - 1]);
      AppendIndex(AfterLog(l, ws[..|ws| - 1]), w.cluster, w.buf, w.nonce);
    }
  }

  lemma {:induction false} LogPrefix(l: Layer, ws: seq<Write>, k: nat)
    requires Log(l, ws) && k <= |ws|
    ensures Log(l, ws[..k])
    ensures AfterLog(l, ws[..k]).data <= AfterLog(l, ws).data && AfterLog(l, ws[..k]).idx <= AfterLog(l, ws).idx
    decreases |ws|
  {
    if k == |ws| {
      assert ws[..k] == ws;
    } else {
      LogPrefix(l, ws[..|ws| - 1], k);
      assert ws[..|ws| - 1][..k] == ws[..k];
    }
  }

  /** A cut index file replays as its whole entries do. */
  lemma CutReplay(early: Bytes, whole: Bytes, n: nat)
    requires early <= whole && n <= |whole| && |early| == n / ENTRY * ENTRY
    ensures Replay(whole[..n]) == Replay(early)
  {
    assert early <= whole[..n];
    ReplayPrefix(early, whole[..n], n / ENTRY);
  }

  /** Log recovery. Cut the IDX file of a fresh image anywhere, and keep of DATA at
      least what the surviving whole entries refer to: reloading gives exactly the
      image as it stood after the first n / 20 cluster writes. */
  lemma {:induction false} Recovery(l: Layer, ws: seq<Write>, n: nat, data: Bytes, c: nat)
    requires l.idx == [] && Log(l, ws) && n <= |AfterLog(l, ws).idx|
    requires n / ENTRY <= |ws| && AfterLog(l, ws[..n / ENTRY]).data <= data
    ensures ReadLocal(AfterLog(l, ws).(data := data, idx := AfterLog(l, ws).idx[..n]), c)
         == ReadLocal(AfterLog(l, ws[..n / ENTRY]), c)
  {
    var k := n / ENTRY;
    LogPrefix(l, ws, k);
    LogOk(l, ws[..k]);
    CutReplay(AfterLog(l, ws[..k]).idx, AfterLog(l, ws).idx, n);
    RecoveredRead(l, ws, k, data, AfterLog(l, ws).idx[..n], c);
  }

  lemma {:induction false} RecoveredRead(l: Layer, ws: seq<Write>, k: nat, data: Bytes, cut: Bytes, c: nat)
    requires Log(l, ws) && k <= |ws| && Log(l, ws[..k]) && AfterLog(l, ws[..k]).data <= data
    requires Replay(cut) == Replay(AfterLog(l, ws[..k]).idx)
    ensures ReadLocal(AfterLog(l, ws).(data := data, idx := cut), c) == ReadLocal(AfterLog(l, ws[..k]), c)
  {
    LogOk(l, ws);
    LogOk(l, ws[..k]);
    if c in Replay(cut) {
      FetchGrows(AfterLog(l, ws[..k]), AfterLog(l, ws).(data := data, idx := cut), c, Replay(cut)[c]);
    }
  }
}
