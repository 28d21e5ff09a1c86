/** The walk over the trees of an image: a graph search with a visited set. */
module BtrfsTree {
  import opened Common
  import opened FsBitmaps
  import opened BtrfsImage
  import opened BtrfsWalker

  // ------------------------------------------------------------- reachability

  /** The block at `a` leads to the block at `b`. */
  ghost predicate Edge(img: Image, a: nat, b: nat) {
    b != 0 && Descend(b) in NodeActions(img, a)
  }

  ghost predicate Path(img: Image, p: seq<nat>) {
    |p| > 0 && p[0] != 0 && forall i :: 0 <= i < |p| - 1 ==> Edge(img, p[i], p[i + 1])
  }

  ghost predicate Reaches(img: Image, a: nat, b: nat) {
    exists p :: Path(img, p) && p[0] == a && p[|p| - 1] == b
  }

  lemma ReachesSelf(img: Image, a: nat)
    requires a != 0
    ensures Reaches(img, a, a)
  {
    assert Path(img, [a]);
  }

  lemma ReachesStep(img: Image, a: nat, b: nat, c: nat)
    requires a != 0 && Edge(img, a, b) && Reaches(img, b, c)
    ensures Reaches(img, a, c)
  {
    var p :| Path(img, p) && p[0] == b && p[|p| - 1] == c;
    var q := [a] + p;
    forall i | 0 <= i < |q| - 1 ensures Edge(img, q[i], q[i + 1]) {
      if i > 0 { assert Edge(img, p[i - 1], p[i]); }
    }
    assert Path(img, q);
  }

  /** Whatever `v` leads to is among `nodes`. */
  ghost predicate ClosedAt(img: Image, nodes: set<nat>, v: nat) {
    forall c :: Edge(img, v, c) ==> c in nodes
  }

  lemma {:induction false} PathInside(img: Image, nodes: set<nat>, p: seq<nat>, i: nat)
    requires Path(img, p) && i < |p| && p[0] in nodes && forall v :: v in nodes ==> ClosedAt(img, nodes, v)
    ensures p[i] in nodes
  {
    if i > 0 {
      PathInside(img, nodes, p, i - 1);
      assert Edge(img, p[i - 1], p[i]);
    }
  }

  // --------------------------------------------------------------------- bytes

  ghost predicate ActionHolds(img: Image, x: Action, q: nat) {
    x.Mark? && HoldsByte(img, x.logical, x.logical + x.length, q)
  }

  /** A byte of the block itself, or of an extent one of its items records. */
  ghost predicate NodeHolds(img: Image, v: nat, q: nat) {
    || HoldsByte(img, v, v + img.nodeSize, q)
    || exists x :: x in NodeActions(img, v) && ActionHolds(img, x, q)
  }

  ghost predicate TreeHolds(img: Image, nodes: set<nat>, q: nat) {
    exists v :: v in nodes && NodeHolds(img, v, q)
  }

  ghost function TreeBytes(img: Image, nodes: set<nat>): iset<nat> {
    iset q: nat | TreeHolds(img, nodes, q)
  }

  ghost predicate ActionsHold(img: Image, actions: seq<Action>, q: nat) {
    exists x :: x in actions && ActionHolds(img, x, q)
  }

  ghost function ActionBytes(img: Image, actions: seq<Action>): iset<nat> {
    iset q: nat | ActionsHold(img, actions, q)
  }

  lemma ActionBytesStep(img: Image, actions: seq<Action>, x: Action)
    ensures ActionBytes(img, actions + [x])
         == ActionBytes(img, actions) + if x.Mark? then Bytes(img, x.logical, x.logical + x.length) else iset{}
  {
    forall q: nat
      ensures ActionsHold(img, actions + [x], q) <==> ActionsHold(img, actions, q) || ActionHolds(img, x, q)
    {
      if ActionsHold(img, actions, q) {
        var y :| y in actions && ActionHolds(img, y, q);
        assert y in actions + [x];
      }
      if ActionHolds(img, x, q) { assert x in actions + [x]; }
    }
  }

  lemma TreeBytesUnion(img: Image, a: set<nat>, b: set<nat>)
    ensures TreeBytes(img, a + b) == TreeBytes(img, a) + TreeBytes(img, b)
  {
  }

  /** One block's bytes: its own range and those of all its actions. */
  lemma NodeBytes(img: Image, v: nat)
    ensures TreeBytes(img, {v}) == Bytes(img, v, v + img.nodeSize) + ActionBytes(img, NodeActions(img, v))
  {
  }

  // ---------------------------------------------------------------------- walk

  /** The part of a block the walk has dealt with: the blocks `found` it has newly
      visited below `v` are reached from `v` and closed, and the pointers among
      `actions` have been followed. */
  ghost predicate Explored(img: Image, visited: set<nat>, found: set<nat>, v: nat, actions: seq<Action>) {
    && (forall u :: u in found ==> Reaches(img, v, u) && ClosedAt(img, visited, u))
    && (forall c :: c != 0 && Descend(c) in actions ==> c in visited)
  }

  /** How many addresses have not been visited; a walk always has one fewer. */
  ghost function Left(visited: set<nat>): nat {
    |Span(0, U64) - visited|
  }

  lemma LeftShrinks(a: set<nat>, b: set<nat>)
    requires a <= b
    ensures Left(b) <= Left(a)
  {
    var x, y := Span(0, U64) - b, Span(0, U64) - a;
    assert y == x + (y - x);
  }

  lemma VisitShrinks(visited: set<nat>, v: nat)
    requires v < U64 && v !in visited
    ensures Left(visited + {v}) < Left(visited)
  {
    assert v in Span(0, U64);
    assert Span(0, U64) - visited == (Span(0, U64) - (visited + {v})) + {v};
  }

  lemma {:induction false} SameChunk(entries: seq<Chunk>, a: nat, found: Option<Chunk>)
    requires ChunksOk(entries)
    requires found.Some? <==> Mapped(entries, a)
    requires found.Some? ==> found.value in entries && Inside(found.value, a)
    ensures found == ChunkAt(entries, a)
  {
  }

  /** What carrying out one action does to the visited set. */
  ghost predicate Followed(img: Image, was: set<nat>, now: set<nat>, x: Action) {
    if x.Mark? then now == was
    else (x.logical != 0 ==> x.logical in now) && Explored(img, now, now - was, x.logical, [])
  }

  lemma ExploredStep(img: Image, was: set<nat>, now: set<nat>, start: set<nat>, v: nat, done: seq<Action>, x: Action)
    requires start <= was <= now && v != 0 && x in NodeActions(img, v)
    requires Explored(img, was, was - start, v, done) && Followed(img, was, now, x)
    ensures Explored(img, now, now - start, v, done + [x])
  {
    forall u | u in now - start ensures Reaches(img, v, u) && ClosedAt(img, now, u) {
      if u in was {
        assert u in was - start;
      } else {
        assert u in now - was;
        ReachesStep(img, v, x.logical, u);
      }
    }
  }

  lemma ActionFollowed(
    img: Image, was: set<nat>, now: set<nat>, start: set<nat>, v: nat, actions: seq<Action>, k: nat)
    requires k < |actions| && actions == NodeActions(img, v) && start <= was <= now && v != 0
    requires Explored(img, was, was - start, v, actions[..k]) && Followed(img, was, now, actions[k])
    ensures Explored(img, now, now - start, v, actions[..k + 1])
    ensures TreeBytes(img, was - start) + ActionBytes(img, actions[..k]) + StepBytes(img, was, now, actions[k])
         == TreeBytes(img, now - start) + ActionBytes(img, actions[..k + 1])
  {
    assert actions[..k + 1] == actions[..k] + [actions[k]];
    ExploredStep(img, was, now, start, v, actions[..k], actions[k]);
    BytesStep(img, was, now, start, actions[..k], actions[k]);
  }

  /** A walk of one block: its own range, then its actions. */
  lemma WalkDone(img: Image, was: set<nat>, now: set<nat>, v: nat)
    requires v != 0 && v !in was && was + {v} <= now
    requires Explored(img, now, now - (was + {v}), v, NodeActions(img, v))
    ensures Explored(img, now, now - was, v, [])
    ensures Bytes(img, v, v + img.nodeSize)
          + (TreeBytes(img, now - (was + {v})) + ActionBytes(img, NodeActions(img, v)))
         == TreeBytes(img, now - was)
  {
    ReachesSelf(img, v);
    assert ClosedAt(img, now, v);
    forall u | u in now - was ensures Reaches(img, v, u) && ClosedAt(img, now, u) {
      if u != v { assert u in now - (was + {v}); }
    }
    NodeBytes(img, v);
    assert now - was == (now - (was + {v})) + {v};
    TreeBytesUnion(img, now - (was + {v}), {v});
  }

  /** From `start` on, when `v` had just been entered among the visited, its own range was
      marked, then its actions were carried out. */
  ghost predicate BlockDone(img: Image, start: set<nat>, now: set<nat>, v: nat,
                            before: Segments, marked: Segments, after: Segments, bits: int)
    requires img.nodeSize > 0
  {
    && start <= now && Explored(img, now, now - start, v, NodeActions(img, v))
    && MarkedWith(before, marked, bits, img.nodeSize, Bytes(img, v, v + img.nodeSize))
    && MarkedWith(marked, after, bits, img.nodeSize, TreeBytes(img, now - start) + ActionBytes(img, NodeActions(img, v)))
  }

  lemma {:induction false} WalkMarks(img: Image, was: set<nat>, now: set<nat>, v: nat,
                  before: Segments, marked: Segments, after: Segments, bits: int)
    requires img.nodeSize > 0 && v != 0 && v !in was && BlockDone(img, was + {v}, now, v, before, marked, after, bits)
    ensures Explored(img, now, now - was, v, [])
    ensures MarkedWith(before, after, bits, img.nodeSize, TreeBytes(img, now - was))
  {
    WalkDone(img, was, now, v);
    MarkedTrans(before, marked, after, bits, img.nodeSize, Bytes(img, v, v + img.nodeSize),
                TreeBytes(img, now - (was + {v})) + ActionBytes(img, NodeActions(img, v)));
  }

  lemma {:induction false} NothingNew(img: Image, visited: set<nat>, segs: Segments, bits: int)
    requires img.nodeSize > 0
    ensures MarkedWith(segs, segs, bits, img.nodeSize, TreeBytes(img, visited - visited))
  {
  }

  lemma {:induction false} NothingFollowed(img: Image, visited: set<nat>, v: nat, segs: Segments, bits: int)
    requires img.nodeSize > 0
    ensures Explored(img, visited, visited - visited, v, [])
    ensures MarkedWith(segs, segs, bits, img.nodeSize, TreeBytes(img, visited - visited) + ActionBytes(img, []))
  {
  }

  /** The marks of one more action. */
  lemma StepMarks(img: Image, was: set<nat>, now: set<nat>, start: set<nat>, v: nat, actions: seq<Action>, k: nat,
                  before: Segments, prior: Segments, after: Segments, bits: int)
    requires k < |actions| && actions == NodeActions(img, v) && start <= was <= now && v != 0 && img.nodeSize > 0
    requires Explored(img, was, was - start, v, actions[..k]) && Followed(img, was, now, actions[k])
    requires MarkedWith(before, prior, bits, img.nodeSize,
                        TreeBytes(img, was - start) + ActionBytes(img, actions[..k]))
    requires MarkedWith(prior, after, bits, img.nodeSize, StepBytes(img, was, now, actions[k]))
    ensures Explored(img, now, now - start, v, actions[..k + 1])
    ensures MarkedWith(before, after, bits, img.nodeSize,
                       TreeBytes(img, now - start) + ActionBytes(img, actions[..k + 1]))
  {
    ActionFollowed(img, was, now, start, v, actions, k);
    MarkedTrans(before, prior, after, bits, img.nodeSize,
                TreeBytes(img, was - start) + ActionBytes(img, actions[..k]), StepBytes(img, was, now, actions[k]));
  }

  class Walker {
    const img: Image
    const bm: FsBitmap
    var visited: set<nat>

    constructor (img: Image, bm: FsBitmap)
      ensures this.img == img && this.bm == bm && visited == {}
    {
      this.img, this.bm, this.visited := img, bm, {};
    }

    ghost predicate Valid()
      reads this, bm
    {
      bm.Valid() && ImageOk(img) && 0 !in visited && forall v :: v in visited ==> v < U64
    }

    /** Reads the actions of a block through the chunk map. */
    method ReadActions(logical: nat) returns (actions: seq<Action>)
      requires ChunksOk(img.entries) && logical < U64
      ensures actions == NodeActions(img, logical)
    {
      var ce := Find(img.entries, logical);
      SameChunk(img.entries, logical, ce);
      if ce.None? || |ce.value.stripes| == 0 {
        return [];
      }
      var physical := (ce.value.stripes[0] + (logical - ce.value.logical)) % U64;
      match img.disk(physical)
      case None => return [];
      case Some(buf) => return BlockActions(img.nodeSize, buf);
    }

    /** Walks the tree below `logical`. What it newly visits is reached from there and
        closed under the edges of the image; it marks exactly the bytes of what it
        newly visits. */
    method WalkTree(logical: nat)
      requires Valid() && logical < U64
      modifies this, bm`segments
      ensures Valid() && old(visited) <= visited
      ensures logical != 0 ==> logical in visited
      ensures Explored(img, visited, visited - old(visited), logical, [])
      ensures MarkedWith(old(bm.segments), bm.segments, bm.bits, img.nodeSize,
                         TreeBytes(img, visited - old(visited)))
      decreases Left(visited), 1
    {
      if logical == 0 || logical in visited {
        NothingNew(img, visited, bm.segments, bm.bits);
      } else {
        Visit(logical);
      }
    }

    /** A block not seen before: its own range, then its actions. */
    method Visit(logical: nat)
      requires Valid() && 0 < logical < U64 && logical !in visited
      modifies this, bm`segments
      ensures Valid() && old(visited) + {logical} <= visited
      ensures Explored(img, visited, visited - old(visited), logical, [])
      ensures MarkedWith(old(bm.segments), bm.segments, bm.bits, img.nodeSize,
                         TreeBytes(img, visited - old(visited)))
      decreases Left(visited), 0
    {
      ghost var was, before := visited, bm.segments;
      visited := visited + {logical};
      VisitShrinks(was, logical);
      ghost var marked := MarkAndFollow(logical);
      WalkMarks(img, was, visited, logical, before, marked, bm.segments, bm.bits);
    }

    method MarkAndFollow(v: nat) returns (ghost marked: Segments)
      requires Valid() && v < U64 && v in visited
      modifies this, bm`segments
      ensures Valid() && old(visited) <= visited
      ensures BlockDone(img, old(visited), visited, v, old(bm.segments), marked, bm.segments, bm.bits)
      decreases Left(visited), 6
    {
      MarkLogicalRange(bm, img, v, img.nodeSize);
      marked := bm.segments;
      FollowBlock(v);
    }

    /** Reads a visited block and carries out its actions. */
    method FollowBlock(v: nat)
      requires Valid() && v < U64 && v in visited
      modifies this, bm`segments
      ensures Valid() && old(visited) <= visited
      ensures Explored(img, visited, visited - old(visited), v, NodeActions(img, v))
      ensures MarkedWith(old(bm.segments), bm.segments, bm.bits, img.nodeSize,
                         TreeBytes(img, visited - old(visited)) + ActionBytes(img, NodeActions(img, v)))
      decreases Left(visited), 5
    {
      var actions := ReadActions(v);
      ActionsSmall(img, v);
      FollowActions(v, actions);
    }

    /** Carries out the actions of a visited block, in order. */
    method FollowActions(v: nat, actions: seq<Action>)
      requires Valid() && v in visited && actions == NodeActions(img, v) && SmallActions(actions)
      modifies this, bm`segments
      ensures Valid() && old(visited) <= visited
      ensures Explored(img, visited, visited - old(visited), v, actions)
      ensures MarkedWith(old(bm.segments), bm.segments, bm.bits, img.nodeSize,
                         TreeBytes(img, visited - old(visited)) + ActionBytes(img, actions))
      decreases Left(visited), 4
    {
      ghost var start, before := visited, bm.segments;
      var k := 0;
      NothingFollowed(img, start, v, before, bm.bits);
      assert actions[..k] == [];
      while k < |actions|
        invariant 0 <= k <= |actions| && Valid() && start <= visited
        invariant Explored(img, visited, visited - start, v, actions[..k])
        invariant MarkedWith(before, bm.segments, bm.bits, img.nodeSize,
                             TreeBytes(img, visited - start) + ActionBytes(img, actions[..k]))
      {
        LeftShrinks(start, visited);
        FollowNext(v, actions, k, start, before);
        k := k + 1;
      }
      assert actions[..k] == actions;
    }

    /** One turn: the action at `k`. */
    method FollowNext(v: nat, actions: seq<Action>, k: nat, ghost start: set<nat>, ghost before: Segments)
      requires Valid() && v != 0 && actions == NodeActions(img, v) && k < |actions| && actions[k].logical < U64
      requires start <= visited && Explored(img, visited, visited - start, v, actions[..k])
      requires MarkedWith(before, bm.segments, bm.bits, img.nodeSize,
                          TreeBytes(img, visited - start) + ActionBytes(img, actions[..k]))
      modifies this, bm`segments
      ensures Valid() && old(visited) <= visited
      ensures Explored(img, visited, visited - start, v, actions[..k + 1])
      ensures MarkedWith(before, bm.segments, bm.bits, img.nodeSize,
                         TreeBytes(img, visited - start) + ActionBytes(img, actions[..k + 1]))
      decreases Left(visited), 3
    {
      ghost var was, prior := visited, bm.segments;
      FollowOne(actions[k]);
      StepMarks(img, was, visited, start, v, actions, k, before, prior, bm.segments, bm.bits);
    }

    method FollowOne(x: Action)
      requires Valid() && x.logical < U64
      modifies this, bm`segments
      ensures Valid() && old(visited) <= visited
      ensures Followed(img, old(visited), visited, x)
      ensures MarkedWith(old(bm.segments), bm.segments, bm.bits, img.nodeSize, StepBytes(img, old(visited), visited, x))
      decreases Left(visited), 2
    {
      match x
      case Mark(l, n) => MarkLogicalRange(bm, img, l, n);
      case Descend(l) => WalkTree(l);
    }

    /** The two walks of a dump: from the chunk root, then from the root of roots. They
        visit exactly the blocks the two addresses reach and mark exactly their bytes. */
    method WalkRoots(chunkRoot: nat, root: nat)
      requires Valid() && visited == {} && chunkRoot < U64 && root < U64
      modifies this, bm`segments
      ensures Valid()
      ensures forall v :: v in visited <==> Reaches(img, chunkRoot, v) || Reaches(img, root, v)
      ensures MarkedWith(old(bm.segments), bm.segments, bm.bits, img.nodeSize, TreeBytes(img, visited))
    {
      ghost var before := bm.segments;
      WalkTree(chunkRoot);
      ghost var first, marked := visited, bm.segments;
      WalkTree(root);
      assert first == first - {} && visited == first + (visited - first);
      TreeBytesUnion(img, first, visited - first);
      MarkedTrans(before, marked, bm.segments, bm.bits, img.nodeSize,
                  TreeBytes(img, first), TreeBytes(img, visited - first));
      VisitedExactly(img, first, visited, chunkRoot, root);
    }
  }

  /** The bytes one action adds. */
  ghost function StepBytes(img: Image, was: set<nat>, now: set<nat>, x: Action): iset<nat> {
    if x.Mark? then Bytes(img, x.logical, x.logical + x.length) else TreeBytes(img, now - was)
  }

  lemma BytesStep(img: Image, was: set<nat>, now: set<nat>, start: set<nat>, done: seq<Action>, x: Action)
    requires start <= was <= now && (x.Mark? ==> now == was)
    ensures TreeBytes(img, was - start) + ActionBytes(img, done) + StepBytes(img, was, now, x)
         == TreeBytes(img, now - start) + ActionBytes(img, done + [x])
  {
    ActionBytesStep(img, done, x);
    assert now - start == (was - start) + (now - was);
    TreeBytesUnion(img, was - start, now - was);
    assert x.Mark? ==> TreeBytes(img, now - was) == iset{};
  }

  lemma VisitedExactly(img: Image, first: set<nat>, all: set<nat>, a: nat, b: nat)
    requires first <= all && 0 !in all
    requires (a != 0 ==> a in first) && (b != 0 ==> b in all)
    requires Explored(img, first, first, a, []) && Explored(img, all, all - first, b, [])
    ensures forall v :: v in all <==> Reaches(img, a, v) || Reaches(img, b, v)
  {
    forall v | v in all ensures ClosedAt(img, all, v) && (Reaches(img, a, v) || Reaches(img, b, v)) {
      if v !in first { assert v in all - first; }
    }
    forall v | Reaches(img, a, v) || Reaches(img, b, v) ensures v in all {
      var p :| Path(img, p) && (p[0] == a || p[0] == b) && p[|p| - 1] == v;
      PathInside(img, all, p, |p| - 1);
    }
  }
}
