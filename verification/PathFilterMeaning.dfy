/** What a pattern means, independently of how `match` searches.

    A pattern covers a run of components when each part accounts for its share of
    them, a recursive wildcard for any number. The search finds exactly the covers
    that leave room: after each recursive wildcard, the rest of the run and the
    components outside it are together at least as many as the parts still to come.
    With one recursive wildcard every cover leaves room; with two, some do not. */
module PathFilterMeaning {
  import opened PathFilter

  ghost predicate Covers(glob: Glob, parts: seq<Part>, run: Path)
    decreases |parts|
  {
    if parts == [] then run == []
    else if parts[0].pattern == "" then exists k :: 0 <= k <= |run| && Covers(glob, parts[1..], run[k..])
    else run != [] && PartOk(glob, parts[0], run[0]) && Covers(glob, parts[1..], run[1..])
  }

  /** A cover that leaves room, `spare` components of the path being outside it. */
  ghost predicate Fits(glob: Glob, parts: seq<Part>, run: Path, spare: nat)
    decreases |parts|
  {
    if parts == [] then run == []
    else if parts[0].pattern == "" then
      exists k :: 0 <= k <= |run| && |run| - k + spare >= |parts| - 1 && Fits(glob, parts[1..], run[k..], spare)
    else run != [] && PartOk(glob, parts[0], run[0]) && Fits(glob, parts[1..], run[1..], spare)
  }

  /** A non-empty run of the path, starting where the pattern may start. */
  predicate RunOf(parts: seq<Part>, strs: Path, lo: int, hi: int) {
    MinOffset(parts, strs) <= lo < hi <= |strs| && (Rooted(parts) ==> lo == 0)
  }

  ghost predicate Admits(glob: Glob, parts: seq<Part>, strs: Path) {
    exists lo, hi :: RunOf(parts, strs, lo, hi) && Covers(glob, parts, strs[lo..hi])
  }

  ghost predicate AdmitsWithRoom(glob: Glob, parts: seq<Part>, strs: Path) {
    exists lo, hi :: RunOf(parts, strs, lo, hi) && Fits(glob, parts, strs[lo..hi], |strs| - (hi - lo))
  }

  /** Only the first component of a pattern can be the root marker. */
  predicate WellFormed(parts: seq<Part>) {
    forall i :: 0 < i < |parts| ==> parts[i].pattern != "/"
  }

  /** The plain wildcard takes every component from `k` on. */
  ghost predicate StarFrom(glob: Glob, strs: Path, k: nat) {
    forall i :: k <= i < |strs| ==> glob("*", strs[i])
  }

  /** It takes every component but the root marker of an absolute path, which is not the
      name of anything: a component contains no separator. */
  ghost predicate StarTakes(glob: Glob, strs: Path) {
    StarFrom(glob, strs, if strs != [] && strs[0] == "/" then 1 else 0)
  }

  // ------------------------------------------------------------------ windows

  lemma {:induction false} WildsZero(parts: seq<Part>)
    ensures Wilds(parts) == 0 <==> WildPos(parts) == |parts|
  {
    if parts != [] { WildsZero(parts[1..]); }
  }

  lemma {:induction false} FitsPlain(glob: Glob, parts: seq<Part>, run: Path, spare: nat)
    requires Wilds(parts) == 0
    ensures Fits(glob, parts, run, spare) <==> |run| == |parts| && Window(glob, parts, run, 0)
    decreases |parts|
  {
    if parts != [] && run != [] {
      FitsPlain(glob, parts[1..], run[1..], spare);
      if |run| == |parts| {
        WindowSplit(glob, parts, run);
      }
    }
  }

  lemma WindowSplit(glob: Glob, parts: seq<Part>, run: Path)
    requires |run| == |parts| > 0
    ensures Window(glob, parts, run, 0)
       <==> PartOk(glob, parts[0], run[0]) && Window(glob, parts[1..], run[1..], 0)
  {
  }

  lemma {:induction false} PlainExact(glob: Glob, parts: seq<Part>, strs: Path)
    requires Wilds(parts) == 0 && parts != []
    ensures Matches(glob, parts, strs) <==> AdmitsWithRoom(glob, parts, strs)
  {
    WildsZero(parts);
    if Matches(glob, parts, strs) {
      var o :| MinOffset(parts, strs) <= o <= MaxOffset(parts, strs) && Window(glob, parts, strs, o);
      assert Window(glob, parts, strs[o..o + |parts|], 0);
      FitsPlain(glob, parts, strs[o..o + |parts|], |strs| - |parts|);
      assert RunOf(parts, strs, o, o + |parts|);
    }
    if AdmitsWithRoom(glob, parts, strs) {
      var lo, hi :| RunOf(parts, strs, lo, hi) && Fits(glob, parts, strs[lo..hi], |strs| - (hi - lo));
      FitsPlain(glob, parts, strs[lo..hi], |strs| - (hi - lo));
      assert forall i :: 0 <= i < |parts| ==> PartOk(glob, parts[i], strs[lo..hi][i]);
      assert Window(glob, parts, strs, lo);
    }
  }

  // --------------------------------------------------------------- expansions

  lemma {:induction false} StarsFront(glob: Glob, i: nat, rest: seq<Part>, run: Path, spare: nat)
    requires Fits(glob, Stars(i) + rest, run, spare)
    ensures i <= |run| && Fits(glob, rest, run[i..], spare)
  {
    if i == 0 {
      assert Stars(0) + rest == rest && run[0..] == run;
    } else {
      assert (Stars(i) + rest)[0] == STAR && (Stars(i) + rest)[1..] == Stars(i - 1) + rest;
      StarsFront(glob, i - 1, rest, run[1..], spare);
      assert run[1..][i - 1..] == run[i..];
    }
  }

  lemma {:induction false} StarsAdd(glob: Glob, i: nat, rest: seq<Part>, run: Path, spare: nat)
    requires StarFrom(glob, run, 0)
    requires i <= |run| && Fits(glob, rest, run[i..], spare)
    ensures Fits(glob, Stars(i) + rest, run, spare)
  {
    if i == 0 {
      assert Stars(0) + rest == rest && run[0..] == run;
    } else {
      assert (Stars(i) + rest)[0] == STAR && (Stars(i) + rest)[1..] == Stars(i - 1) + rest;
      assert run[1..][i - 1..] == run[i..];
      StarsAdd(glob, i - 1, rest, run[1..], spare);
    }
  }

  lemma {:induction false} ExpandTail(parts: seq<Part>, i: nat)
    requires parts != [] && parts[0].pattern != "" && WildPos(parts) < |parts|
    ensures WildPos(parts[1..]) == WildPos(parts) - 1
    ensures Expand(parts, i)[0] == parts[0] && Expand(parts, i)[1..] == Expand(parts[1..], i)
  {
  }

  /** What an expansion within the bound covers, the pattern covers with room. */
  lemma {:induction false} Contract(glob: Glob, parts: seq<Part>, i: nat, run: Path, spare: nat)
    requires WildPos(parts) < |parts| && Fits(glob, Expand(parts, i), run, spare)
    requires i <= |run| + spare - |parts| + 1
    ensures Fits(glob, parts, run, spare)
    decreases |parts|
  {
    if parts[0].pattern == "" {
      assert Expand(parts, i) == Stars(i) + parts[1..];
      StarsFront(glob, i, parts[1..], run, spare);
    } else {
      ExpandTail(parts, i);
      Contract(glob, parts[1..], i, run[1..], spare);
    }
  }

  /** What a pattern covers with room, an expansion within the bound covers. */
  lemma {:induction false} Unfold(glob: Glob, parts: seq<Part>, run: Path, spare: nat) returns (i: nat)
    requires StarFrom(glob, run, if parts != [] && parts[0].pattern == "" then 0 else 1)
    requires WildPos(parts) < |parts| && Fits(glob, parts, run, spare)
    ensures i <= |run| + spare - |parts| + 1 && Fits(glob, Expand(parts, i), run, spare)
    decreases |parts|
  {
    if parts[0].pattern == "" {
      i :| 0 <= i <= |run| && |run| - i + spare >= |parts| - 1 && Fits(glob, parts[1..], run[i..], spare);
      StarsAdd(glob, i, parts[1..], run, spare);
      assert Expand(parts, i) == Stars(i) + parts[1..];
    } else {
      ExpandTail(parts, 0);
      i := Unfold(glob, parts[1..], run[1..], spare);
      ExpandTail(parts, i);
    }
  }

  lemma {:induction false} ExpandShape(parts: seq<Part>, i: nat, strs: Path)
    requires WildPos(parts) < |parts| && WellFormed(parts) && strs != []
    ensures WellFormed(Expand(parts, i)) && Rooted(Expand(parts, i)) == Rooted(parts)
    ensures MinOffset(Expand(parts, i), strs) == MinOffset(parts, strs)
  {
    var pos := WildPos(parts);
    var r := Expand(parts, i);
    forall k | 0 <= k < |r| && (k > 0 || pos == 0) ensures r[k].pattern != "/" {
      if k < pos { assert r[k] == parts[k]; }
      else if k < pos + i { assert r[k] == STAR; }
      else { assert r[k] == parts[k - i + 1]; }
    }
    if pos > 0 { assert r[0] == parts[0]; }
  }

  // ----------------------------------------------------------------- theorems

  /** Every match is a cover that leaves room, for any number of wildcards. */
  lemma {:induction false} MatchFits(glob: Glob, parts: seq<Part>, strs: Path)
    requires WellFormed(parts) && strs != [] && Matches(glob, parts, strs)
    ensures AdmitsWithRoom(glob, parts, strs)
    decreases Wilds(parts)
  {
    WildsZero(parts);
    if WildPos(parts) < |parts| {
      var i: nat :| i <= |strs| - |parts| + 1 && Matches(glob, Expand(parts, i), strs);
      ExpandShape(parts, i, strs);
      MatchFits(glob, Expand(parts, i), strs);
      ContractAdmits(glob, parts, i, strs);
    } else {
      PlainExact(glob, parts, strs);
    }
  }

  lemma {:induction false} ContractAdmits(glob: Glob, parts: seq<Part>, i: nat, strs: Path)
    requires WellFormed(parts) && strs != [] && WildPos(parts) < |parts| && i <= |strs| - |parts| + 1
    requires AdmitsWithRoom(glob, Expand(parts, i), strs)
    ensures AdmitsWithRoom(glob, parts, strs)
  {
    ExpandShape(parts, i, strs);
    var lo, hi :| RunOf(Expand(parts, i), strs, lo, hi)
               && Fits(glob, Expand(parts, i), strs[lo..hi], |strs| - (hi - lo));
    Contract(glob, parts, i, strs[lo..hi], |strs| - (hi - lo));
    assert RunOf(parts, strs, lo, hi);
  }

  /** The search is exact: it reports a match if and only if the pattern covers some
      run of the path with room, for any number of recursive wildcards. */
  lemma {:induction false} MatchExact(glob: Glob, parts: seq<Part>, strs: Path)
    requires StarTakes(glob, strs)
    requires WellFormed(parts) && strs != []
    ensures Matches(glob, parts, strs) <==> AdmitsWithRoom(glob, parts, strs)
    decreases Wilds(parts)
  {
    if Matches(glob, parts, strs) {
      MatchFits(glob, parts, strs);
    }
    WildsZero(parts);
    if AdmitsWithRoom(glob, parts, strs) {
      var lo, hi :| RunOf(parts, strs, lo, hi) && Fits(glob, parts, strs[lo..hi], |strs| - (hi - lo));
      if WildPos(parts) < |parts| {
        var i := Unfold(glob, parts, strs[lo..hi], |strs| - (hi - lo));
        ExpandShape(parts, i, strs);
        assert RunOf(Expand(parts, i), strs, lo, hi);
        MatchExact(glob, Expand(parts, i), strs);
      } else {
        assert parts != [];
        PlainExact(glob, parts, strs);
      }
    }
  }

  /** Leaving room is a restriction of covering ... */
  lemma {:induction false} FitsCovers(glob: Glob, parts: seq<Part>, run: Path, spare: nat)
    requires Fits(glob, parts, run, spare)
    ensures Covers(glob, parts, run)
    decreases |parts|
  {
    if parts == [] {
    } else if parts[0].pattern == "" {
      var k :| 0 <= k <= |run| && |run| - k + spare >= |parts| - 1 && Fits(glob, parts[1..], run[k..], spare);
      FitsCovers(glob, parts[1..], run[k..], spare);
    } else {
      FitsCovers(glob, parts[1..], run[1..], spare);
    }
  }

  /** ... and no restriction at all with at most one recursive wildcard. */
  lemma {:induction false} OneWildcardFits(glob: Glob, parts: seq<Part>, run: Path, spare: nat)
    requires Wilds(parts) <= 1 && Covers(glob, parts, run)
    ensures Fits(glob, parts, run, spare)
    decreases |parts|
  {
    if parts == [] {
    } else if parts[0].pattern == "" {
      var k :| 0 <= k <= |run| && Covers(glob, parts[1..], run[k..]);
      OneWildcardFits(glob, parts[1..], run[k..], spare);
      FitsPlain(glob, parts[1..], run[k..], spare);
    } else {
      OneWildcardFits(glob, parts[1..], run[1..], spare);
    }
  }

  /** A match is never spurious, whatever the glob, and with at most one recursive wildcard
      nothing is missed: `match` decides exactly what the pattern means. */
  lemma {:induction false} MatchMeans(glob: Glob, parts: seq<Part>, strs: Path)
    requires WellFormed(parts) && strs != []
    ensures Matches(glob, parts, strs) ==> Admits(glob, parts, strs)
    ensures StarTakes(glob, strs) && Wilds(parts) <= 1 && Admits(glob, parts, strs) ==> Matches(glob, parts, strs)
  {
    if Matches(glob, parts, strs) {
      MatchFits(glob, parts, strs);
      var lo, hi :| RunOf(parts, strs, lo, hi) && Fits(glob, parts, strs[lo..hi], |strs| - (hi - lo));
      FitsCovers(glob, parts, strs[lo..hi], |strs| - (hi - lo));
    }
    if StarTakes(glob, strs) && Wilds(parts) <= 1 && Admits(glob, parts, strs) {
      var lo, hi :| RunOf(parts, strs, lo, hi) && Covers(glob, parts, strs[lo..hi]);
      OneWildcardFits(glob, parts, strs[lo..hi], |strs| - (hi - lo));
      MatchExact(glob, parts, strs);
    }
  }

  // With two recursive wildcards something can be missed: the parts a, wildcard, b,
  // wildcard, c cover the path a/b/c with nothing for either wildcard, but leave no
  // room, since the search reserves one component for each wildcard not yet expanded.
  lemma TwoWildcardsMiss(glob: Glob)
    ensures Admits(glob, [Part("a", true), Part("", false), Part("b", true), Part("", false), Part("c", true)],
                   ["a", "b", "c"])
    ensures !Matches(glob, [Part("a", true), Part("", false), Part("b", true), Part("", false), Part("c", true)],
                     ["a", "b", "c"])
  {
    var a, w, b, c := Part("a", true), Part("", false), Part("b", true), Part("c", true);
    var strs := ["a", "b", "c"];
    CoversEach(glob, a, b, c, "a", "b", "c");
    assert strs[0..3] == strs && RunOf([a, w, b, w, c], strs, 0, 3);
  }

  lemma CoversEach(glob: Glob, a: Part, b: Part, c: Part, x: string, y: string, z: string)
    requires a.pattern != "" && b.pattern != "" && c.pattern != ""
    requires PartOk(glob, a, x) && PartOk(glob, b, y) && PartOk(glob, c, z)
    ensures Covers(glob, [a, Part("", false), b, Part("", false), c], [x, y, z])
  {
    var w := Part("", false);
    assert [c][1..] == [] && [z][1..] == [] && Covers(glob, [c], [z]);
    SkipWildcard(glob, [c], [z]);
    assert [w] + [c] == [w, c];
    CoversTwo(glob, a, b, [w, c], x, y, [z]);
    assert [a, w, b] + [w, c] == [a, w, b, w, c] && [x, y] + [z] == [x, y, z];
  }

  /** A literal, a wildcard that takes nothing, a literal. */
  lemma {:induction false} CoversTwo(glob: Glob, a: Part, b: Part, rest: seq<Part>, x: string, y: string, run: Path)
    requires a.pattern != "" && b.pattern != "" && PartOk(glob, a, x) && PartOk(glob, b, y) && Covers(glob, rest, run)
    ensures Covers(glob, [a, Part("", false), b] + rest, [x, y] + run)
  {
    var w := Part("", false);
    TakePart(glob, b, rest, y, run);
    SkipWildcard(glob, [b] + rest, [y] + run);
    TakePart(glob, a, [w] + ([b] + rest), x, [y] + run);
    assert [a] + ([w] + ([b] + rest)) == [a, w, b] + rest && [x] + ([y] + run) == [x, y] + run;
  }

  lemma {:induction false} SkipWildcard(glob: Glob, parts: seq<Part>, run: Path)
    requires Covers(glob, parts, run)
    ensures Covers(glob, [Part("", false)] + parts, run)
  {
    assert ([Part("", false)] + parts)[1..] == parts && run[0..] == run;
  }

  lemma {:induction false} TakePart(glob: Glob, p: Part, parts: seq<Part>, s: string, run: Path)
    requires p.pattern != "" && PartOk(glob, p, s) && Covers(glob, parts, run)
    ensures Covers(glob, [p] + parts, [s] + run)
  {
  }

  // ---------------------------------------------------------------- child match

  /** childMatch looks at the fixed beginning of a rooted pattern only. */
  lemma {:induction false} ChildExact(glob: Glob, parts: seq<Part>, s: Path)
    ensures ChildMatches(glob, parts, s) <==>
      (Rooted(parts) ==> forall i :: 0 <= i < |s| && i < WildPos(parts) ==> PartOk(glob, parts[i], s[i]))
  {
    if Rooted(parts) {
      var pos := WildPos(parts);
      var cut := if pos < |parts| && |s| >= pos then s[..pos] else s;
      var l := if |cut| > |parts| then |parts| else |cut|;
      WildPosAtLeast(parts[..l], l);
      if l > 0 { assert Window(glob, parts[..l], cut, 0) <==> MatchesPlain(glob, parts[..l], cut); }
      assert forall i :: 0 <= i < l ==> parts[..l][i] == parts[i] && cut[i] == s[i];
    }
  }

  ghost predicate Taken(glob: Glob, p: Part) {
    exists c :: PartOk(glob, p, c)
  }

  /** Every part but a recursive wildcard matches some component. */
  ghost predicate Takeable(glob: Glob, parts: seq<Part>) {
    forall p :: p in parts && p.pattern != "" ==> Taken(glob, p)
  }

  /** The pattern without its recursive wildcards. */
  function Bare(parts: seq<Part>): seq<Part> {
    if parts == [] then []
    else if parts[0].pattern == "" then Bare(parts[1..])
    else [parts[0]] + Bare(parts[1..])
  }

  lemma {:induction false} BareOk(parts: seq<Part>)
    ensures |Bare(parts)| <= |parts| && forall p :: p in Bare(parts) <==> p in parts && p.pattern != ""
  {
    if parts != [] { BareOk(parts[1..]); }
  }

  lemma {:induction false} BarePlain(parts: seq<Part>)
    ensures WildPos(Bare(parts)) == |Bare(parts)|
  {
    BareOk(parts);
    WildPosAtLeast(Bare(parts), |Bare(parts)|);
  }

  /** Up to the first of them nothing is left out. */
  lemma {:induction false} BareFront(parts: seq<Part>, pos: nat)
    requires pos <= WildPos(parts)
    ensures pos <= |Bare(parts)| && Bare(parts)[..pos] == parts[..pos]
  {
    if pos > 0 {
      BareFront(parts[1..], pos - 1);
      var rest := Bare(parts[1..]);
      assert Bare(parts) == [parts[0]] + rest;
      assert parts[..pos] == [parts[0]] + parts[1..][..pos - 1] && ([parts[0]] + rest)[..pos] == [parts[0]] + rest[..pos - 1];
    }
  }

  lemma {:induction false} BareExpand(parts: seq<Part>)
    requires WildPos(parts) < |parts|
    ensures Bare(Expand(parts, 0)) == Bare(parts)
    decreases |parts|
  {
    if parts[0].pattern == "" {
      assert Expand(parts, 0) == parts[1..];
    } else {
      ExpandTail(parts, 0);
      BareExpand(parts[1..]);
    }
  }

  /** Where the wildcards take nothing, and there is room. */
  lemma {:induction false} BareMatches(glob: Glob, parts: seq<Part>, strs: Path)
    requires |parts| <= |strs| && Matches(glob, Bare(parts), strs)
    ensures Matches(glob, parts, strs)
    decreases Wilds(parts)
  {
    if WildPos(parts) < |parts| {
      BareExpand(parts);
      BareMatches(glob, Expand(parts, 0), strs);
      assert 0 <= |strs| - |parts| + 1;
    } else {
      BareSame(parts);
    }
  }

  lemma {:induction false} BareSame(parts: seq<Part>)
    requires WildPos(parts) == |parts|
    ensures Bare(parts) == parts
  {
    BareFront(parts, |parts|);
    BareOk(parts);
  }

  /** Components that `parts` match one by one. */
  lemma {:induction false} Takers(glob: Glob, parts: seq<Part>) returns (t: Path)
    requires Takeable(glob, parts) && forall p :: p in parts ==> p.pattern != ""
    ensures |t| == |parts| && forall i :: 0 <= i < |parts| ==> PartOk(glob, parts[i], t[i])
  {
    t := [];
    while |t| < |parts|
      invariant |t| <= |parts| && forall i :: 0 <= i < |t| ==> PartOk(glob, parts[i], t[i])
    {
      assert parts[|t|] in parts && Taken(glob, parts[|t|]);
      var c :| PartOk(glob, parts[|t|], c);
      t := t + [c];
    }
  }

  /** A wildcard-free pattern that agrees with the path from `o` on matches some path below,
      however long. */
  lemma {:induction false} Completed(glob: Glob, parts: seq<Part>, s: Path, o: nat, size: nat) returns (t: Path)
    requires parts != [] && s != [] && WildPos(parts) == |parts| && Takeable(glob, parts)
    requires o <= |s| && (Rooted(parts) ==> o == 0) && MinOffset(parts, s) <= o
    requires forall i :: 0 <= i < |parts| && o + i < |s| ==> PartOk(glob, parts[i], s[o + i])
    ensures size <= |s + t| && Matches(glob, parts, s + t)
  {
    var known := if |s| - o < |parts| then |s| - o else |parts|;
    t := Takers(glob, parts[known..]);
    var all := s + t;
    assert forall i :: 0 <= i < |parts| ==> PartOk(glob, parts[i], all[o + i]) by {
      forall i | 0 <= i < |parts| ensures PartOk(glob, parts[i], all[o + i]) {
        if i >= known { assert parts[known..][i - known] == parts[i]; }
      }
    }
    assert Window(glob, parts, all, o);
    assert MatchesPlain(glob, parts, all);
    var pad := seq(size, _ => "");
    MatchExtends(glob, parts, all, pad);
    assert s + (t + pad) == all + pad;
    t := t + pad;
  }

  /** The expansion of a rooted pattern whose first wildcard takes the rest of `s`. */
  lemma {:induction false} TakesRest(glob: Glob, parts: seq<Part>, s: Path) returns (i: nat)
    requires Rooted(parts) && WildPos(parts) < |parts| && StarFrom(glob, s, WildPos(parts))
    requires forall k :: 0 <= k < |s| && k < WildPos(parts) ==> PartOk(glob, parts[k], s[k])
    ensures i <= |s|
    ensures var b := Bare(Expand(parts, i));
      b != [] && b[0] == parts[0] && forall k :: 0 <= k < |b| && k < |s| ==> PartOk(glob, b[k], s[k])
  {
    var pos := WildPos(parts);
    i := if |s| > pos then |s| - pos else 0;
    var e := Expand(parts, i);
    WildPosAtLeast(e, pos + i);
    BareFront(e, pos + i);
    var b := Bare(e);
    forall k | 0 <= k < |b| && k < |s| ensures PartOk(glob, b[k], s[k]) {
      assert b[k] == b[..pos + i][k] == e[k];
      assert k < pos ==> e[k] == parts[k];
      assert k >= pos ==> e[k] == STAR;
    }
    assert b[0] == b[..pos + i][0] == e[0];
  }

  lemma ExpandHas(parts: seq<Part>, i: nat, p: Part)
    requires WildPos(parts) < |parts|
    ensures p in Expand(parts, i) ==> p in parts || p == STAR
  {
    if p in Expand(parts, i) {
      assert p in parts[..WildPos(parts)] || p in Stars(i) || p in parts[WildPos(parts) + 1..];
    }
  }

  lemma TakeableExpand(glob: Glob, parts: seq<Part>, i: nat)
    requires Takeable(glob, parts) && Taken(glob, STAR) && WildPos(parts) < |parts|
    ensures Takeable(glob, Bare(Expand(parts, i)))
  {
    BareOk(Expand(parts, i));
    forall p | p in Bare(Expand(parts, i)) && p.pattern != "" ensures Taken(glob, p) { ExpandHas(parts, i, p); }
  }

  /** Pruning is exact for one pattern: childMatch says that something below `s` may match
      exactly if something below `s` does match, where the star takes the components of
      `s` and every part of the pattern, like the star itself, matches something. */
  lemma {:induction false} ChildMeans(glob: Glob, parts: seq<Part>, s: Path)
    requires parts != [] && s != [] && WellFormed(parts) && StarTakes(glob, s)
    requires Takeable(glob, parts) && Taken(glob, STAR)
    ensures ChildMatches(glob, parts, s) <==> exists t :: Matches(glob, parts, s + t)
  {
    if t :| Matches(glob, parts, s + t) { PrefixNotRejected(glob, parts, s, t); }
    if ChildMatches(glob, parts, s) {
      ChildExact(glob, parts, s);
      var t := BelowMatches(glob, parts, s);
    }
  }

  lemma {:induction false} BelowMatches(glob: Glob, parts: seq<Part>, s: Path) returns (t: Path)
    requires parts != [] && s != [] && WellFormed(parts) && StarTakes(glob, s)
    requires Takeable(glob, parts) && Taken(glob, STAR)
    requires Rooted(parts) ==> forall i :: 0 <= i < |s| && i < WildPos(parts) ==> PartOk(glob, parts[i], s[i])
    ensures Matches(glob, parts, s + t)
  {
    if WildPos(parts) == |parts| {
      BareSame(parts);
      t := Completed(glob, parts, s, if Rooted(parts) then 0 else |s|, 0);
    } else {
      var i: nat := 1;
      if Rooted(parts) {
        i := TakesRest(glob, parts, s);
      } else {
        UnrootedBare(parts);
      }
      t := ExpansionMatches(glob, parts, s, i);
    }
  }

  /** One plain wildcard for the first recursive one: there is something left to match. */
  lemma {:induction false} UnrootedBare(parts: seq<Part>)
    requires WellFormed(parts) && !Rooted(parts) && WildPos(parts) < |parts|
    ensures Bare(Expand(parts, 1)) != [] && !Rooted(Bare(Expand(parts, 1)))
  {
    var e := Expand(parts, 1);
    assert e[WildPos(parts)] == STAR;
    BareHas(e, WildPos(parts));
    ExpandShape(parts, 1, ["/"]);
    assert Bare(e)[0] in e;
  }

  lemma {:induction false} BareHas(parts: seq<Part>, k: nat)
    requires k < |parts| && parts[k].pattern != ""
    ensures Bare(parts) != []
  {
    if k > 0 { BareHas(parts[1..], k - 1); }
  }

  lemma {:induction false} ExpansionMatches(glob: Glob, parts: seq<Part>, s: Path, i: nat) returns (t: Path)
    requires s != [] && WildPos(parts) < |parts| && Takeable(glob, parts) && Taken(glob, STAR)
    requires Bare(Expand(parts, i)) != [] && Rooted(Bare(Expand(parts, i))) == Rooted(parts)
    requires Rooted(parts) ==>
      var b := Bare(Expand(parts, i)); forall k :: 0 <= k < |b| && k < |s| ==> PartOk(glob, b[k], s[k])
    ensures Matches(glob, parts, s + t)
  {
    var e := Expand(parts, i);
    TakeableExpand(glob, parts, i);
    BarePlain(e);
    t := Completed(glob, Bare(e), s, if Rooted(parts) then 0 else |s|, |parts| + i);
    BareMatches(glob, e, s + t);
    assert i <= |s + t| - |parts| + 1;
  }
}
