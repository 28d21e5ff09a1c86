/** Path filters with the recursive wildcard, negation and pruning.

    A path is the sequence of its components, a pattern the sequence of its parts;
    a part whose text is empty stands for the recursive wildcard. The shell-glob
    test of one component is the parameter `glob`. */
module PathFilter {

  type Path = seq<string>
  type Glob = (string, string) -> bool

  datatype Part = Part(pattern: string, isSimple: bool)

  datatype Pattern = Pattern(parts: seq<Part>, isNegated: bool)

  const STAR := Part("*", false)

  // ------------------------------------------------------------ specification

  predicate PartOk(glob: Glob, p: Part, c: string) {
    if p.isSimple then p.pattern == c else glob(p.pattern, c)
  }

  /** Number of recursive wildcards. */
  function Wilds(parts: seq<Part>): nat {
    if parts == [] then 0 else (if parts[0].pattern == "" then 1 else 0) + Wilds(parts[1..])
  }

  /** Position of the first recursive wildcard, or the length if there is none. */
  function WildPos(parts: seq<Part>): (pos: nat)
    ensures pos <= |parts|
    ensures pos < |parts| ==> parts[pos].pattern == ""
    ensures forall i :: 0 <= i < pos ==> parts[i].pattern != ""
  {
    if parts == [] || parts[0].pattern == "" then 0 else 1 + WildPos(parts[1..])
  }

  function Stars(i: nat): (s: seq<Part>)
    ensures |s| == i && forall k :: 0 <= k < i ==> s[k] == STAR
  {
    seq(i, _ => STAR)
  }

  /** The first recursive wildcard replaced by `i` plain ones. */
  function Expand(parts: seq<Part>, i: nat): (r: seq<Part>)
    requires WildPos(parts) < |parts|
    ensures |r| == |parts| - 1 + i
    ensures Wilds(r) == Wilds(parts) - 1
  {
    var pos := WildPos(parts);
    ExpandWilds(parts, i);
    parts[..pos] + Stars(i) + parts[pos + 1..]
  }

  lemma {:induction false} WildsConcat(a: seq<Part>, b: seq<Part>)
    ensures Wilds(a + b) == Wilds(a) + Wilds(b)
  {
    if a == [] {
      assert a + b == b;
    } else {
      assert (a + b)[1..] == a[1..] + b;
      WildsConcat(a[1..], b);
    }
  }

  lemma {:induction false} NoWilds(a: seq<Part>)
    requires forall i :: 0 <= i < |a| ==> a[i].pattern != ""
    ensures Wilds(a) == 0
  {
    if a != [] { NoWilds(a[1..]); }
  }

  lemma {:induction false} ExpandWilds(parts: seq<Part>, i: nat)
    requires WildPos(parts) < |parts|
    ensures Wilds(parts[..WildPos(parts)] + Stars(i) + parts[WildPos(parts) + 1..]) == Wilds(parts) - 1
  {
    var pos := WildPos(parts);
    var a, b := parts[..pos], parts[pos + 1..];
    WildsConcat(a, Stars(i));
    WildsConcat(a + Stars(i), b);
    NoWilds(a);
    NoWilds(Stars(i));
    assert parts == a + ([parts[pos]] + b);
    WildsConcat(a, [parts[pos]] + b);
    assert ([parts[pos]] + b)[1..] == b;
  }

  predicate Rooted(parts: seq<Part>) {
    parts != [] && parts[0].pattern == "/"
  }

  /** The offsets a wildcard-free pattern is tried at. */
  function MinOffset(parts: seq<Part>, strs: Path): nat {
    if !Rooted(parts) && strs != [] && strs[0] == "/" then 1 else 0
  }

  function MaxOffset(parts: seq<Part>, strs: Path): int {
    if Rooted(parts) then 0 else |strs| - |parts|
  }

  predicate Window(glob: Glob, parts: seq<Part>, strs: Path, o: nat) {
    o + |parts| <= |strs| && forall i :: 0 <= i < |parts| ==> PartOk(glob, parts[i], strs[o + i])
  }

  ghost predicate MatchesPlain(glob: Glob, parts: seq<Part>, strs: Path) {
    if parts == [] then strs == []
    else exists o :: MinOffset(parts, strs) <= o <= MaxOffset(parts, strs) && Window(glob, parts, strs, o)
  }

  /** The result of `match`. */
  ghost predicate Matches(glob: Glob, parts: seq<Part>, strs: Path)
    decreases Wilds(parts)
  {
    if WildPos(parts) < |parts| then
      exists i: nat :: i <= |strs| - |parts| + 1 && Matches(glob, Expand(parts, i), strs)
    else MatchesPlain(glob, parts, strs)
  }

  /** The result of `childMatch`: may something below `strs` match? */
  ghost predicate ChildMatches(glob: Glob, parts: seq<Part>, strs: Path) {
    if !Rooted(parts) then true
    else
      var pos := WildPos(parts);
      var cut := if pos < |parts| && |strs| >= pos then strs[..pos] else strs;
      var l := if |cut| > |parts| then |parts| else |cut|;
      Matches(glob, parts[..l], cut)
  }

  /** The fold of `list` over the patterns, never stopping early. */
  ghost function Fold(glob: Glob, patterns: seq<Pattern>, strs: Path, m: bool, c: bool): (bool, bool)
    decreases |patterns|
  {
    if patterns == [] then (m, c)
    else
      var p := patterns[0];
      var hit := Matches(glob, p.parts, strs);
      if p.isNegated then Fold(glob, patterns[1..], strs, m && !hit, c && !hit)
      else Fold(glob, patterns[1..], strs, m || hit, c || ChildMatches(glob, p.parts, strs))
  }

  // ------------------------------------------------------------------ pruning

  /** A match is preserved under extension of the path. */
  lemma {:induction false} MatchExtends(glob: Glob, parts: seq<Part>, s: Path, t: Path)
    requires s != [] && Matches(glob, parts, s)
    ensures Matches(glob, parts, s + t)
    decreases Wilds(parts)
  {
    if WildPos(parts) < |parts| {
      var i: nat :| i <= |s| - |parts| + 1 && Matches(glob, Expand(parts, i), s);
      MatchExtends(glob, Expand(parts, i), s, t);
    } else {
      var o :| MinOffset(parts, s) <= o <= MaxOffset(parts, s) && Window(glob, parts, s, o);
      assert Window(glob, parts, s + t, o);
    }
  }

  /** A rooted pattern matches only over its fixed beginning. */
  lemma {:induction false} RootedPrefix(glob: Glob, parts: seq<Part>, strs: Path)
    requires Rooted(parts) && Matches(glob, parts, strs)
    ensures WildPos(parts) <= |strs|
    ensures forall i :: 0 <= i < WildPos(parts) ==> PartOk(glob, parts[i], strs[i])
    decreases Wilds(parts)
  {
    var pos := WildPos(parts);
    if pos < |parts| {
      var i: nat :| i <= |strs| - |parts| + 1 && Matches(glob, Expand(parts, i), strs);
      var r := Expand(parts, i);
      assert r[..pos] == parts[..pos] && r[0] == parts[0];
      WildPosAtLeast(r, pos);
      RootedPrefix(glob, r, strs);
      assert forall k :: 0 <= k < pos ==> r[k] == parts[k];
    } else {
      var o :| MinOffset(parts, strs) <= o <= MaxOffset(parts, strs) && Window(glob, parts, strs, o);
    }
  }

  lemma {:induction false} WildPosAtLeast(parts: seq<Part>, n: nat)
    requires n <= |parts| && forall i :: 0 <= i < n ==> parts[i].pattern != ""
    ensures WildPos(parts) >= n
  {
  }

  /** childMatch never rejects a beginning of a match. */
  lemma {:induction false} PrefixNotRejected(glob: Glob, parts: seq<Part>, s: Path, t: Path)
    requires parts != [] && s != [] && Matches(glob, parts, s + t)
    ensures ChildMatches(glob, parts, s)
  {
    if Rooted(parts) {
      RootedPrefix(glob, parts, s + t);
      var pos := WildPos(parts);
      var cut := if pos < |parts| && |s| >= pos then s[..pos] else s;
      var l := if |cut| > |parts| then |parts| else |cut|;
      var head := parts[..l];
      WildPosAtLeast(head, l);
      assert Window(glob, head, cut, 0);
      assert MatchesPlain(glob, head, cut);
    }
  }

  lemma {:induction false} FoldPrunes(
    glob: Glob, patterns: seq<Pattern>, s: Path, t: Path, m: bool, c: bool, mt: bool, ct: bool)
    requires s != [] && forall p :: p in patterns ==> p.parts != []
    requires mt ==> c
    ensures Fold(glob, patterns, s + t, mt, ct).0 ==> Fold(glob, patterns, s, m, c).1
    decreases |patterns|
  {
    if patterns != [] {
      var p := patterns[0];
      var deep, hit := Matches(glob, p.parts, s + t), Matches(glob, p.parts, s);
      if hit { MatchExtends(glob, p.parts, s, t); }
      if deep { PrefixNotRejected(glob, p.parts, s, t); }
      var child, deepChild := ChildMatches(glob, p.parts, s), ChildMatches(glob, p.parts, s + t);
      if p.isNegated {
        FoldPrunes(glob, patterns[1..], s, t, m && !hit, c && !hit, mt && !deep, ct && !deep);
      } else {
        FoldPrunes(glob, patterns[1..], s, t, m || hit, c || child, mt || deep, ct || deepChild);
      }
    }
  }

  /** Pruning is sound, negated patterns included: if the list matches `s + t`,
      then on `s` it reports that something below may match. */
  lemma {:induction false} PruningSound(glob: Glob, patterns: seq<Pattern>, s: Path, t: Path)
    requires s != [] && forall p :: p in patterns ==> p.parts != []
    ensures Fold(glob, patterns, s + t, false, false).0 ==> Fold(glob, patterns, s, false, false).1
  {
    FoldPrunes(glob, patterns, s, t, false, false, false, false);
  }

  // ----------------------------------------------------------- implementation

  method HasDoubleWildcard(parts: seq<Part>) returns (ok: bool, pos: nat)
    ensures ok <==> WildPos(parts) < |parts|
    ensures pos == if ok then WildPos(parts) else 0
  {
    var i := 0;
    while i < |parts|
      invariant 0 <= i <= |parts|
      invariant forall k :: 0 <= k < i ==> parts[k].pattern != ""
    {
      if parts[i].pattern == "" {
        WildPosAtLeast(parts, i);
        return true, i;
      }
      i := i + 1;
    }
    WildPosAtLeast(parts, |parts|);
    return false, 0;
  }

  method MatchPlain(glob: Glob, parts: seq<Part>, strs: Path) returns (matched: bool)
    ensures matched == MatchesPlain(glob, parts, strs)
  {
    if |parts| == 0 && |strs| == 0 { return true; }
    if |parts| == 0 { return false; }
    if |parts| <= |strs| {
      var minOffset, maxOffset := 0, |strs| - |parts|;
      if parts[0].pattern == "/" {
        maxOffset := 0;
      } else if strs[0] == "/" {
        minOffset := 1;
      }
      var offset := maxOffset;
      while offset >= minOffset
        invariant minOffset - 1 <= offset <= maxOffset
        invariant forall o :: offset < o <= maxOffset ==> !Window(glob, parts, strs, o)
      {
        var i := |parts| - 1;
        while i >= 0 && PartOk(glob, parts[i], strs[offset + i])
          invariant -1 <= i < |parts|
          invariant forall k :: i < k < |parts| ==> PartOk(glob, parts[k], strs[offset + k])
        {
          i := i - 1;
        }
        if i < 0 {
          assert Window(glob, parts, strs, offset);
          return true;
        }
        offset := offset - 1;
      }
    }
    return false;
  }

  /** `match`: the buffer `newPat` is shared by all iterations; each one adds a
      plain wildcard and writes the rest of the pattern behind it in place. With a
      path too short for the pattern the source's loop runs zero times. */
  method Match(glob: Glob, parts: seq<Part>, strs: Path) returns (matched: bool)
    ensures matched == Matches(glob, parts, strs)
    decreases Wilds(parts)
  {
    var ok, pos := HasDoubleWildcard(parts);
    if !ok {
      matched := MatchPlain(glob, parts, strs);
      return;
    }
    if |strs| + 1 < |parts| { return false; }
    var newPat := new Part[|strs|](_ => Part("", false));
    AppendInPlace(newPat, 0, parts[..pos]);
    assert newPat[..pos] == Front(parts, 0);
    var i := 0;
    while i <= |strs| - |parts| + 1
      invariant 0 <= i <= |strs| - |parts| + 2
      invariant newPat[..pos + Shown(i)] == Front(parts, Shown(i))
      invariant NoneBelow(glob, parts, strs, i)
    {
      WriteExpansion(newPat, parts, i);
      matched := Match(glob, newPat[..|parts| - 1 + i], strs);
      TriedOne(glob, parts, strs, i);
      if matched { return; }
      i := i + 1;
    }
    return false;
  }

  /** The first `i` expansions do not match. */
  ghost predicate NoneBelow(glob: Glob, parts: seq<Part>, strs: Path, i: nat)
    requires WildPos(parts) < |parts|
  {
    forall j: nat :: j < i ==> !Matches(glob, Expand(parts, j), strs)
  }

  lemma {:induction false} TriedOne(glob: Glob, parts: seq<Part>, strs: Path, i: nat)
    requires WildPos(parts) < |parts| && i <= |strs| - |parts| + 1 && NoneBelow(glob, parts, strs, i)
    ensures Matches(glob, Expand(parts, i), strs) ==> Matches(glob, parts, strs)
    ensures !Matches(glob, Expand(parts, i), strs) ==> NoneBelow(glob, parts, strs, i + 1)
    ensures !Matches(glob, Expand(parts, i), strs) && i == |strs| - |parts| + 1 ==> !Matches(glob, parts, strs)
  {
  }

  /** The pattern up to its first recursive wildcard, and `i` plain ones. */
  function Front(parts: seq<Part>, i: nat): (r: seq<Part>)
    ensures |r| == WildPos(parts) + i
  {
    parts[..WildPos(parts)] + Stars(i)
  }

  /** How many plain wildcards the buffer holds when turn `i` begins. */
  function Shown(i: nat): nat {
    if i == 0 then 0 else i - 1
  }

  /** One more plain wildcard, with the rest of the pattern appended in place. */
  method WriteExpansion(newPat: array<Part>, parts: seq<Part>, i: nat)
    requires WildPos(parts) < |parts| && |parts| - 1 + i <= newPat.Length
    requires newPat[..WildPos(parts) + Shown(i)] == Front(parts, Shown(i))
    modifies newPat
    ensures newPat[..|parts| - 1 + i] == Expand(parts, i)
    ensures newPat[..WildPos(parts) + i] == Front(parts, i)
  {
    var pos := WildPos(parts);
    if i > 0 { PutStar(newPat, parts, i); }
    AppendInPlace(newPat, pos + i, parts[pos + 1..]);
    ExpandFront(parts, i);
  }

  lemma {:induction false} ExpandFront(parts: seq<Part>, i: nat)
    requires WildPos(parts) < |parts|
    ensures Expand(parts, i) == Front(parts, i) + parts[WildPos(parts) + 1..]
  {
  }

  method PutStar(newPat: array<Part>, parts: seq<Part>, i: nat)
    requires WildPos(parts) < |parts| && 0 < i && WildPos(parts) + i <= newPat.Length
    requires newPat[..WildPos(parts) + i - 1] == Front(parts, i - 1)
    modifies newPat
    ensures newPat[..WildPos(parts) + i] == Front(parts, i)
  {
    ghost var front := newPat[..WildPos(parts) + i - 1];
    newPat[WildPos(parts) + i - 1] := STAR;
    assert newPat[..WildPos(parts) + i] == front + [STAR];
    assert Stars(i) == Stars(i - 1) + [STAR];
  }

  /** Writes `tail` at `at` and leaves everything before alone. */
  method AppendInPlace(a: array<Part>, at: nat, tail: seq<Part>)
    requires at + |tail| <= a.Length
    modifies a
    ensures a[..at] == old(a[..at]) && a[..at + |tail|] == old(a[..at]) + tail
  {
    ghost var head := a[..at];
    var k := 0;
    while k < |tail|
      invariant 0 <= k <= |tail|
      invariant a[..at + k] == head + tail[..k]
    {
      a[at + k] := tail[k];
      k := k + 1;
      assert a[..at + k] == a[..at + k - 1] + [tail[k - 1]];
    }
    assert a[..at] == a[..at + k][..at];
  }

  method ChildMatch(glob: Glob, parts: seq<Part>, strs: Path) returns (matched: bool)
    requires parts != []
    ensures matched == ChildMatches(glob, parts, strs)
  {
    if parts[0].pattern != "/" { return true; }
    var ok, pos := HasDoubleWildcard(parts);
    var cut := strs;
    if ok && |strs| >= pos { cut := strs[..pos]; }
    var l := |cut|;
    if |cut| > |parts| { l := |parts|; }
    matched := Match(glob, parts[..l], cut);
  }

  datatype ListResult = ErrBadString | Listed(matched: bool, childMayMatch: bool)

  /** Without negated patterns the fold only ever turns answers on. */
  lemma {:induction false} SettledFold(glob: Glob, patterns: seq<Pattern>, strs: Path)
    requires forall p :: p in patterns ==> !p.isNegated
    ensures Fold(glob, patterns, strs, true, true) == (true, true)
    decreases |patterns|
  {
    if patterns != [] { SettledFold(glob, patterns[1..], strs); }
  }

  method ListWithChild(glob: Glob, patterns: seq<Pattern>, strs: Path) returns (r: ListResult)
    requires forall p :: p in patterns ==> p.parts != []
    ensures r == if patterns == [] then Listed(false, false)
                 else if strs == [] then ErrBadString
                 else Listed(Fold(glob, patterns, strs, false, false).0, Fold(glob, patterns, strs, false, false).1)
  {
    if |patterns| == 0 { return Listed(false, false); }
    if |strs| == 0 { return ErrBadString; }
    var hasNegated := exists p :: p in patterns && p.isNegated;
    var matched, childMayMatch := false, false;
    var k := 0;
    while k < |patterns|
      invariant 0 <= k <= |patterns|
      invariant Fold(glob, patterns[k..], strs, matched, childMayMatch) == Fold(glob, patterns, strs, false, false)
    {
      var pat := patterns[k];
      assert patterns[k..][1..] == patterns[k + 1..];
      var m := Match(glob, pat.parts, strs);
      var c := ChildMatch(glob, pat.parts, strs);
      if pat.isNegated {
        matched := matched && !m;
        childMayMatch := childMayMatch && !m;
      } else {
        matched := matched || m;
        childMayMatch := childMayMatch || c;
        if matched && childMayMatch && !hasNegated {
          SettledFold(glob, patterns[k + 1..], strs);
          break;
        }
      }
      k := k + 1;
    }
    return Listed(matched, childMayMatch);
  }
}
