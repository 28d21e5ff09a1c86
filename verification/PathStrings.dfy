/** Pruning for path strings: where going down a directory extends the list of components,
    and where it does not. */
module PathStrings {
  import opened PathFilter

  /** The pieces between the slashes. */
  function Pieces(p: string): (r: seq<string>)
    ensures r != []
  {
    if p == "" then [""]
    else if p[0] == '/' then [""] + Pieces(p[1..])
    else var rest := Pieces(p[1..]); rest[0 := [p[0]] + rest[0]]
  }

  /** splitPath: an absolute path begins with the component "/". */
  function SplitPath(p: string): Path {
    var parts := Pieces(p);
    if parts[0] == "" then parts[0 := "/"] else parts
  }

  /** The path of `r` below a cleaned path `p`, as filepath.Join gives it. */
  function Below(p: string, r: string): string {
    if p == "/" then "/" + r else if p == "." then r else p + "/" + r
  }

  lemma {:induction false} PiecesJoin(p: string, r: string)
    ensures Pieces(p + "/" + r) == Pieces(p) + Pieces(r)
    decreases |p|
  {
    if p == "" {
      assert p + "/" + r == "/" + r && ("/" + r)[1..] == r;
    } else {
      assert (p + "/" + r)[1..] == p[1..] + "/" + r;
      PiecesJoin(p[1..], r);
    }
  }

  /** Going down extends the components, from any path but the two that stand for a root. */
  lemma {:induction false} BelowExtends(p: string, r: string)
    requires p != "/" && p != "."
    ensures SplitPath(Below(p, r)) == SplitPath(p) + Pieces(r)
  {
    PiecesJoin(p, r);
  }

  /** Pruning at `p` hides nothing below it. */
  ghost predicate PrunesSoundly(glob: Glob, p: string) {
    forall patterns: seq<Pattern>, r: string ::
      (forall x :: x in patterns ==> x.parts != [])
      && Fold(glob, patterns, SplitPath(Below(p, r)), false, false).0 ==>
        Fold(glob, patterns, SplitPath(p), false, false).1
  }

  /** For path strings, pruning is sound exactly at the paths that are not "/" and not
      ".": below those two the components do not extend their own. */
  lemma PruningExact(glob: Glob, p: string)
    ensures PrunesSoundly(glob, p) <==> p != "/" && p != "."
  {
    if p == "/" {
      RootHides(glob);
    } else if p == "." {
      DotHides(glob);
    } else {
      forall patterns: seq<Pattern>, r: string
        | (forall x :: x in patterns ==> x.parts != [])
          && Fold(glob, patterns, SplitPath(Below(p, r)), false, false).0
        ensures Fold(glob, patterns, SplitPath(p), false, false).1
      {
        BelowExtends(p, r);
        PruningSound(glob, patterns, SplitPath(p), Pieces(r));
      }
    }
  }

  lemma {:induction false} OnePiece(p: string)
    requires '/' !in p
    ensures Pieces(p) == [p]
  {
    if p != "" {
      OnePiece(p[1..]);
      assert [p[0]] + p[1..] == p;
    }
  }

  lemma FooPath()
    ensures SplitPath("/foo") == ["/", "foo"] && SplitPath("foo") == ["foo"]
    ensures SplitPath("/") == ["/", ""] && SplitPath(".") == ["."]
  {
    OnePiece("foo");
    OnePiece(".");
    assert "/foo"[1..] == "foo" && "/"[1..] == "" && Pieces("/") == ["", ""];
  }

  /** The pattern "/foo" matches /foo, but at "/", which splits into "/" and "", it
      rejects everything below. */
  lemma RootHides(glob: Glob)
    ensures !PrunesSoundly(glob, "/")
  {
    var x := Pattern([Part("/", true), Part("foo", true)], false);
    FooPath();
    assert Below("/", "foo") == "/foo";
    assert Window(glob, x.parts, ["/", "foo"], 0);
    assert Fold(glob, [x], ["/", "foo"], false, false).0;
    assert !ChildMatches(glob, x.parts, ["/", ""]);
    assert !Fold(glob, [x], ["/", ""], false, false).1;
  }

  /** One pattern and one exception. */
  lemma {:induction false} FoldExcept(glob: Glob, x: Pattern, y: Pattern, strs: Path)
    requires !x.isNegated && y.isNegated
    ensures Fold(glob, [x, y], strs, false, false) ==
      (Matches(glob, x.parts, strs) && !Matches(glob, y.parts, strs),
       ChildMatches(glob, x.parts, strs) && !Matches(glob, y.parts, strs))
  {
    var m, c := Matches(glob, x.parts, strs), ChildMatches(glob, x.parts, strs);
    var hit := Matches(glob, y.parts, strs);
    assert [x, y][1..] == [y] && Fold(glob, [x, y], strs, false, false) == Fold(glob, [y], strs, m, c);
    assert [y][1..] == [] && Fold(glob, [y], strs, m, c) == Fold(glob, [], strs, m && !hit, c && !hit);
  }

  /** The pattern "foo" with the exception "." matches foo, but at "." the exception
      rules out everything below. */
  lemma DotHides(glob: Glob)
    ensures !PrunesSoundly(glob, ".")
  {
    var x, y := Pattern([Part("foo", true)], false), Pattern([Part(".", true)], true);
    FooPath();
    assert Below(".", "foo") == "foo";
    assert Window(glob, x.parts, ["foo"], 0) && Window(glob, y.parts, ["."], 0);
    FoldExcept(glob, x, y, ["foo"]);
    FoldExcept(glob, x, y, ["."]);
    assert !Matches(glob, y.parts, ["foo"]) && Matches(glob, y.parts, ["."]) && Matches(glob, x.parts, ["foo"]);
    assert Fold(glob, [x, y], ["foo"], false, false).0;
    assert !Fold(glob, [x, y], ["."], false, false).1;
  }
}
