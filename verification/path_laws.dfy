/** For which paths `NormalizePath` keeps its promises, in terms of the path itself: its names, how deep they
    lead, and whether some `..` is met at the root. */
module PathLaws {
  import opened NormalizePath

  /** The names of a text, empty ones included; what stands behind a final slash is not one. */
  function NamesOf(text: string): seq<string> {
    if Relative(text) then Segments(text) else Segments(text[1..])
  }

  /** The root is in front of what is left: the text is absolute and no `..` is met at the root. */
  predicate Rooted(text: string) {
    !Relative(text) && !Climbs(NamesOf(text))
  }

  /** What is left of a text, read from the right. */
  function Kept(text: string): seq<string> {
    (if Rooted(text) then [""] else []) + Resolved(NamesOf(text), 0)
  }

  lemma StackIsKept(text: string)
    ensures Stack(text) == Kept(text)
  {
    var names := NamesOf(text);
    if Relative(text) {
      StackIsResolved(names, 0);
      hide Climbs, Resolved, Segments, Eval;
      assert [] + Resolved(names, 0) == Resolved(names, 0);
    } else {
      assert text == "" + "/" + text[1..];
      SegmentsConcat("", text[1..]);
      SplitOne("");
      EvalConcat([], [""], names);
      assert Eval([], [""]) == [""];
      RootedStack(names);
      hide Eval, Climbs, Resolved, Segments, Split;
    }
  }

  lemma AbsoluteIsItself(path: string, dir: string)
    requires !Relative(path)
    ensures Absolute(path, dir) == path
  {
  }

  // ---------------------------------------------------------------- which name is left where

  /** Name `i` is the one left at depth `k`: it is pushed there, and nothing behind it leads back that far. */
  predicate LeftAt(names: seq<string>, k: nat, i: nat) {
    && i < |names| && names[i] != "." && names[i] != ".." && Depth(names[..i]) == k
    && forall j :: i < j <= |names| ==> Depth(names[..j]) > k
  }

  lemma ResolvedLast(names: seq<string>)
    requires names != []
    ensures var init, last, r := names[..|names| - 1], names[|names| - 1], Resolved(names[..|names| - 1], 0);
      Resolved(names, 0) ==
        if last == ".." then (if r == [] then [] else r[..|r| - 1]) else if last == "." then r else r + [last]
  {
    EvalLast([], names);
    StackIsResolved(names, 0);
    StackIsResolved(names[..|names| - 1], 0);
    hide Eval, Resolved;
  }

  lemma Prefixes(names: seq<string>)
    requires names != []
    ensures forall j :: 0 <= j < |names| ==> names[..|names| - 1][..j] == names[..j]
    ensures names[..|names|] == names
  {
  }

  lemma {:induction false} LeftIs(names: seq<string>, k: nat, i: nat)
    requires LeftAt(names, k, i)
    ensures k < |Resolved(names, 0)| && Resolved(names, 0)[k] == names[i]
    decreases |names|
  {
    var init := names[..|names| - 1];
    Prefixes(names);
    ResolvedLast(names);
    DepthCounts(names);
    DepthCounts(init);
    hide Resolved, Depth;
    assert Depth(names[..|names|]) > k;
    if i < |names| - 1 {
      assert forall j :: i < j <= |init| ==> Depth(init[..j]) == Depth(names[..j]);
      LeftIs(init, k, i);
    }
  }

  lemma {:induction false} LeftExists(names: seq<string>, k: nat) returns (i: nat)
    requires k < Depth(names)
    ensures LeftAt(names, k, i)
    decreases |names|
  {
    var init := names[..|names| - 1];
    Prefixes(names);
    if k < Depth(init) {
      i := LeftExists(init, k);
      hide Depth;
      assert forall j :: i < j <= |init| ==> Depth(init[..j]) == Depth(names[..j]);
    } else {
      i := |names| - 1;
    }
  }

  /** The name left at depth `k` is empty. */
  predicate EmptyAt(names: seq<string>, k: nat) {
    exists i :: 0 <= i < |names| && LeftAt(names, k, i) && names[i] == ""
  }

  lemma EmptyAtIs(names: seq<string>, k: nat)
    requires k < Depth(names)
    ensures |Resolved(names, 0)| == Depth(names)
    ensures EmptyAt(names, k) <==> Resolved(names, 0)[k] == ""
  {
    hide LeftAt, Resolved, Depth;
    DepthCounts(names);
    var i := LeftExists(names, k);
    LeftIs(names, k, i);
    assert i < |names| by {
      LeftInside(names, k, i);
    }
    if EmptyAt(names, k) {
      var j :| 0 <= j < |names| && LeftAt(names, k, j) && names[j] == "";
      LeftIs(names, k, j);
    }
  }

  lemma LeftInside(names: seq<string>, k: nat, i: nat)
    requires LeftAt(names, k, i)
    ensures i < |names|
  {
  }

  /** The ends of what is left, by the counter. */
  lemma KeptEnds(text: string)
    ensures var names, kept := NamesOf(text), Kept(text);
      var d := Depth(names);
      && |kept| == d + (if Rooted(text) then 1 else 0)
      && (Rooted(text) ==> kept[0] == "")
      && (!Rooted(text) && d > 0 ==> (kept[0] == "" <==> EmptyAt(names, 0)))
      && (d > 0 ==> (kept[|kept| - 1] == "" <==> EmptyAt(names, d - 1)))
  {
    var names := NamesOf(text);
    hide NamesOf, EmptyAt, Resolved, Depth, Rooted;
    DepthCounts(names);
    if Depth(names) > 0 {
      EmptyAtIs(names, 0);
      EmptyAtIs(names, Depth(names) - 1);
    }
  }

  // ---------------------------------------------------------------- every path

  /** The result for any path is stable exactly when it is the root or one name, or the root is in front and the
      last name left is not empty; an empty first name does for the root. */
  lemma AnyStableIff(path: string, dir: string)
    ensures var text := Absolute(path, dir);
      var names, rooted := NamesOf(text), Rooted(text);
      var d := Depth(names);
      Stable(Normalize(path, dir)) <==>
        || d <= (if rooted then 0 else 1)
        || (rooted && (d == 1 || !EmptyAt(names, d - 1)))
        || (!rooted && EmptyAt(names, 0) && (d == 2 || !EmptyAt(names, d - 1)))
  {
    var text := Absolute(path, dir);
    hide Kept, Stack, Stable, Render, EmptyAt, Depth, NamesOf, Rooted, Absolute;
    StackIsKept(text);
    StableOfStack(text);
    KeptEnds(text);
  }

  /** Relative paths may be resolved against the result for any path exactly when, with no slash at its end, it
      leads below the root; with one, when it leads to the root. Without the root in front one name counts as
      the root, and only an empty one if a slash ends the path. The empty path never may. */
  lemma AnyRelativeLawIff(path: string, dir: string)
    ensures var text := Absolute(path, dir);
      var names, rooted := NamesOf(text), Rooted(text);
      var d := Depth(names);
      RelativeLaw(path, dir) <==>
        && path != ""
        && if path[|path| - 1] == '/' then (if rooted then d == 0 else d == 1 && EmptyAt(names, 0))
           else d > (if rooted then 0 else 1)
  {
    var text := Absolute(path, dir);
    hide Kept, Stack, RelativeLaw, EmptyAt, Depth, NamesOf, Rooted, Absolute;
    StackIsKept(text);
    RelativeLawOfStack(path, dir);
    KeptEnds(text);
    assert Kept(text) == [""] <==> |Kept(text)| == 1 && Kept(text)[0] == "";
  }

  // ---------------------------------------------------------------- absolute paths without empty segments

  /** Absolute and without empty segments; a final slash is allowed, and so is the root alone. */
  predicate NoEmptyName(text: string) {
    !Relative(text) && forall k :: 0 <= k < |NamesOf(text)| ==> NamesOf(text)[k] != ""
  }

  lemma NeverEmpty(names: seq<string>, k: nat)
    requires forall i :: 0 <= i < |names| ==> names[i] != ""
    ensures !EmptyAt(names, k)
  {
    hide LeftAt;
  }

  /** Such a path comes out as the reference says, unless it climbs above the root and still ends two levels
      deep or more: then its first slash is missing. */
  lemma ReferenceIff(text: string, dir: string)
    requires NoEmptyName(text)
    ensures var names := NamesOf(text);
      Normalize(text, dir) == Reference(names) <==> !(Climbs(names) && Depth(names) >= 2)
  {
    var names := NamesOf(text);
    var r := Resolved(names, 0);
    hide Stack, Climbs, Resolved, NamesOf, Depth;
    DepthCounts(names);
    StackIsKept(text);
    StackPlain(text);
    ResolvedNames(names, 0);
    AbsoluteIsItself(text, dir);
    if Climbs(names) {
      assert [] + r == r;
      RenderStart(r);
    } else {
      RenderRooted(r);
    }
  }

  /** Under the same condition, normalising the result again changes nothing. */
  lemma StableIff(text: string, dir: string)
    requires NoEmptyName(text)
    ensures var names := NamesOf(text);
      Stable(Normalize(text, dir)) <==> !(Climbs(names) && Depth(names) >= 2)
  {
    var names := NamesOf(text);
    AnyStableIff(text, dir);
    AbsoluteIsItself(text, dir);
    hide NamesOf, Stable, Normalize, EmptyAt, Climbs, Depth;
    NeverEmpty(names, 0);
    if Depth(names) > 0 {
      NeverEmpty(names, Depth(names) - 1);
    }
  }

  /** Relative paths may be resolved against the result exactly when the path leads below the root, and two
      levels deep or more if it climbed; with a slash at its end, when it leads to the root without climbing. */
  lemma RelativeLawIff(text: string, dir: string)
    requires NoEmptyName(text)
    ensures var names := NamesOf(text);
      RelativeLaw(text, dir) <==>
        if text[|text| - 1] == '/' then !Climbs(names) && Depth(names) == 0
        else Depth(names) >= if Climbs(names) then 2 else 1
  {
    var names := NamesOf(text);
    AnyRelativeLawIff(text, dir);
    AbsoluteIsItself(text, dir);
    hide NamesOf, RelativeLaw, EmptyAt, Climbs, Depth;
    NeverEmpty(names, 0);
  }

  /** A path that never climbs above the root: the result is the reference, it holds no `.` and no `..`, and
      normalising it again changes nothing; relative paths may be resolved against it below the root, and at the
      root exactly when a slash ends the path. */
  lemma CleanPath(text: string, dir: string)
    requires NoEmptyName(text) && !Climbs(NamesOf(text))
    ensures var names, result := NamesOf(text), Normalize(text, dir);
      && result == Reference(names) && AllPlain(Resolved(names, 0)) && Stable(result)
      && (RelativeLaw(text, dir) <==> (text[|text| - 1] == '/' <==> Depth(names) == 0))
  {
    var stack, r := Stack(text), Resolved(NamesOf(text), 0);
    ReferenceIff(text, dir);
    StableIff(text, dir);
    RelativeLawIff(text, dir);
    StackIsKept(text);
    StackPlain(text);
    hide Stack, Climbs, Resolved, RelativeLaw, Stable, Reference, NamesOf;
    assert forall i :: 0 <= i < |r| ==> r[i] == stack[i + 1];
  }

  // ---------------------------------------------------------------- a path that climbs

  lemma SegmentsAB()
    ensures Segments("a") == ["a"] && Segments("a/b") == ["a", "b"]
  {
    SlashIs("a", 1);
    SlashIs("b", 1);
    assert Segments("a") == ["a"] && Segments("b") == ["b"];
    hide Segments, Slash;
    SplitOne("a");
    SegmentsConcat("a", "b");
    assert "a" + "/" + "b" == "a/b";
    assert ["a"] + ["b"] == ["a", "b"];
  }

  lemma ClimbingTexts()
    ensures NamesOf("/../a/b") == ["..", "a", "b"] && NamesOf("/../a") == ["..", "a"] && NamesOf("/a/b") == ["a", "b"]
  {
    SegmentsAB();
    hide Segments;
    SplitOne("..");
    SegmentsConcat("..", "a/b");
    SegmentsConcat("..", "a");
    assert ".." + "/" + "a/b" == "../a/b" && ".." + "/" + "a" == "../a";
    assert "/../a/b"[1..] == "../a/b" && "/../a"[1..] == "../a" && "/a/b"[1..] == "a/b";
    assert [".."] + ["a", "b"] == ["..", "a", "b"] && [".."] + ["a"] == ["..", "a"];
  }

  lemma ClimbingNames()
    ensures Climbs(["..", "a", "b"]) && Resolved(["..", "a", "b"], 0) == ["a", "b"]
    ensures Climbs(["..", "a"]) && Resolved(["..", "a"], 0) == ["a"]
    ensures !Climbs(["a", "b"]) && Resolved(["a", "b"], 0) == ["a", "b"]
  {
    assert ["..", "a", "b"][..2] == ["..", "a"] && ["..", "a"][..1] == [".."] && [".."][..0] == [];
    assert ["a", "b"][..1] == ["a"] && ["a"][..0] == [];
    assert Resolved([".."], 0) == Resolved([], 1) == [];
    assert Resolved(["..", "a"], 0) == [] + ["a"];
    assert Resolved(["..", "a", "b"], 0) == ["a"] + ["b"];
    assert Resolved(["a"], 0) == [] + ["a"];
    assert Resolved(["a", "b"], 0) == ["a"] + ["b"];
    assert Depth([]) == 0;
    assert ["..", "a", "b"][0] == ".." && ["..", "a", "b"][..0] == [];
    assert ["..", "a"][0] == ".." && ["..", "a"][..0] == [];
  }

  /** The result, said without a stack. */
  lemma ResultIs(text: string, dir: string)
    requires !Relative(text)
    ensures var names := NamesOf(text);
      Normalize(text, dir) == if Climbs(names) then Render(Resolved(names, 0)) else Reference(names)
  {
    var names := NamesOf(text);
    hide NamesOf, Climbs, Depth, Resolved, JoinSlash, Render;
    StackIsKept(text);
    AbsoluteIsItself(text, dir);
    RenderRooted(Resolved(names, 0));
    hide Stack;
    assert [] + Resolved(names, 0) == Resolved(names, 0);
  }

  lemma RenderedNames()
    ensures Render(["a"]) == "/a" && Render(["a", "b"]) == "a/b" && JoinSlash(["a", "b"]) == "a/b"
    ensures "/" + "a/b" == "/a/b"
  {
    assert ["a", "b"][1..] == ["b"];
  }

  /** `/../a/b` comes out relative: not what the reference says, and not stable. */
  lemma ClimbingPath(dir: string)
    ensures Normalize("/../a/b", dir) == "a/b" && Reference(NamesOf("/../a/b")) == "/a/b"
    ensures !Stable("a/b")
  {
    hide Climbs, Depth, Resolved, NamesOf, JoinSlash, Render, Normalize, Stable;
    ClimbingTexts();
    ClimbingNames();
    RenderedNames();
    ResultIs("/../a/b", dir);
    DepthCounts(["..", "a", "b"]);
    StableIff("/../a/b", dir);
  }

  /** `b` against the result for `/../a` is `/a/b`, while `/../a/b` comes out as `a/b`. */
  lemma ClimbingBase(dir: string)
    ensures Normalize("/../a", dir) == "/a" && Normalize("b", "/a") == "/a/b"
    ensures Normalize("/../a" + "/" + "b", dir) == "a/b"
  {
    hide Climbs, Depth, Resolved, NamesOf, JoinSlash, Render, Normalize;
    ClimbingTexts();
    ClimbingNames();
    RenderedNames();
    ClimbingPath(dir);
    assert "/../a" + "/" + "b" == "/../a/b";
    ResultIs("/../a", dir);
    ResultIs("/a/b", "/a");
    SameAsAbsolute();
  }

  lemma SameAsAbsolute()
    ensures Normalize("b", "/a") == Normalize("/a/b", "/a")
  {
    assert "/a" + "/" + "b" == "/a/b";
    assert Absolute("b", "/a") == Absolute("/a/b", "/a");
    hide Stack, Render;
  }
}
