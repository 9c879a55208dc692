/** `NormalizePath` of `main.cc`: the path is cut at its slashes, `.` is dropped, `..` pops, and what is left
    is joined again. The root is the empty segment in front of a leading slash, and `..` pops it as well. */
module NormalizePath {
  // ---------------------------------------------------------------- splitting and joining

  /** The position of the first slash, or the length. */
  function Slash(s: string): (i: nat)
    ensures i <= |s| && (i < |s| ==> s[i] == '/')
    ensures forall k :: 0 <= k < i ==> s[k] != '/'
  {
    if |s| == 0 || s[0] == '/' then 0 else 1 + Slash(s[1..])
  }

  lemma SlashIs(s: string, i: nat)
    requires i <= |s| && (i < |s| ==> s[i] == '/')
    requires forall k :: 0 <= k < i ==> s[k] != '/'
    ensures Slash(s) == i
  {
  }

  /** What successive calls of `getline` return: nothing for the empty rest behind a final slash. */
  function Segments(s: string): seq<string> {
    if |s| == 0 then []
    else if Slash(s) < |s| then [s[..Slash(s)]] + Segments(s[Slash(s) + 1..])
    else [s]
  }

  /** The text between slashes, the empty text behind a final slash included. */
  function Split(s: string): (r: seq<string>)
    ensures r != []
  {
    if Slash(s) < |s| then [s[..Slash(s)]] + Split(s[Slash(s) + 1..]) else [s]
  }

  function JoinSlash(segments: seq<string>): string
    requires segments != []
  {
    if |segments| == 1 then segments[0] else segments[0] + "/" + JoinSlash(segments[1..])
  }

  predicate NoSlash(segments: seq<string>) {
    forall i :: 0 <= i < |segments| ==> '/' !in segments[i]
  }

  lemma SliceBefore(x: string, y: string, c: nat)
    requires c <= |x|
    ensures (x + "/" + y)[..c] == x[..c]
  {
  }

  lemma SliceAfter(x: string, y: string, c: nat)
    requires c <= |x|
    ensures (x + "/" + y)[c + 1..] == if c < |x| then x[c + 1..] + "/" + y else y
  {
    assert x + "/" + y == x + ("/" + y);
    if c == |x| {
      assert ("/" + y)[1..] == y;
    }
  }

  lemma SlashBefore(x: string, y: string)
    ensures Slash(x + "/" + y) == Slash(x)
  {
    var s, c := x + "/" + y, Slash(x);
    hide Slash;
    assert forall k :: 0 <= k < |x| ==> s[k] == x[k];
    assert s[|x|] == '/';
    SlashIs(s, c);
  }

  lemma CutAt(x: string, y: string)
    ensures var s := x + "/" + y; var c := Slash(x);
            Slash(s) == c && s[..c] == x[..c] && s[c + 1..] == if c < |x| then x[c + 1..] + "/" + y else y
  {
    hide Slash;
    SlashBefore(x, y);
    SliceBefore(x, y, Slash(x));
    SliceAfter(x, y, Slash(x));
  }

  lemma SplitStep(s: string)
    ensures Split(s) == if Slash(s) < |s| then [s[..Slash(s)]] + Split(s[Slash(s) + 1..]) else [s]
  {
    hide Slash;
  }

  lemma SegmentsStep(s: string)
    ensures Segments(s) ==
      if |s| == 0 then []
      else if Slash(s) < |s| then [s[..Slash(s)]] + Segments(s[Slash(s) + 1..]) else [s]
  {
    hide Slash;
  }

  lemma Glue<T>(a: T, b: seq<T>, c: seq<T>)
    ensures ([a] + b) + c == [a] + (b + c)
  {
  }

  /** A slash separates: the segments of the two sides follow each other. */
  lemma {:induction false} SegmentsConcat(x: string, y: string)
    ensures Segments(x + "/" + y) == Split(x) + Segments(y)
    decreases |x|
  {
    hide Split, Segments, Slash;
    CutAt(x, y);
    SplitStep(x);
    SegmentsStep(x + "/" + y);
    var c := Slash(x);
    if c < |x| {
      SegmentsConcat(x[c + 1..], y);
      Glue(x[..c], Split(x[c + 1..]), Segments(y));
    } else {
      assert x[..c] == x;
    }
  }

  lemma {:induction false} SplitConcat(x: string, y: string)
    ensures Split(x + "/" + y) == Split(x) + Split(y)
    decreases |x|
  {
    hide Split, Slash;
    CutAt(x, y);
    SplitStep(x);
    SplitStep(x + "/" + y);
    var c := Slash(x);
    if c < |x| {
      SplitConcat(x[c + 1..], y);
      Glue(x[..c], Split(x[c + 1..]), Split(y));
    } else {
      assert x[..c] == x;
    }
  }

  lemma JoinCons(first: string, rest: seq<string>)
    requires rest != []
    ensures JoinSlash([first] + rest) == first + "/" + JoinSlash(rest)
  {
  }

  /** Joining undoes splitting. */
  lemma {:induction false} JoinSplit(s: string)
    ensures JoinSlash(Split(s)) == s
    decreases |s|
  {
    hide Split, Slash;
    SplitStep(s);
    var c := Slash(s);
    if c < |s| {
      JoinSplit(s[c + 1..]);
      JoinCons(s[..c], Split(s[c + 1..]));
      assert s == s[..c] + "/" + s[c + 1..];
    }
  }

  /** Splitting undoes joining. */
  lemma {:induction false} SplitJoin(segments: seq<string>)
    requires segments != [] && NoSlash(segments)
    ensures Split(JoinSlash(segments)) == segments
  {
    SplitOne(segments[0]);
    if |segments| > 1 {
      SplitJoin(segments[1..]);
      SplitConcat(segments[0], JoinSlash(segments[1..]));
    }
  }

  lemma SplitOne(s: string)
    requires '/' !in s
    ensures Split(s) == [s]
  {
    SlashIs(s, |s|);
  }

  lemma {:induction false} SplitNoSlash(s: string)
    ensures NoSlash(Split(s))
    decreases |s|
  {
    if Slash(s) < |s| {
      SplitNoSlash(s[Slash(s) + 1..]);
    }
  }

  /** `getline` drops the last piece exactly when it is empty. */
  lemma {:induction false} SegmentsSplit(s: string)
    ensures var all := Split(s);
            Segments(s) == if all[|all| - 1] == "" then all[..|all| - 1] else all
    decreases |s|
  {
    hide Split, Segments, Slash;
    SplitStep(s);
    SegmentsStep(s);
    var c := Slash(s);
    if c < |s| {
      SegmentsSplit(s[c + 1..]);
    }
  }

  // ---------------------------------------------------------------- evaluating

  function Step(stack: seq<string>, segment: string): seq<string> {
    if segment == ".." then (if stack == [] then stack else stack[..|stack| - 1])
    else if segment == "." then stack
    else stack + [segment]
  }

  function Eval(stack: seq<string>, segments: seq<string>): seq<string>
    decreases |segments|
  {
    if segments == [] then stack else Eval(Step(stack, segments[0]), segments[1..])
  }

  function Render(stack: seq<string>): string {
    if |stack| > 1 then JoinSlash(stack) else if stack == [] then "/" else "/" + stack[0]
  }

  function Absolute(path: string, dir: string): string {
    if path != "" && path[0] == '/' then path else dir + "/" + path
  }

  function Stack(text: string): seq<string> {
    Eval([], Segments(text))
  }

  function Normalize(path: string, dir: string): string {
    Render(Stack(Absolute(path, dir)))
  }

  lemma SlashFrom(s: string, pos: nat, end: nat)
    requires pos <= end <= |s| && (end < |s| ==> s[end] == '/')
    requires forall k :: pos <= k < end ==> s[k] != '/'
    ensures Slash(s[pos..]) == end - pos
  {
    hide Slash;
    SlashIs(s[pos..], end - pos);
  }

  lemma SliceFrom(s: string, pos: nat, end: nat)
    requires pos <= end <= |s|
    ensures s[pos..][..end - pos] == s[pos..end]
    ensures end < |s| ==> s[pos..][end - pos + 1..] == s[end + 1..]
    ensures end == |s| ==> s[pos..] == s[pos..end]
  {
  }

  lemma NextSegment(s: string, pos: nat, end: nat)
    requires pos <= end <= |s| && pos < |s| && Slash(s[pos..]) == end - pos
    ensures Segments(s[pos..]) == [s[pos..end]] + (if end < |s| then Segments(s[end + 1..]) else [])
  {
    hide Segments, Slash;
    SegmentsStep(s[pos..]);
    SliceFrom(s, pos, end);
  }

  /** One call of `getline`. */
  method Getline(s: string, pos: nat) returns (ok: bool, segment: string, next: nat)
    requires pos <= |s|
    ensures pos <= next <= |s| && (ok ==> pos < next)
    ensures Segments(s[pos..]) == if ok then [segment] + Segments(s[next..]) else []
  {
    hide Segments;
    ok, segment, next := pos < |s|, "", pos;
    NoSegment(s);
    if ok {
      while next < |s| && s[next] != '/'
        invariant pos <= next <= |s| && segment == s[pos..next]
        invariant forall k :: pos <= k < next ==> s[k] != '/'
      {
        segment := segment + [s[next]];
        next := next + 1;
      }
      SlashFrom(s, pos, next);
      NextSegment(s, pos, next);
      if next < |s| {
        next := next + 1;
      }
    }
  }

  lemma NoSegment(s: string)
    ensures Segments(s[|s|..]) == []
  {
  }

  method NormalizePath(path: string, dir: string) returns (result: string)
    ensures result == Normalize(path, dir)
  {
    var absolute: string;
    if path != "" && path[0] == '/' {
      absolute := path;
    } else {
      absolute := dir + "/" + path;
    }
    var segments := Resolve(absolute);
    result := Join(segments);
  }

  /** The first half of `NormalizePath`: the loop over `getline`. */
  method Resolve(absolute: string) returns (segments: seq<string>)
    ensures segments == Stack(absolute)
  {
    hide Segments;
    segments := [];
    assert absolute[0..] == absolute;
    var ok, segment, pos := Getline(absolute, 0);
    while ok
      invariant pos <= |absolute|
      invariant Stack(absolute) == Eval(segments, if ok then [segment] + Segments(absolute[pos..]) else [])
      decreases |absolute| - pos, ok
    {
      EvalStep(segments, segment, Segments(absolute[pos..]));
      if segment == ".." {
        if segments != [] {
          segments := segments[..|segments| - 1];
        }
      } else if segment != "." {
        segments := segments + [segment];
      }
      ok, segment, pos := Getline(absolute, pos);
    }
  }

  lemma EvalStep(stack: seq<string>, segment: string, rest: seq<string>)
    ensures Eval(stack, [segment] + rest) == Eval(Step(stack, segment), rest)
  {
    assert ([segment] + rest)[1..] == rest;
  }

  /** Its second half: what is written to the output stream. */
  method Join(segments: seq<string>) returns (result: string)
    ensures result == Render(segments)
  {
    if |segments| > 1 {
      var i := 0;
      result := "";
      while i < |segments| - 1
        invariant i <= |segments| - 1
        invariant result + JoinSlash(segments[i..]) == JoinSlash(segments)
      {
        assert segments[i..][1..] == segments[i + 1..];
        result := result + segments[i] + "/";
        i := i + 1;
      }
      result := result + segments[|segments| - 1];
    } else {
      result := "/";
      if segments != [] {
        result := result + segments[0];
      }
    }
  }

  // ---------------------------------------------------------------- what the stack holds

  predicate Plain(segment: string) {
    segment != "." && segment != ".." && '/' !in segment
  }

  predicate AllPlain(stack: seq<string>) {
    forall i :: 0 <= i < |stack| ==> Plain(stack[i])
  }

  lemma {:induction false} EvalPlain(stack: seq<string>, segments: seq<string>)
    requires AllPlain(stack) && NoSlash(segments)
    ensures AllPlain(Eval(stack, segments))
    decreases |segments|
  {
    if segments == [] {
    } else {
      EvalPlain(Step(stack, segments[0]), segments[1..]);
    }
  }

  /** Nothing the result is joined from is `.` or `..`. */
  lemma StackPlain(text: string)
    ensures AllPlain(Stack(text))
  {
    SegmentsSplit(text);
    SplitNoSlash(text);
    EvalPlain([], Segments(text));
  }

  lemma {:induction false} EvalConcat(stack: seq<string>, a: seq<string>, b: seq<string>)
    ensures Eval(stack, a + b) == Eval(Eval(stack, a), b)
    decreases |a|
  {
    if a == [] {
      assert a + b == b;
    } else {
      assert (a + b)[1..] == a[1..] + b;
      EvalConcat(Step(stack, a[0]), a[1..], b);
    }
  }

  lemma {:induction false} EvalPushes(stack: seq<string>, segments: seq<string>)
    requires AllPlain(segments)
    ensures Eval(stack, segments) == stack + segments
    decreases |segments|
  {
    if segments == [] {
    } else {
      EvalPushes(stack + [segments[0]], segments[1..]);
    }
  }

  lemma PlainNoSlash(stack: seq<string>)
    requires AllPlain(stack)
    ensures NoSlash(stack)
  {
  }

  /** What a rendered stack is cut into again: itself, or, with at most one segment, the root and it. */
  lemma SplitRender(stack: seq<string>)
    requires AllPlain(stack)
    ensures Split(Render(stack)) ==
            if |stack| > 1 then stack else ["", if stack == [] then "" else stack[0]]
  {
    PlainNoSlash(stack);
    if |stack| > 1 {
      SplitJoin(stack);
    } else {
      var last := if stack == [] then "" else stack[0];
      assert Render(stack) == "" + "/" + last;
      SplitConcat("", last);
      SplitOne("");
      SplitOne(last);
    }
  }

  lemma EvalSplitRender(stack: seq<string>)
    requires AllPlain(stack)
    ensures Eval([], Split(Render(stack))) ==
            if |stack| > 1 then stack else ["", if stack == [] then "" else stack[0]]
  {
    SplitRender(stack);
    var cut := Split(Render(stack));
    assert AllPlain(cut);
    EvalPushes([], cut);
    assert [] + cut == cut;
  }

  lemma JoinInjective(a: seq<string>, b: seq<string>)
    requires a != [] && b != [] && NoSlash(a) && NoSlash(b) && JoinSlash(a) == JoinSlash(b)
    ensures a == b
  {
    SplitJoin(a);
    SplitJoin(b);
  }

  // ---------------------------------------------------------------- normalising relative to a result

  predicate Relative(path: string) {
    path == "" || path[0] != '/'
  }

  /** The stack that `text` has built when a slash and more text follow it. */
  function OpenStack(text: string): seq<string> {
    Eval([], Split(text))
  }

  lemma {:induction false} LastPiece(text: string)
    ensures var all := Split(text); all[|all| - 1] == "" <==> text == "" || text[|text| - 1] == '/'
    decreases |text|
  {
    hide Split, Slash;
    SplitStep(text);
    var c := Slash(text);
    if c < |text| {
      LastPiece(text[c + 1..]);
    }
  }

  /** A final slash leaves an empty segment on the stack when more follows. */
  lemma OpenStackIs(text: string)
    requires text != ""
    ensures OpenStack(text) == if text[|text| - 1] == '/' then Stack(text) + [""] else Stack(text)
  {
    SegmentsSplit(text);
    LastPiece(text);
    var all := Split(text);
    if all[|all| - 1] == "" {
      assert all == all[..|all| - 1] + [""];
      EvalConcat([], all[..|all| - 1], [""]);
    }
  }

  lemma OpenStackPlain(text: string)
    ensures AllPlain(OpenStack(text))
  {
    SplitNoSlash(text);
    EvalPlain([], Split(text));
  }

  lemma Continued(text: string, more: string)
    ensures Stack(text + "/" + more) == Eval(OpenStack(text), Segments(more))
  {
    SegmentsConcat(text, more);
    EvalConcat([], Split(text), Segments(more));
  }

  /** Normalising every relative `q` against the result for `p` is normalising `p/q`. */
  ghost predicate RelativeLaw(p: string, dir: string) {
    forall q :: Relative(q) ==> Normalize(q, Normalize(p, dir)) == Normalize(p + "/" + q, dir)
  }

  lemma RelativeSides(p: string, dir: string, q: string)
    requires p != "" && Relative(q)
    ensures var text := Absolute(p, dir);
      && Normalize(q, Normalize(p, dir)) == Render(Eval(OpenStack(Render(Stack(text))), Segments(q)))
      && Normalize(p + "/" + q, dir) == Render(Eval(OpenStack(text), Segments(q)))
  {
    var text := Absolute(p, dir);
    hide Segments, Split, Eval, Render, Stack;
    Continued(Render(Stack(text)), q);
    Continued(text, q);
    AbsoluteAppend(p, dir, q);
  }

  lemma AbsoluteAppend(p: string, dir: string, q: string)
    requires p != ""
    ensures Absolute(p + "/" + q, dir) == Absolute(p, dir) + "/" + q
  {
    assert (p + "/" + q)[0] == p[0];
    assert dir + "/" + (p + "/" + q) == dir + "/" + p + "/" + q;
  }

  lemma OneMore(a: seq<string>, b: seq<string>)
    requires AllPlain(a) && AllPlain(b) && |a| >= 2
    requires Render(a + ["x"]) == Render(b + ["x"])
    ensures a == b
  {
    var c := if b == [] then ["", "x"] else b + ["x"];
    assert Render(b + ["x"]) == JoinSlash(c) by {
      if b == [] {
        assert Render(["x"]) == "/x" && JoinSlash(["", "x"]) == "/x";
      }
    }
    assert Plain("x") && Plain("");
    assert NoSlash(a + ["x"]) && NoSlash(c);
    JoinInjective(a + ["x"], c);
    assert a == (a + ["x"])[..|a|];
  }

  lemma SegmentsX()
    ensures Relative("x") && Segments("x") == ["x"]
    ensures forall stack :: Eval(stack, ["x"]) == stack + ["x"]
  {
    SlashIs("x", 1);
  }

  /** The law holds for `p` exactly when the result leaves behind the stack that `p` itself would. */
  lemma LawIffSameStack(p: string, dir: string)
    requires p != ""
    ensures var text := Absolute(p, dir); RelativeLaw(p, dir) <==> OpenStack(Render(Stack(text))) == OpenStack(text)
  {
    var text := Absolute(p, dir);
    var a, b := OpenStack(Render(Stack(text))), OpenStack(text);
    if a == b {
      forall q | Relative(q) ensures Normalize(q, Normalize(p, dir)) == Normalize(p + "/" + q, dir) {
        RelativeSides(p, dir, q);
      }
    } else if RelativeLaw(p, dir) {
      SegmentsX();
      RelativeSides(p, dir, "x");
      StackPlain(text);
      EvalSplitRender(Stack(text));
      OpenStackPlain(text);
      OpenStackPlain(Render(Stack(text)));
      OneMore(a, b);
    }
  }

  /** For which stacks the law holds. Without a final slash: exactly when the joined stack has two segments or
      more. With one: only for the root. The empty `p` never obeys it, as `p/q` is then absolute. */
  lemma RelativeLawOfStack(p: string, dir: string)
    ensures var stack := Stack(Absolute(p, dir));
      RelativeLaw(p, dir) <==>
        p != "" && if p[|p| - 1] == '/' then stack == [""] else |stack| > 1
  {
    var text := Absolute(p, dir);
    hide Normalize, Stack, Render, RelativeLaw, OpenStack, Split;
    if p == "" {
      EmptyBreaksLaw(dir);
    } else {
      StackPlain(text);
      RenderedStack(Stack(text));
      LawIffSameStack(p, dir);
      OpenStackIs(text);
      assert text[|text| - 1] == p[|p| - 1];
      SameStack(Stack(text));
    }
  }

  lemma RenderedStack(stack: seq<string>)
    requires AllPlain(stack)
    ensures OpenStack(Render(stack)) == if |stack| > 1 then stack else ["", if stack == [] then "" else stack[0]]
  {
    EvalSplitRender(stack);
  }

  lemma SameStack(stack: seq<string>)
    ensures var back := if |stack| > 1 then stack else ["", if stack == [] then "" else stack[0]];
      (back == stack <==> |stack| > 1) && (back == stack + [""] <==> stack == [""])
  {
  }

  lemma StackSlashX()
    ensures Stack("/x") == [""] + ["x"]
  {
    assert "" + "/" + "x" == "/x";
    SegmentsConcat("", "x");
    SplitOne("");
    SegmentsX();
    hide Segments, Split;
    assert Plain("") && Plain("x");
    EvalPushes([], ["", "x"]);
    assert [] + ["", "x"] == [""] + ["x"];
  }

  lemma EmptyBreaksLaw(dir: string)
    ensures !RelativeLaw("", dir)
  {
    var text := Absolute("", dir);
    var stack := Stack(text);
    StackPlain(text);
    EvalSplitRender(stack);
    SegmentsX();
    Continued(Render(stack), "x");
    var a := OpenStack(Render(stack));
    OpenStackPlain(Render(stack));
    assert Normalize("x", Normalize("", dir)) == Render(a + ["x"]);
    StackSlashX();
    hide Stack, Segments, Eval;
    assert "" + "/" + "x" == "/x";
    assert Normalize("/x", dir) == Render([""] + ["x"]);
    if Render(a + ["x"]) == Render([""] + ["x"]) {
      OneMore(a, [""]);
    }
  }

  // ---------------------------------------------------------------- normalising twice

  /** The result is a fixed point, whatever the directory. */
  ghost predicate Stable(text: string) {
    forall dir :: Normalize(text, dir) == text
  }

  predicate StableStack(stack: seq<string>) {
    |stack| <= 1 || (stack[0] == "" && (stack[|stack| - 1] != "" || |stack| == 2))
  }

  lemma RenderStart(stack: seq<string>)
    requires AllPlain(stack)
    ensures Relative(Render(stack)) <==> |stack| > 1 && stack[0] != ""
  {
    if |stack| > 1 {
      assert JoinSlash(stack) == stack[0] + "/" + JoinSlash(stack[1..]);
    }
  }

  lemma StackOfRender(stack: seq<string>)
    requires AllPlain(stack)
    ensures Stack(Render(stack)) ==
      var cut := if |stack| > 1 then stack else ["", if stack == [] then "" else stack[0]];
      if cut[|cut| - 1] == "" then cut[..|cut| - 1] else cut
  {
    SplitRender(stack);
    SegmentsSplit(Render(stack));
    var r := Segments(Render(stack));
    assert AllPlain(r);
    EvalPushes([], r);
    assert [] + r == r;
  }

  /** For which stacks the result is stable: it must be absolute and have no empty segment at its end, the
      root apart. */
  lemma StableOfStack(text: string)
    ensures Stable(Render(Stack(text))) <==> StableStack(Stack(text))
  {
    var stack := Stack(text);
    var r := Render(stack);
    StackPlain(text);
    RenderStart(stack);
    if Relative(r) {
      RelativeNotStable(stack);
    } else {
      assert forall dir :: Normalize(r, dir) == Render(Stack(r));
      assert Normalize(r, "") == Render(Stack(r));
      hide Normalize, Stack;
      RenderedAgain(stack);
    }
  }

  lemma RenderedAgain(stack: seq<string>)
    requires AllPlain(stack) && !Relative(Render(stack))
    ensures Render(Stack(Render(stack))) == Render(stack) <==> StableStack(stack)
  {
    StackOfRender(stack);
    RenderStart(stack);
    hide Stack;
    if |stack| > 2 && stack[|stack| - 1] == "" {
      PlainNoSlash(stack);
      if Render(stack[..|stack| - 1]) == Render(stack) {
        JoinInjective(stack[..|stack| - 1], stack);
      }
    } else if |stack| == 2 {
      assert stack[1] == "" ==> JoinSlash(stack) == stack[0] + "/" && stack[..1] == [stack[0]];
    } else if |stack| <= 1 {
      var last := if stack == [] then "" else stack[0];
      assert JoinSlash(["", last]) == "/" + last && ["", last][..1] == [""];
    }
  }

  lemma SplitD()
    ensures Split("/d") == ["", "d"]
  {
    assert "/d" == "" + "/" + "d";
    SplitConcat("", "d");
    SplitOne("");
    SplitOne("d");
  }

  lemma StackBelowD(stack: seq<string>)
    requires AllPlain(stack)
    ensures var all := ["", "d"] + Segments(Render(stack)); AllPlain(all) && Stack("/d" + "/" + Render(stack)) == all
  {
    var r := Render(stack);
    var all := ["", "d"] + Segments(r);
    SplitD();
    SegmentsConcat("/d", r);
    SplitRender(stack);
    SegmentsSplit(r);
    hide Split, Segments, Render;
    assert AllPlain(all);
    EvalPushes([], all);
    assert [] + all == all;
  }

  lemma RelativeNotStable(stack: seq<string>)
    requires AllPlain(stack) && Relative(Render(stack))
    ensures !Stable(Render(stack))
  {
    hide Segments, Stack, Render;
    var r := Render(stack);
    StackBelowD(stack);
    assert Normalize(r, "/d") == Render(["", "d"] + Segments(r));
    RenderStart(["", "d"] + Segments(r));
  }

  // ---------------------------------------------------------------- a reference without a stack

  /** Resolving from the right: `skip` names are still to be dropped, and what is left over at the root is. */
  function Resolved(names: seq<string>, skip: nat): seq<string>
    decreases |names|
  {
    if names == [] then []
    else
      var init, last := names[..|names| - 1], names[|names| - 1];
      if last == ".." then Resolved(init, skip + 1)
      else if last == "." then Resolved(init, skip)
      else if skip > 0 then Resolved(init, skip - 1)
      else Resolved(init, 0) + [last]
  }

  /** How deep the names lead: a counter that `..` lowers and that does not go below 0. */
  function Depth(names: seq<string>): nat
    decreases |names|
  {
    if names == [] then 0
    else
      var d, last := Depth(names[..|names| - 1]), names[|names| - 1];
      if last == ".." then (if d == 0 then 0 else d - 1) else if last == "." then d else d + 1
  }

  /** Some `..` is met at depth 0. */
  predicate Climbs(names: seq<string>) {
    exists i :: 0 <= i < |names| && names[i] == ".." && Depth(names[..i]) == 0
  }

  function Reference(names: seq<string>): string {
    "/" + if Resolved(names, 0) == [] then "" else JoinSlash(Resolved(names, 0))
  }

  function DropLast(s: seq<string>, k: nat): seq<string> {
    if k >= |s| then [] else s[..|s| - k]
  }

  lemma EvalLast(stack: seq<string>, names: seq<string>)
    requires names != []
    ensures Eval(stack, names) == Step(Eval(stack, names[..|names| - 1]), names[|names| - 1])
  {
    var init := names[..|names| - 1];
    assert names == init + [names[|names| - 1]];
    EvalConcat(stack, init, [names[|names| - 1]]);
  }

  /** The stack computes what cancelling from the right computes. */
  lemma {:induction false} StackIsResolved(names: seq<string>, skip: nat)
    ensures Resolved(names, skip) == DropLast(Eval([], names), skip)
    decreases |names|
  {
    if names == [] {
    } else {
      var init, last := names[..|names| - 1], names[|names| - 1];
      EvalLast([], names);
      StackIsResolved(init, if last == ".." then skip + 1 else if last != "." && skip > 0 then skip - 1 else skip);
      hide Eval;
    }
  }

  /** The counter counts what is left. */
  lemma {:induction false} DepthCounts(names: seq<string>)
    ensures Depth(names) == |Resolved(names, 0)|
    decreases |names|
  {
    if names == [] {
    } else {
      var init := names[..|names| - 1];
      EvalLast([], names);
      StackIsResolved(names, 0);
      StackIsResolved(init, 0);
      DepthCounts(init);
      hide Eval, Resolved;
    }
  }

  lemma ClimbsLast(names: seq<string>)
    requires names != []
    ensures var init := names[..|names| - 1];
      Climbs(names) <==> Climbs(init) || (names[|names| - 1] == ".." && Depth(init) == 0)
  {
    var init := names[..|names| - 1];
    assert forall i :: 0 <= i < |init| ==> names[..i] == init[..i];
    if Climbs(init) {
      var i :| 0 <= i < |init| && init[i] == ".." && Depth(init[..i]) == 0;
      assert names[i] == "..";
    }
    hide Depth;
  }

  /** With the root on the stack: it is gone once `..` was met there, and stays gone. */
  lemma {:induction false} RootedStack(names: seq<string>)
    ensures Eval([""], names) == (if Climbs(names) then [] else [""]) + Resolved(names, 0)
    decreases |names|
  {
    if names == [] {
    } else {
      var init := names[..|names| - 1];
      RootedStack(init);
      EvalLast([""], names);
      EvalLast([], names);
      ClimbsLast(names);
      StackIsResolved(names, 0);
      StackIsResolved(init, 0);
      DepthCounts(init);
      hide Eval, Resolved, Climbs, Depth;
    }
  }

  lemma RenderRooted(r: seq<string>)
    ensures Render([""] + r) == "/" + if r == [] then "" else JoinSlash(r)
  {
    if r != [] {
      assert ([""] + r)[1..] == r;
    }
  }

  lemma {:induction false} ResolvedNames(names: seq<string>, skip: nat)
    requires forall i :: 0 <= i < |names| ==> names[i] != ""
    ensures forall i :: 0 <= i < |Resolved(names, skip)| ==> Resolved(names, skip)[i] != ""
    decreases |names|
  {
    if names == [] {
    } else {
      var last := names[|names| - 1];
      ResolvedNames(names[..|names| - 1],
        if last == ".." then skip + 1 else if last != "." && skip > 0 then skip - 1 else skip);
    }
  }
}
