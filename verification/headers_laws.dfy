/** What the header parser is for: parsing undoes printing, folded lines included. */
module HeadersLaws {
  import opened Wrappers
  import opened HttpScan
  import opened Headers

  lemma {:induction false} SkipBlanksAt(d: string, i: nat, j: nat)
    requires i <= j <= |d| && (forall k :: i <= k < j ==> Blank(d[k])) && (j < |d| ==> !Blank(d[j]))
    ensures SkipBlanks(d, i) == j
    decreases j - i
  {
    if i == j {
    } else {
      SkipBlanksAt(d, i + 1, j);
    }
  }

  lemma {:induction false} LastNonBlankAt(d: string, lo: nat, t: nat, j: nat)
    requires lo <= t <= j < |d| && !Blank(d[lo]) && !Blank(d[t]) && forall k :: t < k <= j ==> Blank(d[k])
    ensures LastNonBlank(d, lo, j) == t
    decreases j
  {
    if t == j {
    } else {
      LastNonBlankAt(d, lo, t, j - 1);
    }
  }

  // ---------------------------------------------------------------- what lines spell

  lemma SpelledStep(fields: seq<Field>, ws: seq<Written>, max: nat)
    requires ws != []
    ensures Spelled(fields, ws, max) == Spelled(SpelledLine(fields, ws[0], max), ws[1..], max)
    ensures HeaderLines(ws) == (if ws[0].Header? then [ws[0]] else []) + HeaderLines(ws[1..])
    ensures Contents(ws) == (if ws[0].Fold? then ws[0].content else "") + Contents(ws[1..])
  {
  }

  lemma SpelledNone(fields: seq<Field>, max: nat)
    ensures Spelled(fields, [], max) == fields
  {
  }

  lemma FoldedTwice(fields: seq<Field>, a: string, b: string)
    requires fields != []
    ensures Folded(Folded(fields, a), b) == Folded(fields, a + b) && Folded(fields, "") == fields
  {
    var k := |fields| - 1;
    assert fields[k].text + (a + b) == fields[k].text + a + b && fields[k].text + "" == fields[k].text;
    assert fields == fields[k := fields[k]];
  }

  /** Once there is no room every header line is passed over, and all continuations, those of the headers passed
      over as well, are appended to the last field kept. */
  lemma {:induction false} SpelledFull(fields: seq<Field>, ws: seq<Written>, max: nat)
    requires |fields| >= max
    ensures Spelled(fields, ws, max) == if fields == [] then [] else Folded(fields, Contents(ws))
    decreases |ws|
  {
    if ws == [] {
      if fields != [] {
        FoldedTwice(fields, "", "");
      }
    } else {
      SpelledStep(fields, ws, max);
      SpelledFull(SpelledLine(fields, ws[0], max), ws[1..], max);
      if fields != [] && ws[0].Fold? {
        FoldedTwice(fields, ws[0].content, Contents(ws[1..]));
      }
      hide Spelled, Contents, Folded;
      assert "" + Contents(ws[1..]) == Contents(ws[1..]);
    }
  }

  lemma {:induction false} SpelledConcat(fields: seq<Field>, u: seq<Written>, v: seq<Written>, max: nat)
    ensures Spelled(fields, u + v, max) == Spelled(Spelled(fields, u, max), v, max)
    decreases |u|
  {
    if u == [] {
      assert u + v == v;
    } else {
      assert (u + v)[1..] == u[1..] + v;
      SpelledConcat(SpelledLine(fields, u[0], max), u[1..], v, max);
      hide SpelledLine;
    }
  }

  /** Where the room runs out, after the lines `u`, the fields stand except for the last one's text. */
  lemma BeyondRoom(u: seq<Written>, v: seq<Written>, max: nat)
    requires |Spelled([], u, max)| >= max > 0
    ensures Spelled([], u + v, max) == Folded(Spelled([], u, max), Contents(v))
  {
    SpelledConcat([], u, v, max);
    SpelledFull(Spelled([], u, max), v, max);
    hide Spelled, Contents;
  }

  /** There are as many fields as header lines, up to the room there is. */
  lemma {:induction false} SpelledCount(fields: seq<Field>, ws: seq<Written>, max: nat)
    requires |fields| <= max
    ensures |Spelled(fields, ws, max)| ==
            if |fields| + |HeaderLines(ws)| <= max then |fields| + |HeaderLines(ws)| else max
    decreases |ws|
  {
    if ws == [] {
      SpelledNone(fields, max);
    } else {
      SpelledStep(fields, ws, max);
      hide Spelled, HeaderLines;
      SpelledCount(SpelledLine(fields, ws[0], max), ws[1..], max);
    }
  }

  /** The fields from position `n` on are those of the first of the header lines `hs`, whatever was folded on. */
  ghost predicate FieldsOf(fields: seq<Field>, n: nat, hs: seq<Written>) {
    && n <= |fields| <= n + |hs|
    && (forall w :: w in hs ==> w.Header?)
    && forall i :: 0 <= i < |fields| - n ==>
         fields[n + i].name == hs[i].name && fields[n + i].debt == BlanksOnly(hs[i])
  }

  predicate SameHeads(a: seq<Field>, b: seq<Field>) {
    |a| == |b| && forall i :: 0 <= i < |a| ==> a[i].name == b[i].name && a[i].debt == b[i].debt
  }

  lemma HeadsKept(fields: seq<Field>, w: Written, max: nat, r: seq<Field>)
    requires var t := SpelledLine(fields, w, max); |r| >= |t| && SameHeads(r[..|t|], t)
    ensures |r| >= |fields| && SameHeads(r[..|fields|], fields)
    ensures w.Header? && |fields| < max ==>
              |r| > |fields| && r[|fields|].name == w.name && r[|fields|].debt == BlanksOnly(w)
  {
    var t := SpelledLine(fields, w, max);
    assert forall i :: 0 <= i < |t| ==> r[..|t|][i] == r[i];
    assert forall i :: 0 <= i < |fields| ==> t[i].name == fields[i].name && t[i].debt == fields[i].debt;
  }

  lemma FieldsCons(r: seq<Field>, n: nat, w: Written, hs: seq<Written>)
    requires FieldsOf(r, n + 1, hs) && w.Header? && r[n].name == w.name && r[n].debt == BlanksOnly(w)
    ensures FieldsOf(r, n, [w] + hs)
  {
    var all := [w] + hs;
    forall i | 0 <= i < |r| - n ensures r[n + i].name == all[i].name && r[n + i].debt == BlanksOnly(all[i]) {
      if i > 0 {
        assert all[i] == hs[i - 1] && r[n + i] == r[n + 1 + (i - 1)];
      }
    }
  }

  lemma NoFields(fields: seq<Field>, hs: seq<Written>)
    requires forall w :: w in hs ==> w.Header?
    ensures FieldsOf(fields, |fields|, hs)
  {
  }

  lemma FoldedHeads(fields: seq<Field>, content: string)
    requires fields != []
    ensures |Folded(fields, content)| == |fields| && SameHeads(Folded(fields, content)[..|fields|], fields)
  {
  }

  /** Folding changes texts only, so each field keeps the name and the blanks of its header line. */
  lemma {:induction false} SpelledHeads(fields: seq<Field>, ws: seq<Written>, max: nat)
    ensures var r := Spelled(fields, ws, max); |r| >= |fields| && SameHeads(r[..|fields|], fields)
    ensures FieldsOf(Spelled(fields, ws, max), |fields|, HeaderLines(ws))
    decreases |ws|
  {
    if |fields| >= max {
      SpelledFull(fields, ws, max);
      hide Spelled, HeaderLines, FieldsOf, SameHeads, Folded;
      if fields == [] {
        HeadsOfNone(fields);
      } else {
        FoldedHeads(fields, Contents(ws));
      }
      NoFields(Spelled(fields, ws, max), HeaderLines(ws));
    } else if ws == [] {
      SpelledNone(fields, max);
      assert fields[..|fields|] == fields;
    } else {
      hide Spelled, HeaderLines, SameHeads, FieldsOf;
      SpelledStep(fields, ws, max);
      SpelledHeads(SpelledLine(fields, ws[0], max), ws[1..], max);
      HeadsKept(fields, ws[0], max, Spelled(fields, ws, max));
      if ws[0].Header? {
        FieldsCons(Spelled(fields, ws, max), |fields|, ws[0], HeaderLines(ws[1..]));
      } else {
        assert [] + HeaderLines(ws[1..]) == HeaderLines(ws[1..]);
      }
    }
  }

  lemma HeadsOfNone(fields: seq<Field>)
    requires fields == []
    ensures SameHeads(fields[..0], fields)
  {
  }

  // ---------------------------------------------------------------- one printed line

  /** A line of a body without CR and without a first ':' before `colon`, ended by CRLF. */
  lemma ReadsTo(rest: string, colon: nat, lf: nat)
    requires colon + 2 <= lf < |rest| && rest[colon] == ':' && rest[lf - 1] == CR && rest[lf] == LF
    requires forall k :: 0 <= k < colon ==> rest[k] != ':'
    requires forall k :: colon <= k < lf - 1 ==> rest[k] != CR
    ensures ReadLine(rest) == Some(Line(colon, lf))
  {
    FirstIndexAt(rest, ':', 0, colon);
    FindLineAt(rest, colon, lf - 1);
  }

  /** The parts of a printed header line, by position. */
  ghost predicate HeaderAt(rest: string, name: string, pre: string, value: string, post: string) {
    var a := |name| + 1;
    var b := a + |pre|;
    var c := b + |value|;
    var e := c + |post|;
    && e + 2 <= |rest|
    && rest[..|name|] == name && rest[|name|] == ':'
    && rest[a..b] == pre && rest[b..c] == value && rest[c..e] == post
    && rest[e] == CR && rest[e + 1] == LF
  }

  lemma PrintedHeaderAt(name: string, pre: string, value: string, post: string, tail: string)
    ensures HeaderAt(PrintLine(Header(name, pre, value, post)) + tail, name, pre, value, post)
    ensures |PrintLine(Header(name, pre, value, post))| == |name| + 1 + |pre| + |value| + |post| + 2
  {
    var w := name + ":" + pre + value + post + CRLF;
    var rest := w + tail;
    var a := |name| + 1;
    var b := a + |pre|;
    var c := b + |value|;
    var e := c + |post|;
    assert rest[..e + 2] == w;
    assert w[..e] == name + ":" + pre + value + post;
    assert rest[..e] == w[..e];
    assert rest[..c] == name + ":" + pre + value;
    assert rest[c..e] == rest[..e][c..];
    assert rest[..b] == name + ":" + pre;
    assert rest[b..c] == rest[..c][b..];
    assert rest[a..b] == rest[..b][a..];
    assert rest[e..e + 2] == CRLF;
    assert rest[e..e + 2][0] == rest[e] && rest[e..e + 2][1] == rest[e + 1];
  }

  /** The bytes of a printed header line, by position. */
  lemma HeaderBytes(rest: string, name: string, pre: string, value: string, post: string)
    requires HeaderAt(rest, name, pre, value, post)
    requires WellFormed(Header(name, pre, value, post))
    ensures var a := |name| + 1;
            var b := a + |pre|;
            var c := b + |value|;
            var e := c + |post|;
            && (forall k :: 0 <= k < |name| ==> IsToken(rest[k]))
            && (forall k :: a <= k < b ==> Blank(rest[k]))
            && (forall k :: b <= k < c ==> rest[k] == value[k - b] && rest[k] != CR)
            && (forall k :: c <= k < e ==> Blank(rest[k]))
  {
    var a := |name| + 1;
    var b := a + |pre|;
    var c := b + |value|;
    var e := c + |post|;
    assert forall k :: 0 <= k < |name| ==> rest[k] == rest[..|name|][k];
    assert forall k :: a <= k < b ==> rest[k] == rest[a..b][k - a];
    assert forall k :: b <= k < c ==> rest[k] == rest[b..c][k - b];
    assert forall k :: c <= k < e ==> rest[k] == rest[c..e][k - c];
  }

  lemma HeaderLine(rest: string, name: string, pre: string, value: string, post: string)
    requires HeaderAt(rest, name, pre, value, post)
    requires WellFormed(Header(name, pre, value, post))
    ensures ReadLine(rest) == Some(Line(|name|, |name| + 1 + |pre| + |value| + |post| + 1))
    ensures !Blank(rest[0]) && AllToken(rest[..|name|])
  {
    HeaderBytes(rest, name, pre, value, post);
    hide ReadLine, FirstIndex, FindLine;
    ReadsTo(rest, |name|, |name| + 1 + |pre| + |value| + |post| + 1);
  }

  /** The value is found between the blanks; an empty value among blanks is taken to start at the CR and
      to end after the colon. */
  lemma HeaderSpans(rest: string, name: string, pre: string, value: string, post: string)
    requires HeaderAt(rest, name, pre, value, post)
    requires WellFormed(Header(name, pre, value, post))
    ensures var l := Line(|name|, |name| + 1 + |pre| + |value| + |post| + 1);
            && ReadLine(rest) == Some(l)
            && ValueStart(rest, l) == |name| + 1 + |pre| + (if value == "" then |post| else 0)
            && ValueEnd(rest, l) == |name| + 1 + (if value == "" then 0 else |pre| + |value|)
  {
    var a := |name| + 1;
    var b := a + |pre|;
    var c := b + |value|;
    var e := c + |post|;
    HeaderLine(rest, name, pre, value, post);
    HeaderBytes(rest, name, pre, value, post);
    hide ReadLine, SkipBlanks, LastNonBlank, IsToken, AllToken, AllBlank, HeaderAt;
    if value == "" {
      SkipBlanksAt(rest, a, e);
      LastNonBlankAt(rest, |name|, |name|, e - 1);
    } else {
      assert rest[c - 1] == value[|value| - 1];
      SkipBlanksAt(rest, a, b);
      LastNonBlankAt(rest, |name|, c - 1, e - 1);
    }
  }

  lemma HeaderReads(rest: string, name: string, pre: string, value: string, post: string)
    requires HeaderAt(rest, name, pre, value, post)
    requires WellFormed(Header(name, pre, value, post))
    ensures var l := Line(|name|, |name| + 1 + |pre| + |value| + |post| + 1);
            && ReadLine(rest) == Some(l)
            && !Blank(rest[0]) && AllToken(rest[..l.colon])
            && FieldOf(rest, l) == Field(name, value, BlanksOnly(Header(name, pre, value, post)))
  {
    hide ReadLine, ValueStart, ValueEnd, AllToken, WellFormed;
    HeaderLine(rest, name, pre, value, post);
    HeaderSpans(rest, name, pre, value, post);
  }

  lemma PrintedFoldAt(blank: char, content: string, tail: string)
    ensures var rest := PrintLine(Fold(blank, content)) + tail;
            && |PrintLine(Fold(blank, content))| == |content| + 3
            && rest[0] == blank && rest[1..|content| + 1] == content
            && rest[|content| + 1] == CR && rest[|content| + 2] == LF
            && forall k :: 0 <= k < |content| ==> rest[k + 1] == content[k]
  {
  }

  /** A printed continuation is read as one line. */
  lemma FoldReads(blank: char, content: string, tail: string)
    requires WellFormed(Fold(blank, content))
    ensures var rest := PrintLine(Fold(blank, content)) + tail;
            var l := ReadLine(rest);
            && l.Some? && l.value.lf == |content| + 2 && rest[1..l.value.lf - 1] == content && Blank(rest[0])
  {
    var rest := PrintLine(Fold(blank, content)) + tail;
    PrintedFoldAt(blank, content, tail);
    hide PrintLine;
    var j :| 0 <= j < |content| && content[j] == ':';
    var colon := FirstIndex(rest, ':', 0);
    assert rest[j + 1] == ':';
    assert colon <= j + 1;
    assert forall k :: 1 <= k < |content| + 1 ==> rest[k] == content[k - 1];
    ReadsTo(rest, colon, |content| + 2);
  }

  // ---------------------------------------------------------------- the round trip

  /** One written line is read alone, and the parser gathers from it what it spells. */
  ghost predicate Gathers(w: Written, tail: string, fields: seq<Field>, max: nat) {
    var rest := PrintLine(w) + tail;
    var l := ReadLine(rest);
    && l.Some? && l.value.lf + 1 == |PrintLine(w)| && rest[l.value.lf + 1..] == tail
    && Gather(rest, l.value, fields, max) == SpelledLine(fields, w, max)
  }

  lemma GathersHeader(name: string, pre: string, value: string, post: string, tail: string,
                      fields: seq<Field>, max: nat)
    requires WellFormed(Header(name, pre, value, post))
    ensures Gathers(Header(name, pre, value, post), tail, fields, max)
  {
    PrintedHeaderAt(name, pre, value, post, tail);
    hide PrintLine, HeaderAt, FieldOf, ReadLine, WellFormed, AllToken;
    HeaderReads(PrintLine(Header(name, pre, value, post)) + tail, name, pre, value, post);
  }

  lemma GathersFold(blank: char, content: string, tail: string, fields: seq<Field>, max: nat)
    requires WellFormed(Fold(blank, content))
    ensures Gathers(Fold(blank, content), tail, fields, max)
  {
    PrintedFoldAt(blank, content, tail);
    hide PrintLine, ReadLine, WellFormed, Folded;
    FoldReads(blank, content, tail);
  }

  lemma PassedReads(rest: string, name: string, content: string)
    requires HeaderAt(rest, name, "", content, "") && WellFormed(Passed(name, content))
    ensures ReadLine(rest) == Some(Line(|name|, |name| + 1 + |content| + 1))
    ensures !Blank(rest[0]) && !AllToken(rest[..|name|])
  {
    assert forall k :: 0 <= k < |name| ==> rest[k] == rest[..|name|][k];
    forall k | |name| + 1 <= k < |name| + 1 + |content| ensures rest[k] == content[k - |name| - 1] {
      assert rest[|name| + 1..|name| + 1 + |content|][k - |name| - 1] == rest[k];
    }
    hide ReadLine, FirstIndex, FindLine, AllToken;
    ReadsTo(rest, |name|, |name| + 1 + |content| + 1);
  }

  lemma PassedPrints(name: string, content: string)
    ensures PrintLine(Passed(name, content)) == PrintLine(Header(name, "", content, ""))
  {
    assert name + ":" + "" + content + "" == name + ":" + content;
  }

  lemma GathersPassed(name: string, content: string, tail: string, fields: seq<Field>, max: nat)
    requires WellFormed(Passed(name, content))
    ensures Gathers(Passed(name, content), tail, fields, max)
  {
    PassedPrints(name, content);
    PrintedHeaderAt(name, "", content, "", tail);
    hide PrintLine, HeaderAt, FieldOf, ReadLine, WellFormed, AllToken;
    PassedReads(PrintLine(Passed(name, content)) + tail, name, content);
  }

  lemma GatherWritten(w: Written, tail: string, fields: seq<Field>, max: nat)
    requires WellFormed(w)
    ensures Gathers(w, tail, fields, max)
  {
    hide Gathers, WellFormed;
    match w
    case Header(name, pre, value, post) => GathersHeader(name, pre, value, post, tail, fields, max);
    case Fold(blank, content) => GathersFold(blank, content, tail, fields, max);
    case Passed(name, content) => GathersPassed(name, content, tail, fields, max);
  }

  lemma StartsLine(w: Written, tail: string)
    requires WellFormed(w)
    ensures MoreLines(PrintLine(w) + tail)
  {
    match w
    case Header(name, pre, value, post) =>
      PrintedHeaderAt(name, pre, value, post, tail);
      hide PrintLine;
      HeaderBytes(PrintLine(w) + tail, name, pre, value, post);
    case Fold(blank, content) =>
      PrintedFoldAt(blank, content, tail);
    case Passed(name, content) =>
      assert (PrintLine(w) + tail)[0] == name[0];
  }

  /** Parsing undoes printing: the lines printed, an empty line and any body give 0, exactly the fields the lines
      spell in the room there is, and the length of the block. */
  lemma {:induction false} RoundTrip(ws: seq<Written>, body: string, base: nat, fields: seq<Field>, max: nat)
    requires ws != [] && forall w :: w in ws ==> WellFormed(w)
    ensures ParseFrom(PrintLines(ws) + CRLF + body, base, fields, max)
            == Parsed(0, Spelled(fields, ws, max), base + |PrintLines(ws)| + 2)
    decreases |ws|
  {
    hide PrintLine, PrintLines, ReadLine, Gather, ParseFrom, WellFormed, MoreLines, Spelled, SpelledLine;
    var w, tail := ws[0], PrintLines(ws[1..]) + CRLF + body;
    PrintLinesSplit(ws, body);
    GatherWritten(w, tail, fields, max);
    ParseLine(PrintLine(w) + tail, base, fields, max);
    SpelledStep(fields, ws, max);
    if ws[1..] == [] {
      NoMoreLines(body);
      PrintLinesEmpty(body);
      SpelledNone(SpelledLine(fields, w, max), max);
    } else {
      RoundTrip(ws[1..], body, base + |PrintLine(w)|, SpelledLine(fields, w, max), max);
      PrintLinesSplit(ws[1..], body);
      StartsLine(ws[1], PrintLines(ws[1..][1..]) + CRLF + body);
    }
  }

  lemma PrintLinesSplit(ws: seq<Written>, body: string)
    requires ws != []
    ensures PrintLines(ws) + CRLF + body == PrintLine(ws[0]) + (PrintLines(ws[1..]) + CRLF + body)
    ensures |PrintLines(ws)| == |PrintLine(ws[0])| + |PrintLines(ws[1..])|
  {
  }

  lemma PrintLinesEmpty(body: string)
    ensures PrintLines([]) + CRLF + body == CRLF + body && |PrintLines([])| == 0
  {
  }

  lemma NoMoreLines(body: string)
    ensures !MoreLines(CRLF + body) && CRLF <= CRLF + body
  {
  }

  // ---------------------------------------------------------------- where the parser departs from it

  /** A continuation is read as a line of its own exactly when it contains a ':'; without one the scan
      runs on and the line swallows what follows. */
  lemma FoldReadAloneIffColon(blank: char, content: string, tail: string)
    requires Blank(blank) && CR !in content
    ensures var l := ReadLine(PrintLine(Fold(blank, content)) + tail);
            (l.Some? && l.value.lf == |content| + 2) <==> ':' in content
  {
    var rest := PrintLine(Fold(blank, content)) + tail;
    PrintedFoldAt(blank, content, tail);
    hide PrintLine;
    if ':' in content {
      FoldReads(blank, content, tail);
    }
  }

  /** A field's length is negative exactly when its value is written as blanks only. */
  lemma NegativeIffAllBlank(rest: string, l: Line)
    requires ReadLine(rest) == Some(l)
    ensures FieldOf(rest, l).debt > 0
            <==> l.colon + 1 < l.lf - 1 && AllBlank(rest[l.colon + 1..l.lf - 1])
  {
    hide ReadLine;
    var v, e := ValueStart(rest, l), ValueEnd(rest, l);
    var s := rest[l.colon + 1..l.lf - 1];
    assert forall k :: l.colon + 1 <= k < l.lf - 1 ==> rest[k] == s[k - l.colon - 1];
    if AllBlank(s) {
      assert forall k :: l.colon + 1 <= k < l.lf - 1 ==> Blank(rest[k]);
      SkipBlanksAt(rest, l.colon + 1, l.lf - 1);
      LastNonBlankAt(rest, l.colon, l.colon, l.lf - 2);
    }
    if v > e {
      assert v == l.lf - 1;
      assert forall k :: 0 <= k < |s| ==> s[k] == rest[l.colon + 1 + k];
    }
  }

  /** A continuation `x` without a ':' runs on into the next line. */
  lemma FoldSwallowsLine()
    ensures PrintLine(Fold(' ', "x")) + "y:z\r\n" == " x\r\ny:z\r\n"
    ensures ReadLine(" x\r\ny:z\r\n") == Some(Line(5, 8))
  {
    assert CRLF == ['\r', '\n'] && [' '] + "x" + CRLF == [' ', 'x', '\r', '\n'];
    ReadsTo(" x\r\ny:z\r\n", 5, 8);
  }

  /** One blank as a value: the length is -1. */
  lemma OneBlankNegative()
    ensures ReadLine("a: \r\n") == Some(Line(1, 4)) && FieldOf("a: \r\n", Line(1, 4)) == Field("a", "", 1)
  {
    var rest := "a: \r\n";
    ReadsTo(rest, 1, 4);
    hide ReadLine;
    SkipBlanksAt(rest, 2, 3);
    LastNonBlankAt(rest, 1, 1, 2);
    assert rest[..1] == "a";
  }

  /** Room for one header: the continuation of the second goes to the first. */
  lemma LateFoldMisplaced()
    ensures var ws := [Header("a", "", "b", ""), Header("c", "", "d", ""), Fold(' ', "x:y")];
      && (forall w :: w in ws ==> WellFormed(w))
      && Spelled([], ws, 1) == [Field("a", "bx:y", 0)]
      && Spelled([], ws, 2) == [Field("a", "b", 0), Field("c", "dx:y", 0)]
  {
    var h, g, f := Header("a", "", "b", ""), Header("c", "", "d", ""), Fold(' ', "x:y");
    assert "x:y"[1] == ':';
    assert [h, g, f][1..] == [g, f] && [g, f][1..] == [f] && [f][1..] == [];
    var a, c := Field("a", "b", 0), Field("c", "d", 0);
    assert "b" + "x:y" == "bx:y" && "d" + "x:y" == "dx:y";
    assert SpelledLine([], h, 1) == [a] && SpelledLine([a], g, 1) == [a];
    assert SpelledLine([a], f, 1) == [Field("a", "bx:y", 0)];
    assert SpelledLine([], h, 2) == [a] && SpelledLine([a], g, 2) == [a, c];
    assert SpelledLine([a, c], f, 2) == [a, Field("c", "dx:y", 0)];
    hide SpelledLine;
    assert Spelled([Field("a", "bx:y", 0)], [], 1) == [Field("a", "bx:y", 0)];
    assert Spelled([a], [f], 1) == Spelled([Field("a", "bx:y", 0)], [], 1);
    assert Spelled([a], [g, f], 1) == Spelled([a], [f], 1);
    assert Spelled([a, c], [f], 2) == Spelled([a, Field("c", "dx:y", 0)], [], 2);
    assert Spelled([a], [g, f], 2) == Spelled([a, c], [f], 2);
  }

  // ---------------------------------------------------------------- when a scan leaves the buffer

  /** No line can be read exactly when there is no ':', or no line end behind the first one. */
  lemma NoLineIff(rest: string)
    ensures ReadLine(rest).None? <==>
      ':' !in rest || !HasLineEnd(rest, FirstIndex(rest, ':', 0))
  {
    hide FindLine, HasLineEnd;
    var colon := FirstIndex(rest, ':', 0);
    if colon == |rest| {
      assert ':' !in rest;
    } else {
      assert rest[colon] == ':';
      FindLineIff(rest, colon);
    }
  }

  /** A header block without a ':' is read beyond its end, and so is one without a line end. */
  lemma UnfinishedOverruns(max: nat)
    ensures Parse("a", max) == Overrun && Parse("a:b\r", max) == Overrun
  {
    NoLineIff("a");
    var d := "a:b\r";
    FirstIndexAt(d, ':', 0, 1);
    assert FindLine(d, 3) == PastEnd;
    assert FindLine(d, 1) == PastEnd;
  }

  // ---------------------------------------------------------------- the character classes

  const DELIMITERS := "\"(),/:;<=>?@[\\]{}"

  /** Token characters are the visible ones less the delimiters of section 3.2.6 of RFC 7230. */
  lemma TokensAreThese()
    ensures forall c :: IsToken(c) <==> '!' <= c <= '~' && c !in DELIMITERS
  {
  }

  lemma BlanksAreThese()
    ensures forall c :: Blank(c) <==> c == ' ' || c == '\t'
  {
  }

  /** A name with a hyphen and a tab in front of the value, as the repository's own request has such names. */
  lemma UserAgentKept(max: nat)
    requires max > 0
    ensures Parse("User-Agent:\tx \r\n\r\n", max) == Parsed(0, [Field("User-Agent", "x", 0)], 18)
  {
    hide ParseFrom, PrintLines, PrintLine, WellFormed;
    var w := Header("User-Agent", "\t", "x", " ");
    UserAgentWritten();
    assert "User-Agent:\tx \r\n" + CRLF + "" == "User-Agent:\tx \r\n\r\n";
    RoundTrip([w], "", 0, [], max);
    SpelledStep([], [w], max);
    assert [w][1..] == [];
    SpelledNone([Field("User-Agent", "x", 0)], max);
  }

  lemma UserAgentWritten()
    ensures var w := Header("User-Agent", "\t", "x", " ");
      WellFormed(w) && PrintLines([w]) == "User-Agent:\tx \r\n"
  {
    var w := Header("User-Agent", "\t", "x", " ");
    assert CRLF == ['\r', '\n'];
    assert "User-Agent" + ":" == "User-Agent:" && "User-Agent:" + "\t" == "User-Agent:\t";
    assert "User-Agent:\t" + "x" == "User-Agent:\tx" && "User-Agent:\tx" + " " == "User-Agent:\tx ";
    assert PrintLine(w) == "User-Agent:\tx \r\n";
    assert [w][1..] == [];
    assert PrintLines([w]) == PrintLine(w) + "" == PrintLine(w);
  }

  // ---------------------------------------------------------------- what the verdicts mean

  /** How the bytes behind the lines read so far end the parse, if they do. */
  predicate EndsWith(rest: string, o: Outcome) {
    o.Parsed? && o.readLen <= |rest|
    && if o.ret == 0 then o.readLen >= 3 && rest[o.readLen - 3..o.readLen] == [LF] + CRLF
       else o.ret == 1 && (rest[o.readLen..] == "" || rest[o.readLen..] == [CR])
  }

  lemma EndsWithin(rest: string, n: nat, o: Outcome)
    requires o.Parsed? && o.readLen >= n && n <= |rest| && EndsWith(rest[n..], o.(readLen := o.readLen - n))
    ensures EndsWith(rest, o)
  {
    var m := o.readLen - n;
    assert rest[n..][m..] == rest[o.readLen..];
    if o.ret == 0 {
      assert rest[n..][m - 3..m] == rest[o.readLen - 3..o.readLen];
    }
  }

  lemma BlockStops(rest: string, l: Line, fields: seq<Field>, max: nat, base: nat)
    requires ReadLine(rest) == Some(l) && !MoreLines(rest[l.lf + 1..])
    ensures var next := rest[l.lf + 1..];
      EndsWith(rest, if CRLF <= next then Parsed(0, fields, l.lf + 3) else Parsed(1, fields, l.lf + 1))
  {
    var next := rest[l.lf + 1..];
    assert rest[l.lf] == LF;
    if CRLF <= next {
      assert next[0] == rest[l.lf + 1] && next[1] == rest[l.lf + 2];
      assert rest[l.lf..l.lf + 3] == [LF] + CRLF;
    }
  }

  lemma {:induction false} ParseFromEnds(rest: string, base: nat, fields: seq<Field>, max: nat)
    requires rest != "" && ParseFrom(rest, base, fields, max) != Overrun
    ensures var o := ParseFrom(rest, base, fields, max);
      o.readLen >= base && EndsWith(rest, o.(readLen := o.readLen - base))
    decreases |rest|
  {
    hide ReadLine, Gather, MoreLines, EndsWith;
    ParseLine(rest, base, fields, max);
    var l := ReadLine(rest).value;
    var fs, next := Gather(rest, l, fields, max), rest[l.lf + 1..];
    if MoreLines(next) {
      MoreIsSome(next);
      ParseFromEnds(next, base + l.lf + 1, fs, max);
      var o := ParseFrom(rest, base, fields, max);
      EndsWithin(rest, l.lf + 1, o.(readLen := o.readLen - base));
    } else {
      BlockStops(rest, l, fs, max, base);
    }
  }

  lemma MoreIsSome(next: string)
    requires MoreLines(next)
    ensures next != ""
  {
  }

  /** 0 means that an empty line ends the block at `readLen`; 1 that the data ended first, with at most a CR left. */
  lemma VerdictMeans(d: string, max: nat)
    requires Parse(d, max) != Overrun && d != ""
    ensures EndsWith(d, Parse(d, max))
  {
    hide ParseFrom, EndsWith;
    ParseFromEnds(d, 0, [], max);
  }

  /** Printed lines without the empty line behind them: everything is gathered, and the verdict is 1. */
  lemma {:induction false} BlockUnfinished(ws: seq<Written>, tail: string, base: nat, fields: seq<Field>, max: nat)
    requires ws != [] && (forall w :: w in ws ==> WellFormed(w)) && (tail == "" || tail == [CR])
    ensures ParseFrom(PrintLines(ws) + tail, base, fields, max)
            == Parsed(1, Spelled(fields, ws, max), base + |PrintLines(ws)|)
    decreases |ws|
  {
    hide PrintLine, PrintLines, ReadLine, Gather, ParseFrom, WellFormed, Spelled, SpelledLine;
    var w, rest := ws[0], PrintLines(ws[1..]) + tail;
    LinesSplit(ws, tail);
    GatherWritten(w, rest, fields, max);
    ParseLine(PrintLine(w) + rest, base, fields, max);
    SpelledStep(fields, ws, max);
    if ws[1..] == [] {
      NoLines(tail);
      SpelledNone(SpelledLine(fields, w, max), max);
    } else {
      hide MoreLines;
      BlockUnfinished(ws[1..], tail, base + |PrintLine(w)|, SpelledLine(fields, w, max), max);
      LinesSplit(ws[1..], tail);
      StartsLine(ws[1], PrintLines(ws[1..][1..]) + tail);
    }
  }

  lemma LinesSplit(ws: seq<Written>, tail: string)
    requires ws != []
    ensures PrintLines(ws) + tail == PrintLine(ws[0]) + (PrintLines(ws[1..]) + tail)
    ensures |PrintLines(ws)| == |PrintLine(ws[0])| + |PrintLines(ws[1..])|
  {
  }

  lemma NoLines(tail: string)
    requires tail == "" || tail == [CR]
    ensures PrintLines([]) + tail == tail && |PrintLines([])| == 0 && !MoreLines(tail) && !(CRLF <= tail)
  {
  }

  /** A line of the block starts at `n`, every line before it having been read. */
  predicate LineStarts(rest: string, n: nat)
    decreases |rest|
  {
    || n == 0
    || (ReadLine(rest).Some?
        && var lf := ReadLine(rest).value.lf;
           n > lf && MoreLines(rest[lf + 1..]) && LineStarts(rest[lf + 1..], n - lf - 1))
  }

  lemma LineStartsStep(rest: string, n: nat)
    ensures LineStarts(rest, n) <==>
      || n == 0
      || (ReadLine(rest).Some?
          && var lf := ReadLine(rest).value.lf;
             n > lf && MoreLines(rest[lf + 1..]) && LineStarts(rest[lf + 1..], n - lf - 1))
  {
  }

  lemma Beyond(rest: string, lf: nat, n: nat)
    requires lf < n <= |rest|
    ensures rest[lf + 1..][n - lf - 1..] == rest[n..]
  {
  }

  /** A line starts at `n` that cannot be read. */
  predicate StopsAt(rest: string, n: nat) {
    n <= |rest| && LineStarts(rest, n) && ReadLine(rest[n..]).None?
  }

  ghost predicate Unreadable(rest: string) {
    exists n: nat :: StopsAt(rest, n)
  }

  lemma UnreadableHere(rest: string)
    requires ReadLine(rest).None?
    ensures Unreadable(rest)
  {
    hide ReadLine;
    LineStartsStep(rest, 0);
    assert rest[0..] == rest;
    assert StopsAt(rest, 0);
  }

  lemma StopsLater(rest: string, l: Line, n: nat)
    requires ReadLine(rest) == Some(l)
    ensures StopsAt(rest, n) <==> n > l.lf && MoreLines(rest[l.lf + 1..]) && StopsAt(rest[l.lf + 1..], n - l.lf - 1)
  {
    hide ReadLine, MoreLines, LineStarts;
    LineStartsStep(rest, n);
    if n == 0 {
      assert rest[0..] == rest;
    } else if l.lf < n <= |rest| {
      Beyond(rest, l.lf, n);
    }
  }

  lemma UnreadableLater(rest: string, l: Line)
    requires ReadLine(rest) == Some(l)
    ensures Unreadable(rest) <==> MoreLines(rest[l.lf + 1..]) && Unreadable(rest[l.lf + 1..])
  {
    hide ReadLine, MoreLines, StopsAt;
    var next := rest[l.lf + 1..];
    if Unreadable(rest) {
      var n: nat :| StopsAt(rest, n);
      StopsLater(rest, l, n);
    }
    if MoreLines(next) && Unreadable(next) {
      var m: nat :| StopsAt(next, m);
      StopsLater(rest, l, m + l.lf + 1);
    }
  }

  /** The parser leaves the buffer exactly when it comes to a line it cannot read. */
  lemma {:induction false} BlockOverrunIff(rest: string, base: nat, fields: seq<Field>, max: nat)
    requires rest != ""
    ensures ParseFrom(rest, base, fields, max) == Overrun <==> Unreadable(rest)
    decreases |rest|
  {
    hide ReadLine, Gather, MoreLines, Unreadable, ParseFrom;
    ParseLine(rest, base, fields, max);
    if ReadLine(rest).None? {
      UnreadableHere(rest);
    } else {
      var l := ReadLine(rest).value;
      var next := rest[l.lf + 1..];
      UnreadableLater(rest, l);
      if MoreLines(next) {
        MoreIsSome(next);
        BlockOverrunIff(next, base + l.lf + 1, Gather(rest, l, fields, max), max);
      }
    }
  }
}
