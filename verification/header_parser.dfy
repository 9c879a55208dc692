/** `http_parse_header` on its buffer: the loop that records header spans and folds lines in place. */
module HeaderParser {
  import opened Wrappers
  import opened HttpScan
  import opened Memory
  import opened Headers

  /** `struct http_header`, its pointers as positions in the buffer. `valueLen` is the signed distance
      the parser computes before storing it as a `size_t`. */
  datatype HttpHeader = HttpHeader(name: nat, nameLen: nat, value: nat, valueLen: int)

  function TextStart(h: HttpHeader, f: Field): int {
    h.value - f.debt
  }

  function TextEnd(h: HttpHeader): int {
    h.value + h.valueLen
  }

  /** The spans of `h` hold the field `f`, the name before the text. */
  ghost predicate Shows(b: seq<char>, h: HttpHeader, f: Field) {
    && h.name + h.nameLen < TextStart(h, f) <= TextEnd(h) <= |b|
    && TextEnd(h) == TextStart(h, f) + |f.text|
    && b[h.name..h.name + h.nameLen] == f.name
    && b[TextStart(h, f)..TextEnd(h)] == f.text
  }

  /** What the caller reads: the bytes from `value` on, `valueLen` of them. */
  ghost predicate Returned(b: seq<char>, h: HttpHeader, text: string) {
    0 <= h.valueLen && TextEnd(h) <= |b| && b[h.value..TextEnd(h)] == text
  }

  /** The caller reads the field's text exactly when its value was not blanks only. Else as many bytes are
      missing at its start as there were blanks, and with fewer bytes than that the length is negative. */
  lemma ReturnedIff(b: seq<char>, h: HttpHeader, f: Field)
    requires Shows(b, h, f)
    ensures Returned(b, h, f.text) <==> f.debt == 0
    ensures if f.debt <= |f.text| then Returned(b, h, f.text[f.debt..]) else h.valueLen < 0
  {
    if f.debt <= |f.text| {
      assert b[TextStart(h, f)..TextEnd(h)][f.debt..] == b[h.value..TextEnd(h)];
    }
  }

  /** The headers hold the fields, in order, inside `[lo..hi)` and without overlap. */
  ghost predicate Laid(b: seq<char>, lo: nat, hi: nat, hs: seq<HttpHeader>, fs: seq<Field>) {
    && hi <= |b| && |hs| == |fs|
    && (forall i :: 0 <= i < |hs| ==> Shows(b, hs[i], fs[i]))
    && (forall i :: 0 <= i < |hs| ==> lo <= hs[i].name && TextEnd(hs[i]) <= hi)
    && (forall i, j :: 0 <= i < j < |hs| ==> TextEnd(hs[i]) <= hs[j].name)
  }

  lemma LaidAdd(b: seq<char>, lo: nat, mid: nat, hi: nat, hs: seq<HttpHeader>, fs: seq<Field>, h: HttpHeader, f: Field)
    requires Laid(b, lo, mid, hs, fs) && Shows(b, h, f)
    requires lo <= mid <= h.name && mid <= hi && TextEnd(h) <= hi <= |b|
    ensures Laid(b, lo, hi, hs + [h], fs + [f])
  {
    hide Shows;
  }

  lemma LaidWiden(b: seq<char>, lo: nat, mid: nat, hi: nat, hs: seq<HttpHeader>, fs: seq<Field>)
    requires Laid(b, lo, mid, hs, fs) && mid <= hi <= |b|
    ensures Laid(b, lo, hi, hs, fs)
  {
    hide Shows;
  }

  lemma ShowsKept(b: seq<char>, c: seq<char>, h: HttpHeader, f: Field, x: nat, y: nat)
    requires Shows(b, h, f) && Outside(c, b, x, y) && TextEnd(h) <= x
    ensures Shows(c, h, f)
  {
    assert c[h.name..h.name + h.nameLen] == b[h.name..h.name + h.nameLen];
    assert c[TextStart(h, f)..TextEnd(h)] == b[TextStart(h, f)..TextEnd(h)];
  }

  lemma ShowsGrown(b: seq<char>, c: seq<char>, h: HttpHeader, f: Field, src: nat, n: nat)
    requires Shows(b, h, f) && Moved(c, b, TextEnd(h), src, n)
    ensures Shows(c, h.(valueLen := h.valueLen + n), f.(text := f.text + b[src..src + n]))
  {
    var s, e := TextStart(h, f), TextEnd(h);
    assert c[h.name..h.name + h.nameLen] == b[h.name..h.name + h.nameLen];
    assert c[s..e] == b[s..e];
    assert c[s..e + n] == c[s..e] + c[e..e + n];
  }

  lemma MovedRange(b: seq<char>, c: seq<char>, h: HttpHeader, f: Field, src: nat, n: nat)
    requires Shows(b, h, f) && Moved(c, b, TextEnd(h), src, n)
    ensures |c| == |b| && Outside(c, b, TextEnd(h), TextEnd(h) + n)
  {
  }

  lemma NameBeforeEnd(b: seq<char>, h: HttpHeader, f: Field)
    requires Shows(b, h, f)
    ensures h.name < TextEnd(h)
  {
  }

  /** Folding: the last field grows over what lies behind it; no other span is touched. */
  lemma LaidFold(b: seq<char>, c: seq<char>, lo: nat, mid: nat, hi: nat, hs: seq<HttpHeader>, fs: seq<Field>,
                 src: nat, n: nat)
    requires Laid(b, lo, mid, hs, fs) && |hs| > 0 && mid <= src && src + n <= hi <= |b|
    requires Moved(c, b, TextEnd(hs[|hs| - 1]), src, n)
    ensures var h := hs[|hs| - 1];
            Laid(c, lo, hi, hs[|hs| - 1 := h.(valueLen := h.valueLen + n)], Folded(fs, b[src..src + n]))
  {
    hide Shows, Moved, Outside;
    var k := |hs| - 1;
    var h, f := hs[k], fs[k];
    ShowsGrown(b, c, h, f, src, n);
    MovedRange(b, c, h, f, src, n);
    forall i | 0 <= i < k ensures Shows(c, hs[i], fs[i]) {
      NameBeforeEnd(b, h, f);
      ShowsKept(b, c, hs[i], fs[i], TextEnd(h), TextEnd(h) + n);
    }
  }

  // ---------------------------------------------------------------- where the loop stands

  /** Before the line at offset `p1` of the window: what the parser still owes is what it would make of
      the untouched rest, with the fields so far laid out before it. */
  ghost predicate Progress(b: seq<char>, b0: seq<char>, data: nat, dataLen: nat, max: nat,
                           p1: nat, hs: seq<HttpHeader>, fs: seq<Field>)
  {
    && data + dataLen <= |b0| && p1 < dataLen && |fs| <= max
    && Outside(b, b0, data, data + p1)
    && Laid(b, data, data + p1, hs, fs)
    && var d := b0[data..data + dataLen];
    && Parse(d, max) == ParseFrom(d[p1..], p1, fs, max) != Overrun
  }

  /** Just past a line, `n` bytes into the window. */
  ghost predicate AfterLine(b: seq<char>, b0: seq<char>, data: nat, dataLen: nat, max: nat,
                            n: nat, hs: seq<HttpHeader>, fs: seq<Field>)
  {
    && data + dataLen <= |b0| && n <= dataLen && |fs| <= max
    && Outside(b, b0, data, data + n)
    && Laid(b, data, data + n, hs, fs)
    && var d := b0[data..data + dataLen];
    && Parse(d, max) != Overrun
    && Parse(d, max) == if MoreLines(d[n..]) then ParseFrom(d[n..], n, fs, max)
                        else if CRLF <= d[n..] then Parsed(0, fs, n + 2)
                        else Parsed(1, fs, n)
  }

  /** What the parser owes its caller: the verdict and fields for the bytes it was given, their spans
      laid out in order inside what it read, and nothing rewritten beyond it. */
  ghost predicate Done(b: seq<char>, b0: seq<char>, data: nat, dataLen: nat, max: nat,
                       ret: int, hs: seq<HttpHeader>, readLen: nat)
  {
    && data + dataLen <= |b0| && readLen <= dataLen
    && Outside(b, b0, data, data + readLen)
    && var o := Parse(b0[data..data + dataLen], max);
    && o.Parsed? && o == Parsed(ret, o.fields, readLen)
    && Laid(b, data, data + readLen, hs, o.fields)
  }

  lemma ProgressStart(b: seq<char>, data: nat, dataLen: nat, max: nat)
    requires data + dataLen <= |b| && Parse(b[data..data + dataLen], max) != Overrun
    ensures dataLen > 0 ==> Progress(b, b, data, dataLen, max, 0, [], [])
    ensures dataLen == 0 ==> Done(b, b, data, dataLen, max, 1, [], 0)
  {
    hide ParseFrom;
    assert b[data..data + dataLen][0..] == b[data..data + dataLen];
  }

  /** The line to come is as it was given, and the scan for it stays inside the buffer. */
  lemma ProgressRest(b: seq<char>, b0: seq<char>, data: nat, dataLen: nat, max: nat,
                     p1: nat, hs: seq<HttpHeader>, fs: seq<Field>)
    requires Progress(b, b0, data, dataLen, max, p1, hs, fs)
    ensures |b| == |b0| && |hs| == |fs| <= max && data + p1 < data + dataLen <= |b|
    ensures b[data + p1..data + dataLen] == b0[data..data + dataLen][p1..]
    ensures ReadLine(b[data + p1..data + dataLen]).Some?
  {
    var rest, d := b[data + p1..data + dataLen], b0[data..data + dataLen][p1..];
    assert forall k :: 0 <= k < dataLen - p1 ==> rest[k] == b[data + p1 + k] && d[k] == b0[data + p1 + k];
    hide ReadLine, Gather, Laid;
    ParseLine(d, p1, fs, max);
  }

  lemma ProgressLine(b: seq<char>, c: seq<char>, b0: seq<char>, data: nat, dataLen: nat, max: nat,
                     p1: nat, hs: seq<HttpHeader>, fs: seq<Field>, l: Line, hs': seq<HttpHeader>)
    requires Progress(b, b0, data, dataLen, max, p1, hs, fs) && |c| == |b| == |b0|
    requires var rest := b0[data..data + dataLen][p1..];
             ReadLine(rest) == Some(l) && |Gather(rest, l, fs, max)| <= max
             && Laid(c, data, data + p1 + l.lf + 1, hs', Gather(rest, l, fs, max))
    requires Outside(c, b0, data, data + p1 + l.lf + 1)
    ensures AfterLine(c, b0, data, dataLen, max, p1 + l.lf + 1, hs', Gather(b0[data..data + dataLen][p1..], l, fs, max))
  {
    hide ReadLine, Gather, Laid, Outside, ParseFrom, Parse, MoreLines;
    var d := b0[data..data + dataLen];
    ParseLine(d[p1..], p1, fs, max);
    assert d[p1..][l.lf + 1..] == d[p1 + l.lf + 1..];
  }

  lemma AfterLineNext(b: seq<char>, b0: seq<char>, data: nat, dataLen: nat, max: nat,
                      n: nat, hs: seq<HttpHeader>, fs: seq<Field>)
    requires AfterLine(b, b0, data, dataLen, max, n, hs, fs)
    ensures |b| == |b0| && n <= dataLen && data + dataLen <= |b|
    ensures n == dataLen || (n + 1 == dataLen && b[data + n] == CR) ==> Done(b, b0, data, dataLen, max, 1, hs, n)
    ensures n + 1 < dataLen && b[data + n] == CR && b[data + n + 1] == LF ==>
              Done(b, b0, data, dataLen, max, 0, hs, n + 2)
    ensures n < dataLen && (b[data + n] != CR || (n + 1 < dataLen && b[data + n + 1] != LF)) ==>
              Progress(b, b0, data, dataLen, max, n, hs, fs)
  {
    hide Parse, ParseFrom, Laid;
    var next := b0[data..data + dataLen][n..];
    NextBytes(b, b0, data, dataLen, n);
    StartsWith(next);
    if n + 1 < dataLen && next[0] == CR && next[1] == LF {
      LaidWiden(b, data, data + n, data + n + 2, hs, fs);
    }
  }

  lemma NextBytes(b: seq<char>, b0: seq<char>, data: nat, dataLen: nat, n: nat)
    requires data + dataLen <= |b0| && n <= dataLen && Outside(b, b0, data, data + n)
    ensures var next := b0[data..data + dataLen][n..];
            && |next| == dataLen - n
            && (n < dataLen ==> next[0] == b[data + n])
            && (n + 1 < dataLen ==> next[1] == b[data + n + 1])
  {
  }

  lemma StartsWith(next: string)
    ensures CRLF <= next <==> |next| >= 2 && next[0] == CR && next[1] == LF
    ensures MoreLines(next) <==> next != "" && (next[0] != CR || (|next| >= 2 && next[1] != LF))
  {
    if |next| >= 2 && next[0] == CR && next[1] == LF {
      assert next[..2] == CRLF;
    }
    if |next| == 1 && next[0] == CR { assert next == [CR]; }
  }

  // ---------------------------------------------------------------- the loops

  lemma FirstColonStep(rest: string, k: nat)
    requires k < |rest|
    ensures FirstIndex(rest, ':', k) == if rest[k] == ':' then k else FirstIndex(rest, ':', k + 1)
  {
  }

  lemma FindLineStep(d: string, p: nat)
    requires p < |d| && FindLine(d, p).At?
    ensures d[p] != CR ==> FindLine(d, p) == FindLine(d, p + 1)
    ensures d[p] == CR ==> p + 1 < |d| && FindLine(d, p) == if d[p + 1] == LF then At(p + 1) else FindLine(d, p + 2)
  {
  }

  lemma AllTokenStep(rest: string, k: nat)
    requires k < |rest|
    ensures AllToken(rest[..k + 1]) <==> AllToken(rest[..k]) && IsToken(rest[k])
  {
    assert rest[..k + 1] == rest[..k] + [rest[k]];
  }

  lemma LineScans(rest: string)
    requires ReadLine(rest).Some?
    ensures var l := ReadLine(rest).value;
            FirstIndex(rest, ':', 0) == l.colon < |rest| && FindLine(rest, l.colon) == At(l.lf)
  {
  }

  /** The two scans of one line: to its first ':', noting whether all before it are token characters,
      then to its line end. Neither checks for the end of the buffer. */
  method ScanLine(rest: string) returns (isToken: bool, p2: nat, p3: nat)
    requires ReadLine(rest).Some?
    ensures ReadLine(rest) == Some(Line(p2, p3))
    ensures isToken == AllToken(rest[..p2])
  {
    hide ReadLine, FirstIndex, FindLine, AllToken, IsToken;
    ghost var l := ReadLine(rest).value;
    LineScans(rest);
    var t := 0;
    isToken := true;
    AllTokenNone(rest);
    while true
      invariant t <= l.colon && FirstIndex(rest, ':', t) == l.colon
      invariant isToken == AllToken(rest[..t])
      decreases l.colon - t
    {
      FirstColonStep(rest, t);
      AllTokenStep(rest, t);
      ColonNoToken();
      if !IsToken(rest[t]) {
        if rest[t] == ':' {
          p2 := t;
          break;
        } else {
          isToken := false;
        }
      }
      t := t + 1;
    }
    while true
      invariant p2 <= t <= l.lf && FindLine(rest, t) == At(l.lf)
      decreases l.lf - t
    {
      FindLineStep(rest, t);
      if rest[t] == CR {
        t := t + 1;
        if rest[t] == LF {
          p3 := t;
          break;
        }
      }
      t := t + 1;
    }
  }

  lemma AllTokenNone(rest: string)
    ensures AllToken(rest[..0])
  {
  }

  lemma ColonNoToken()
    ensures !IsToken(':')
  {
  }

  /** The value between the blanks: from the first non-blank after the ':' to the last before the CR. */
  method ValueSpan(rest: string, p2: nat, p3: nat) returns (value: nat, valueLen: int)
    requires ReadLine(rest) == Some(Line(p2, p3))
    ensures value == ValueStart(rest, Line(p2, p3)) && value + valueLen == ValueEnd(rest, Line(p2, p3))
  {
    hide ReadLine;
    var t := p2 + 1;
    while rest[t] == ' ' || rest[t] == '\t'
      invariant p2 < t < p3 && SkipBlanks(rest, t) == SkipBlanks(rest, p2 + 1)
      decreases p3 - t
    {
      t := t + 1;
    }
    value := t;
    t := p3 - 2;
    while rest[t] == ' ' || rest[t] == '\t'
      invariant p2 <= t < p3 - 1 && LastNonBlank(rest, p2, t) == LastNonBlank(rest, p2, p3 - 2)
      decreases t
    {
      t := t - 1;
    }
    valueLen := t + 1 - value;
  }

  /** The spans of the header on a line that starts at `at` show the field it spells. */
  lemma HeaderShown(b: seq<char>, at: nat, end: nat, l: Line)
    requires at <= end <= |b| && ReadLine(b[at..end]) == Some(l)
    ensures var rest := b[at..end];
            var v, e := ValueStart(rest, l), ValueEnd(rest, l);
            Shows(b, HttpHeader(at, l.colon, at + v, e - v), FieldOf(rest, l))
            && at + e <= at + l.lf
  {
    hide ReadLine;
    var rest := b[at..end];
    var v, e := ValueStart(rest, l), ValueEnd(rest, l);
    SliceOfSlice(b, at, end, 0, l.colon);
    assert rest[0..l.colon] == rest[..l.colon];
    if v <= e { SliceOfSlice(b, at, end, v, e); }
  }

  /** The line to come, read at offset `p1`. */
  ghost predicate LineAt(b0: seq<char>, data: nat, dataLen: nat, p1: nat, rest: string, l: Line) {
    && data + dataLen <= |b0| && p1 <= dataLen
    && rest == b0[data..data + dataLen][p1..] && ReadLine(rest) == Some(l)
  }

  lemma ProgressParts(b: seq<char>, b0: seq<char>, data: nat, dataLen: nat, max: nat, p1: nat,
                      hs: seq<HttpHeader>, fs: seq<Field>, rest: string, l: Line)
    requires Progress(b, b0, data, dataLen, max, p1, hs, fs) && LineAt(b0, data, dataLen, p1, rest, l)
    ensures |b| == |b0| && |fs| <= max && data + p1 + l.lf < data + dataLen <= |b|
    ensures Laid(b, data, data + p1, hs, fs) && Outside(b, b0, data, data + p1)
    ensures Outside(b, b0, data, data + p1 + l.lf + 1)
    ensures b[data + p1..data + dataLen] == rest
  {
    ProgressRest(b, b0, data, dataLen, max, p1, hs, fs);
    hide Laid, Parse, ParseFrom, ReadLine;
  }

  lemma LineAdded(b: seq<char>, b0: seq<char>, data: nat, dataLen: nat, max: nat, p1: nat,
                  hs: seq<HttpHeader>, fs: seq<Field>, rest: string, l: Line)
    requires Progress(b, b0, data, dataLen, max, p1, hs, fs) && LineAt(b0, data, dataLen, p1, rest, l)
    requires !Blank(rest[0]) && AllToken(rest[..l.colon]) && |fs| < max
    ensures var v, e := ValueStart(rest, l), ValueEnd(rest, l);
            AfterLine(b, b0, data, dataLen, max, p1 + l.lf + 1,
                      hs + [HttpHeader(data + p1, l.colon, data + p1 + v, e - v)], Gather(rest, l, fs, max))
  {
    hide ReadLine, ValueStart, ValueEnd, AllToken, Shows, Progress, AfterLine, FieldOf, Laid, Outside;
    ProgressParts(b, b0, data, dataLen, max, p1, hs, fs, rest, l);
    var v: int, e: int := ValueStart(rest, l), ValueEnd(rest, l);
    var h := HttpHeader(data + p1, l.colon, data + p1 + v, e - v);
    HeaderShown(b, data + p1, data + dataLen, l);
    LaidAdd(b, data, data + p1, data + p1 + l.lf + 1, hs, fs, h, FieldOf(rest, l));
    ProgressLine(b, b, b0, data, dataLen, max, p1, hs, fs, l, hs + [h]);
  }

  lemma LinePassed(b: seq<char>, b0: seq<char>, data: nat, dataLen: nat, max: nat, p1: nat,
                   hs: seq<HttpHeader>, fs: seq<Field>, rest: string, l: Line)
    requires Progress(b, b0, data, dataLen, max, p1, hs, fs) && LineAt(b0, data, dataLen, p1, rest, l)
    requires if Blank(rest[0]) then fs == [] else !(AllToken(rest[..l.colon]) && |fs| < max)
    ensures AfterLine(b, b0, data, dataLen, max, p1 + l.lf + 1, hs, Gather(rest, l, fs, max))
  {
    hide ReadLine, Progress, AfterLine, Laid, Outside, AllToken;
    ProgressParts(b, b0, data, dataLen, max, p1, hs, fs, rest, l);
    LaidWiden(b, data, data + p1, data + p1 + l.lf + 1, hs, fs);
    ProgressLine(b, b, b0, data, dataLen, max, p1, hs, fs, l, hs);
  }

  /** A fold's bytes move to the end of the last value: they come from this line, before its CR, and go
      no further than where they came from, so the CR and all behind it stay as they were. */
  lemma LineFolded(b: seq<char>, c: seq<char>, b0: seq<char>, data: nat, dataLen: nat, max: nat, p1: nat,
                   hs: seq<HttpHeader>, fs: seq<Field>, rest: string, l: Line)
    requires Progress(b, b0, data, dataLen, max, p1, hs, fs) && LineAt(b0, data, dataLen, p1, rest, l)
    requires Blank(rest[0]) && |hs| > 0
    requires Moved(c, b, TextEnd(hs[|hs| - 1]), data + p1 + 1, l.lf - 2)
    ensures var h := hs[|hs| - 1];
            && TextEnd(h) + (l.lf - 2) <= data + p1 + l.lf - 1
            && AfterLine(c, b0, data, dataLen, max, p1 + l.lf + 1,
                         hs[|hs| - 1 := h.(valueLen := h.valueLen + (l.lf - 2))], Gather(rest, l, fs, max))
  {
    hide ReadLine, Progress, AfterLine, Laid, Shows, Outside, Moved;
    ProgressParts(b, b0, data, dataLen, max, p1, hs, fs, rest, l);
    var n, src, k := l.lf - 2, data + p1 + 1, |hs| - 1;
    var hs' := hs[k := hs[k].(valueLen := hs[k].valueLen + n)];
    LastShown(b, data, data + p1, hs, fs);
    SliceOfSlice(b, data + p1, data + dataLen, 1, l.lf - 1);
    LaidFold(b, c, data, data + p1, data + p1 + l.lf + 1, hs, fs, src, n);
    MovedRange(b, c, hs[k], fs[k], src, n);
    OutsideBoth(b, c, b0, data, data + p1, TextEnd(hs[k]), n, data + p1 + l.lf + 1);
    OutsideLength(c, b0, data, data + p1 + l.lf + 1);
    ProgressLine(b, c, b0, data, dataLen, max, p1, hs, fs, l, hs');
  }

  lemma SliceOfSlice(b: seq<char>, x: nat, y: nat, i: nat, j: nat)
    requires i <= j && x + j <= y <= |b|
    ensures b[x..y][i..j] == b[x + i..x + j]
  {
    assert forall k :: 0 <= k < j - i ==> b[x..y][i..j][k] == b[x + i + k] == b[x + i..x + j][k];
  }

  lemma LastShown(b: seq<char>, lo: nat, hi: nat, hs: seq<HttpHeader>, fs: seq<Field>)
    requires Laid(b, lo, hi, hs, fs) && |hs| > 0
    ensures |fs| == |hs| && Shows(b, hs[|hs| - 1], fs[|hs| - 1]) && lo <= TextEnd(hs[|hs| - 1]) <= hi
  {
  }

  lemma OutsideLength(c: seq<char>, b: seq<char>, lo: nat, hi: nat)
    requires Outside(c, b, lo, hi)
    ensures |c| == |b|
  {
  }

  lemma OutsideBoth(b: seq<char>, c: seq<char>, b0: seq<char>, lo: nat, mid: nat, e: nat, n: nat, hi: nat)
    requires Outside(b, b0, lo, mid) && Outside(c, b, e, e + n) && lo <= e && mid <= hi && e + n <= hi
    ensures Outside(c, b0, lo, hi)
  {
  }

  /** The loop condition holds while there is a line to come; when the cursor is at the end the verdict
      is 1. The cursor stands one past a CR that did not end the block. */
  ghost predicate LoopState(b: seq<char>, b0: seq<char>, data: nat, dataLen: nat, max: nat, p: nat, p1: nat,
                            hs: seq<HttpHeader>, fs: seq<Field>, readLen: nat)
  {
    p1 <= p <= dataLen
    && if p == dataLen then Done(b, b0, data, dataLen, max, 1, hs, readLen)
       else Progress(b, b0, data, dataLen, max, p1, hs, fs)
  }

  lemma LoopNext(b: seq<char>, b0: seq<char>, data: nat, dataLen: nat, max: nat, t: nat, p1: nat,
                 hs: seq<HttpHeader>, fs: seq<Field>)
    requires AfterLine(b, b0, data, dataLen, max, t, hs, fs) && p1 <= t
    ensures t <= dataLen && data + dataLen <= |b|
    ensures t == dataLen ==> LoopState(b, b0, data, dataLen, max, t, p1, hs, fs, t)
    ensures t < dataLen && b[data + t] != CR ==> LoopState(b, b0, data, dataLen, max, t, t, hs, fs, t)
    ensures t < dataLen && b[data + t] == CR ==>
              if t + 1 < dataLen && b[data + t + 1] == LF then Done(b, b0, data, dataLen, max, 0, hs, t + 2)
              else LoopState(b, b0, data, dataLen, max, t + 1, t, hs, fs, t)
  {
    hide AfterLine, Done, Progress;
    AfterLineNext(b, b0, data, dataLen, max, t, hs, fs);
  }

  /** What one scanned line adds: a header, a fold onto the last header, or nothing. */
  method RecordLine(buf: array<char>, data: nat, p1: nat, rest: string, isToken: bool, p2: nat, p3: nat,
                    headers: array<HttpHeader>, maxHeader: nat, i: nat,
                    ghost b0: seq<char>, ghost dataLen: nat, ghost fs: seq<Field>)
    returns (n: nat)
    requires i <= maxHeader <= headers.Length
    requires Progress(buf[..], b0, data, dataLen, maxHeader, p1, headers[..i], fs)
    requires LineAt(b0, data, dataLen, p1, rest, Line(p2, p3)) && isToken == AllToken(rest[..p2])
    modifies buf, headers
    ensures n <= maxHeader
    ensures AfterLine(buf[..], b0, data, dataLen, maxHeader, p1 + p3 + 1, headers[..n],
                      Gather(rest, Line(p2, p3), fs, maxHeader))
  {
    hide ReadLine, Gather, Progress, AfterLine, Laid, Outside, Moved, AllToken, ValueStart, ValueEnd;
    ghost var b, hs, l := buf[..], headers[..i], Line(p2, p3);
    ProgressParts(b, b0, data, dataLen, maxHeader, p1, hs, fs, rest, l);
    LaidCount(b, data, data + p1, hs, fs);
    n := i;
    if rest[0] != ' ' && rest[0] != '\t' {
      if isToken && i < maxHeader {
        var value, valueLen := ValueSpan(rest, p2, p3);
        LineAdded(b, b0, data, dataLen, maxHeader, p1, hs, fs, rest, l);
        headers[i] := HttpHeader(data + p1, p2, data + p1 + value, valueLen);
        n := i + 1;
        assert headers[..n] == hs + [headers[i]];
      } else {
        LinePassed(b, b0, data, dataLen, maxHeader, p1, hs, fs, rest, l);
      }
    } else if i > 0 {
      var t := data + p1 + 1;
      var len := data + p1 + p3 - t - 1;
      if len > 0 {
        var h := headers[i - 1];
        FoldRoom(b, b0, data, dataLen, maxHeader, p1, hs, fs, rest, l);
        MemMove(buf, h.value + h.valueLen, t, len);
        LineFolded(b, buf[..], b0, data, dataLen, maxHeader, p1, hs, fs, rest, l);
        headers[i - 1] := h.(valueLen := h.valueLen + len);
        assert headers[..i] == hs[i - 1 := headers[i - 1]];
      }
    } else {
      LinePassed(b, b0, data, dataLen, maxHeader, p1, hs, fs, rest, l);
    }
  }

  lemma LaidCount(b: seq<char>, lo: nat, hi: nat, hs: seq<HttpHeader>, fs: seq<Field>)
    requires Laid(b, lo, hi, hs, fs)
    ensures |hs| == |fs|
  {
  }

  /** `http_parse_header` on `buf[data..data + dataLen]`. */
  method HttpParseHeader(buf: array<char>, data: nat, dataLen: nat, headers: array<HttpHeader>, maxHeader: nat)
    returns (ret: int, nheader: nat, readLen: nat)
    requires data + dataLen <= buf.Length && maxHeader <= headers.Length
    requires Parse(buf[..][data..data + dataLen], maxHeader) != Overrun
    modifies buf, headers
    ensures nheader <= maxHeader
    ensures Done(buf[..], old(buf[..]), data, dataLen, maxHeader, ret, headers[..nheader], readLen)
  {
    hide Parse, ReadLine, Gather, Progress, AfterLine, Done, AllToken, LoopState;
    ghost var b0 := buf[..];
    ghost var fs: seq<Field> := [];
    nheader, readLen := 0, 0;
    var p, p1 := 0, 0;
    LoopStart(b0, data, dataLen, maxHeader);
    assert headers[..0] == [];
    while p != dataLen
      invariant nheader <= maxHeader && p1 <= p <= dataLen
      invariant LoopState(buf[..], b0, data, dataLen, maxHeader, p, p1, headers[..nheader], fs, readLen)
      decreases dataLen - p1, dataLen - p
    {
      LoopProgress(buf[..], b0, data, dataLen, maxHeader, p, p1, headers[..nheader], fs, readLen);
      ProgressRest(buf[..], b0, data, dataLen, maxHeader, p1, headers[..nheader], fs);
      var rest := buf[data + p1..data + dataLen];
      var isToken, p2, p3 := ScanLine(rest);
      nheader := RecordLine(buf, data, p1, rest, isToken, p2, p3, headers, maxHeader, nheader, b0, dataLen, fs);
      fs := Gather(rest, Line(p2, p3), fs, maxHeader);
      p := p1 + p3 + 1;
      var t := p;
      readLen := t;
      LoopNext(buf[..], b0, data, dataLen, maxHeader, t, p1, headers[..nheader], fs);
      if t != dataLen {
        if buf[data + t] == CR {
          p := p + 1;
          if p != dataLen && buf[data + p] == LF {
            readLen := p + 1;
            return 0, nheader, readLen;
          }
        }
        p1 := t;
      }
    }
    LoopEnd(buf[..], b0, data, dataLen, maxHeader, p1, headers[..nheader], fs, readLen);
    ret := 1;
  }

  lemma LoopStart(b: seq<char>, data: nat, dataLen: nat, max: nat)
    requires data + dataLen <= |b| && Parse(b[data..data + dataLen], max) != Overrun
    ensures LoopState(b, b, data, dataLen, max, 0, 0, [], [], 0)
  {
    hide Progress, Done, Parse;
    ProgressStart(b, data, dataLen, max);
  }

  lemma LoopProgress(b: seq<char>, b0: seq<char>, data: nat, dataLen: nat, max: nat, p: nat, p1: nat,
                     hs: seq<HttpHeader>, fs: seq<Field>, readLen: nat)
    requires LoopState(b, b0, data, dataLen, max, p, p1, hs, fs, readLen) && p != dataLen
    ensures Progress(b, b0, data, dataLen, max, p1, hs, fs)
  {
  }

  lemma LoopEnd(b: seq<char>, b0: seq<char>, data: nat, dataLen: nat, max: nat, p1: nat,
                hs: seq<HttpHeader>, fs: seq<Field>, readLen: nat)
    requires LoopState(b, b0, data, dataLen, max, dataLen, p1, hs, fs, readLen)
    ensures Done(b, b0, data, dataLen, max, 1, hs, readLen)
  {
  }

  lemma FoldRoom(b: seq<char>, b0: seq<char>, data: nat, dataLen: nat, max: nat, p1: nat,
                 hs: seq<HttpHeader>, fs: seq<Field>, rest: string, l: Line)
    requires Progress(b, b0, data, dataLen, max, p1, hs, fs) && LineAt(b0, data, dataLen, p1, rest, l)
    requires |hs| > 0
    ensures data <= TextEnd(hs[|hs| - 1]) <= data + p1 && data + p1 + l.lf < data + dataLen <= |b|
  {
    hide ReadLine, Progress, Laid, Outside;
    ProgressParts(b, b0, data, dataLen, max, p1, hs, fs, rest, l);
    LastShown(b, data, data + p1, hs, fs);
  }
}
