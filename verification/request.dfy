/** `http_parse_request`: request line, headers and body of one buffer. */
module Request {
  import opened HttpScan
  import opened Memory
  import opened HeaderParser
  import RequestLine
  import Headers
  import HeadersLaws

  /** The scans of both parsers stay inside the buffer. */
  predicate Scannable(d: string, max: nat) {
    var line := RequestLine.Parse(d);
    !line.Overrun? && (line.Parsed? ==> !Headers.Parse(d[line.readLen..], max).Overrun?)
  }

  /** What the request in `b0[..dataLen]` gives: `ok` is that neither `assert(ret == 0)` fires. */
  ghost predicate RequestDone(b: seq<char>, b0: seq<char>, dataLen: nat, max: nat, ok: bool,
                              methodLen: nat, path: nat, pathLen: nat, minor: int,
                              hs: seq<HttpHeader>, bodyLen: nat, readLen: nat)
  {
    && dataLen <= |b0|
    && var d := b0[..dataLen];
    && var line := RequestLine.Parse(d);
    && if !line.Parsed? then !ok
       else
         var fields := Headers.Parse(d[line.readLen..], max);
         && (ok <==> fields.Parsed? && fields.ret == 0)
         && (ok ==>
               && line == RequestLine.Parsed(methodLen, pathLen, minor, line.readLen) && path == methodLen + 1
               && readLen == line.readLen + fields.readLen && readLen + bodyLen == dataLen
               && Laid(b, line.readLen, readLen, hs, fields.fields)
               && Outside(b, b0, line.readLen, readLen))
  }

  /** `http_parse_request` on `buf[..dataLen]`; the body, when there is one, starts at `readLen`. */
  method HttpParseRequest(buf: array<char>, dataLen: nat, headers: array<HttpHeader>, maxHeader: nat)
    returns (ok: bool, methodLen: nat, path: nat, pathLen: nat, minorVersion: int,
             nheader: nat, body: nat, bodyLen: nat, readLen: nat)
    requires dataLen <= buf.Length && maxHeader <= headers.Length
    requires Scannable(buf[..][..dataLen], maxHeader)
    modifies buf, headers
    ensures nheader <= maxHeader
    ensures RequestDone(buf[..], old(buf[..]), dataLen, maxHeader, ok, methodLen, path, pathLen, minorVersion,
                        headers[..nheader], bodyLen, readLen)
    ensures ok && bodyLen > 0 ==> body == readLen
  {
    hide RequestLine.Parse, Headers.Parse, Laid, Outside;
    ghost var b0 := buf[..];
    nheader, body, bodyLen, readLen := 0, 0, 0, 0;
    var ret, len;
    assert buf[..dataLen] == b0[..dataLen];
    ret, methodLen, path, pathLen, minorVersion, len := RequestLine.HttpParseRequestLine(buf[..dataLen]);
    if ret != 0 {
      return false, methodLen, path, pathLen, minorVersion, nheader, body, bodyLen, readLen;
    }
    readLen := readLen + len;
    assert b0[readLen..readLen + (dataLen - readLen)] == b0[..dataLen][readLen..];
    ret, nheader, len := HttpParseHeader(buf, readLen, dataLen - readLen, headers, maxHeader);
    if ret != 0 {
      return false, methodLen, path, pathLen, minorVersion, nheader, body, bodyLen, readLen;
    }
    readLen := readLen + len;
    bodyLen := 0;
    if readLen < dataLen {
      body := readLen;
      bodyLen := dataLen - readLen;
    }
    ok := true;
  }

  /** A request as written: the line, the header lines, the empty line and the body. */
  function Print(m: string, path: string, minor: char, ws: seq<Headers.Written>, body: string): string {
    RequestLine.Print(m, path, minor) + (Headers.PrintLines(ws) + CRLF + body)
  }

  /** `d` is a printed request, and its parts have the printable form. */
  ghost predicate Printed(d: string, m: string, path: string, minor: char, ws: seq<Headers.Written>, body: string) {
    && RequestLine.SpaceFree(m) && RequestLine.SpaceFree(path) && minor != CR
    && ws != [] && (forall w :: w in ws ==> Headers.WellFormed(w))
    && d == Print(m, path, minor, ws, body)
  }

  lemma PrintSplits(d: string, m: string, path: string, minor: char, ws: seq<Headers.Written>, body: string)
    requires Printed(d, m, path, minor, ws, body)
    ensures var k := |m| + 1 + |path| + 11;
            var e := k + |Headers.PrintLines(ws)| + 2;
            && |RequestLine.Print(m, path, minor)| == k && |d| == e + |body|
            && d[k..] == Headers.PrintLines(ws) + CRLF + body
            && d[0..|m|] == m && d[|m| + 1..|m| + 1 + |path|] == path && d[e..|d|] == body
  {
    RequestLine.PrintedSplits(m, path, minor, Headers.PrintLines(ws) + CRLF + body);
    hide RequestLine.Print, Headers.WellFormed;
  }

  lemma PrintParses(d: string, m: string, path: string, minor: char, ws: seq<Headers.Written>, body: string, max: nat)
    requires Printed(d, m, path, minor, ws, body)
    ensures var k := |m| + 1 + |path| + 11;
            && RequestLine.Parse(d) == RequestLine.Parsed(|m|, |path|, minor as int - '0' as int, k) && k <= |d|
            && Headers.Parse(d[k..], max)
               == Headers.Parsed(0, Headers.Spelled([], ws, max), |Headers.PrintLines(ws)| + 2)
  {
    PrintSplits(d, m, path, minor, ws, body);
    var rest := Headers.PrintLines(ws) + CRLF + body;
    RequestLine.ParsePrinted(m, path, minor, rest);
    hide RequestLine.Parse, RequestLine.Print, Headers.ParseFrom, Headers.PrintLines, Headers.Spelled;
    HeadersLaws.RoundTrip(ws, body, 0, [], max);
  }

  /** No scan of a printed request leaves the buffer. */
  lemma PrintedScannable(d: string, m: string, path: string, minor: char, ws: seq<Headers.Written>, body: string,
                         max: nat)
    requires Printed(d, m, path, minor, ws, body)
    ensures Scannable(d, max)
  {
    hide Printed, RequestLine.Parse, Headers.Parse, Headers.Spelled, Headers.PrintLines;
    PrintParses(d, m, path, minor, ws, body, max);
  }

  /** What the caller reads of header `i`: the name its line gives and, exactly when the line's value is not
      blanks only, the value with its continuations; else all but the first bytes of them. */
  ghost predicate Reads(b: seq<char>, h: HttpHeader, f: Headers.Field, line: Headers.Written)
    requires line.Header?
  {
    && Shows(b, h, f) && b[h.name..h.name + h.nameLen] == line.name
    && (Returned(b, h, f.text) <==> Headers.BlanksOnly(line) == 0)
    && (Headers.BlanksOnly(line) <= |f.text| ==> Returned(b, h, f.text[Headers.BlanksOnly(line)..]))
  }

  lemma LaidReads(b: seq<char>, lo: nat, hi: nat, hs: seq<HttpHeader>, ws: seq<Headers.Written>, max: nat)
    requires Laid(b, lo, hi, hs, Headers.Spelled([], ws, max))
    ensures |hs| == |Headers.Spelled([], ws, max)|
    ensures |hs| == if |Headers.HeaderLines(ws)| <= max then |Headers.HeaderLines(ws)| else max
    ensures forall i :: 0 <= i < |hs| ==>
              Reads(b, hs[i], Headers.Spelled([], ws, max)[i], Headers.HeaderLines(ws)[i])
  {
    hide Headers.Spelled, Headers.HeaderLines, Returned, Shows;
    HeadersLaws.SpelledHeads([], ws, max);
    HeadersLaws.SpelledCount([], ws, max);
    var fs, lines := Headers.Spelled([], ws, max), Headers.HeaderLines(ws);
    forall i | 0 <= i < |hs| ensures Reads(b, hs[i], fs[i], lines[i]) {
      assert fs[0 + i].name == lines[i].name;
      ReturnedIff(b, hs[i], fs[i]);
      ShownName(b, hs[i], fs[i]);
    }
  }

  lemma ShownName(b: seq<char>, h: HttpHeader, f: Headers.Field)
    requires Shows(b, h, f)
    ensures h.name + h.nameLen <= |b| && b[h.name..h.name + h.nameLen] == f.name
  {
  }

  /** Parsing a printed request gives every field back: method, path, minor version, each header with its
      name and, unless its value was written as blanks only, its value with the continuations, and the body. The
      first `max` headers are kept. */
  lemma RequestRoundTrip(m: string, path: string, minor: char, ws: seq<Headers.Written>, body: string,
                         b: seq<char>, b0: seq<char>, dataLen: nat, max: nat, ok: bool,
                         methodLen: nat, pathAt: nat, pathLen: nat, minorVersion: int,
                         hs: seq<HttpHeader>, bodyLen: nat, readLen: nat)
    requires dataLen <= |b0| && Printed(b0[..dataLen], m, path, minor, ws, body)
    requires RequestDone(b, b0, dataLen, max, ok, methodLen, pathAt, pathLen, minorVersion, hs, bodyLen, readLen)
    ensures ok && readLen + bodyLen == dataLen && |b| == |b0| && pathAt + pathLen <= readLen
    ensures b[0..methodLen] == m && b[pathAt..pathAt + pathLen] == path && b[readLen..dataLen] == body
    ensures minorVersion == minor as int - '0' as int
    ensures Laid(b, pathAt + pathLen, readLen, hs, Headers.Spelled([], ws, max))
    ensures |hs| == |Headers.Spelled([], ws, max)|
    ensures |hs| == if |Headers.HeaderLines(ws)| <= max then |Headers.HeaderLines(ws)| else max
    ensures forall i :: 0 <= i < |hs| ==>
              Reads(b, hs[i], Headers.Spelled([], ws, max)[i], Headers.HeaderLines(ws)[i])
  {
    hide RequestLine.Parse, RequestLine.Print, Headers.Parse, Headers.PrintLines, Headers.Spelled,
         Headers.HeaderLines, Laid, RequestDone, Printed, Reads;
    var d := b0[..dataLen];
    PrintParses(d, m, path, minor, ws, body, max);
    PrintSplits(d, m, path, minor, ws, body);
    DoneGives(b, b0, dataLen, max, ok, methodLen, pathAt, pathLen, minorVersion, hs, bodyLen, readLen);
    LaidReads(b, pathAt + pathLen, readLen, hs, ws, max);
  }

  /** A header of two blanks with `x:y` folded onto it: the caller reads `y`. */
  lemma BlankValueLosesBytes(b: seq<char>, b0: seq<char>, data: nat, dataLen: nat, max: nat,
                             ret: int, hs: seq<HttpHeader>, readLen: nat)
    requires data + dataLen <= |b0| && b0[data..data + dataLen] == "a:  \r\n x:y\r\n\r\n" && max >= 1
    requires Done(b, b0, data, dataLen, max, ret, hs, readLen)
    ensures ret == 0 && |hs| == 1 && Returned(b, hs[0], "y") && !Returned(b, hs[0], "x:y")
  {
    BlankValueParsed(max);
    hide Headers.Parse, Returned, Shows;
    assert Shows(b, hs[0], Headers.Field("a", "x:y", 2));
    ReturnedIff(b, hs[0], Headers.Field("a", "x:y", 2));
    assert "x:y"[2..] == "y";
  }

  lemma BlankLines()
    ensures var h, f := Headers.Header("a", "  ", "", ""), Headers.Fold(' ', "x:y");
      && Headers.WellFormed(h) && Headers.WellFormed(f)
      && Headers.PrintLines([h, f]) == "a:  \r\n x:y\r\n"
  {
    var h, f := Headers.Header("a", "  ", "", ""), Headers.Fold(' ', "x:y");
    assert "x:y"[1] == ':';
    assert [h, f][1..] == [f] && [f][1..] == [];
    assert CRLF == ['\r', '\n'];
    assert "a" + ":" + "  " + "" + "" == ['a', ':', ' ', ' '];
    assert Headers.PrintLine(h) == ['a', ':', ' ', ' ', '\r', '\n'];
    assert [' '] + "x:y" == [' ', 'x', ':', 'y'];
    assert Headers.PrintLine(f) == [' ', 'x', ':', 'y', '\r', '\n'];
    assert Headers.PrintLines([f]) == Headers.PrintLine(f) + "";
  }

  lemma BlankSpelled(max: nat)
    requires max >= 1
    ensures Headers.Spelled([], [Headers.Header("a", "  ", "", ""), Headers.Fold(' ', "x:y")], max)
            == [Headers.Field("a", "x:y", 2)]
  {
    var h, f := Headers.Header("a", "  ", "", ""), Headers.Fold(' ', "x:y");
    assert [h, f][1..] == [f] && [f][1..] == [];
    assert "" + "x:y" == "x:y";
    assert Headers.SpelledLine([], h, max) == [Headers.Field("a", "", 2)];
    assert Headers.SpelledLine([Headers.Field("a", "", 2)], f, max) == [Headers.Field("a", "x:y", 2)];
    HeadersLaws.SpelledStep([], [h, f], max);
    HeadersLaws.SpelledStep([Headers.Field("a", "", 2)], [f], max);
    HeadersLaws.SpelledNone([Headers.Field("a", "x:y", 2)], max);
    hide Headers.Spelled;
  }

  lemma BlankValueParsed(max: nat)
    requires max >= 1
    ensures Headers.Parse("a:  \r\n x:y\r\n\r\n", max) == Headers.Parsed(0, [Headers.Field("a", "x:y", 2)], 14)
  {
    hide Headers.ParseFrom, Headers.Spelled, Headers.PrintLines, Headers.WellFormed;
    BlankLines();
    BlankSpelled(max);
    assert "a:  \r\n x:y\r\n" + CRLF + "" == "a:  \r\n x:y\r\n\r\n";
    HeadersLaws.RoundTrip([Headers.Header("a", "  ", "", ""), Headers.Fold(' ', "x:y")], "", 0, [], max);
  }

  /** On a valid request the bytes of every part are still in the buffer, where the outputs point. */
  lemma DoneGives(b: seq<char>, b0: seq<char>, dataLen: nat, max: nat, ok: bool,
                  methodLen: nat, pathAt: nat, pathLen: nat, minorVersion: int,
                  hs: seq<HttpHeader>, bodyLen: nat, readLen: nat)
    requires RequestDone(b, b0, dataLen, max, ok, methodLen, pathAt, pathLen, minorVersion, hs, bodyLen, readLen)
    requires var line := RequestLine.Parse(b0[..dataLen]);
             line.Parsed?
             && var o := Headers.Parse(b0[..dataLen][line.readLen..], max); o.Parsed? && o.ret == 0
    ensures var d := b0[..dataLen];
            var line := RequestLine.Parse(d);
            var o := Headers.Parse(d[line.readLen..], max);
            && ok && readLen == line.readLen + o.readLen && readLen + bodyLen == dataLen && |b| == |b0|
            && methodLen == line.methodLen && pathAt == methodLen + 1 && pathLen == line.pathLen
            && minorVersion == line.minor && pathAt + pathLen <= line.readLen
            && b[0..methodLen] == d[0..methodLen] && b[pathAt..pathAt + pathLen] == d[pathAt..pathAt + pathLen]
            && b[readLen..dataLen] == d[readLen..dataLen]
            && Laid(b, pathAt + pathLen, readLen, hs, o.fields)
  {
    hide RequestLine.Parse, Headers.Parse, Laid, Outside;
    var k := RequestLine.Parse(b0[..dataLen]).readLen;
    LaidFrom(b, pathAt + pathLen, k, readLen, hs, Headers.Parse(b0[..dataLen][k..], max).fields);
    BytesKept(b, b0, k, readLen, dataLen, 0, methodLen);
    BytesKept(b, b0, k, readLen, dataLen, pathAt, pathAt + pathLen);
    BytesKept(b, b0, k, readLen, dataLen, readLen, dataLen);
  }

  lemma BytesKept(b: seq<char>, b0: seq<char>, lo: nat, hi: nat, n: nat, i: nat, j: nat)
    requires Outside(b, b0, lo, hi) && i <= j <= n <= |b0| && (j <= lo || hi <= i)
    ensures |b| == |b0| && b[i..j] == b0[..n][i..j]
  {
    assert forall k :: 0 <= k < j - i ==> b[i..j][k] == b0[..n][i..j][k];
  }

  lemma LaidFrom(b: seq<char>, lo: nat, mid: nat, hi: nat, hs: seq<HttpHeader>, fs: seq<Headers.Field>)
    requires Laid(b, mid, hi, hs, fs) && lo <= mid
    ensures Laid(b, lo, hi, hs, fs)
  {
    hide Shows;
  }
}
