/** `http_parse_request_line`. */
module RequestLine {
  import opened HttpScan

  /** `Overrun` is the read past the end of a buffer whose scan stops on a final CR. `Incomplete` is the
      return value 1, `Bad` is -1 and `Parsed` is 0, the path starting one past the method. */
  datatype Outcome =
    | Overrun
    | Incomplete
    | Bad
    | Parsed(methodLen: nat, pathLen: nat, minor: int, readLen: nat)

  const VERSION := "HTTP/1."

  /** What the line ending at `lf` says, its spaces being at `sp0` and `sp1`. */
  function Judge(d: string, sp0: nat, sp1: nat, lf: nat): Outcome
    requires sp0 < sp1 < lf < |d|
  {
    if lf - sp1 != 10 then Bad
    else if d[sp1 + 1..sp1 + 8] != VERSION then Bad
    else Parsed(sp0, sp1 - sp0 - 1, d[sp1 + 8] as int - '0' as int, lf + 1)
  }

  function Parse(d: string): (o: Outcome)
    ensures o.Parsed? ==> o.readLen <= |d| && o.methodLen + 1 + o.pathLen + 11 == o.readLen
  {
    var sp0 := FirstIndex(d, ' ', 0);
    if sp0 == |d| then Incomplete
    else
      var sp1 := FirstIndex(d, ' ', sp0 + 1);
      if sp1 == |d| then Incomplete
      else match FindLine(d, sp1)
        case Missing => Incomplete
        case PastEnd => Overrun
        case At(lf) => Judge(d, sp0, sp1, lf)
  }

  /** The two spaces the first loop records. */
  ghost predicate Spaces(d: string, sp0: nat, sp1: nat) {
    && sp0 == FirstIndex(d, ' ', 0) < |d|
    && sp1 == FirstIndex(d, ' ', sp0 + 1) < |d|
  }

  lemma TwoSpaces(d: string, sp0: nat, sp1: nat)
    requires Spaces(d, sp0, sp1)
    ensures sp0 < sp1
    ensures Parse(d) == match FindLine(d, sp1)
                        case Missing => Incomplete
                        case PastEnd => Overrun
                        case At(lf) => Judge(d, sp0, sp1, lf)
  {
    hide FindLine;
  }

  predicate VersionAt(d: string, p: nat)
    requires p + 7 < |d|
  {
    && d[p + 1] == 'H' && d[p + 2] == 'T' && d[p + 3] == 'T' && d[p + 4] == 'P'
    && d[p + 5] == '/' && d[p + 6] == '1' && d[p + 7] == '.'
  }

  lemma VersionIs(d: string, p: nat)
    requires p + 8 <= |d|
    ensures VersionAt(d, p) <==> d[p + 1..p + 8] == VERSION
  {
    var v := d[p + 1..p + 8];
    assert VERSION == ['H', 'T', 'T', 'P', '/', '1', '.'];
    assert v == [d[p + 1], d[p + 2], d[p + 3], d[p + 4], d[p + 5], d[p + 6], d[p + 7]];
  }

  /** The verdict on the line ending at `lf`, in the terms the code checks. */
  lemma LineJudged(d: string, sp0: nat, sp1: nat, lf: nat)
    requires Spaces(d, sp0, sp1) && FindLine(d, sp1) == At(lf)
    ensures sp0 < sp1 < lf < |d|
    ensures Parse(d) == if lf - sp1 != 10 || !VersionAt(d, sp1) then Bad
                        else Parsed(sp0, sp1 - sp0 - 1, d[sp1 + 8] as int - '0' as int, lf + 1)
  {
    hide FindLine, FirstIndex;
    TwoSpaces(d, sp0, sp1);
    if lf - sp1 == 10 { VersionIs(d, sp1); }
  }

  /** The first loop stands at `p`, having recorded `i` spaces, the first of them at `pos0`. */
  ghost predicate Looking(d: string, p: nat, i: nat, pos0: nat) {
    && p <= |d| && i <= 1
    && (i == 0 ==> FirstIndex(d, ' ', p) == FirstIndex(d, ' ', 0))
    && (i == 1 ==> pos0 == FirstIndex(d, ' ', 0) < p && FirstIndex(d, ' ', p) == FirstIndex(d, ' ', pos0 + 1))
  }

  lemma LookingStep(d: string, p: nat, i: nat, pos0: nat)
    requires Looking(d, p, i, pos0) && p < |d|
    ensures d[p] != ' ' ==> Looking(d, p + 1, i, pos0)
    ensures d[p] == ' ' && i == 0 ==> Looking(d, p + 1, 1, p)
    ensures d[p] == ' ' && i == 1 ==> Spaces(d, pos0, p)
  {
  }

  lemma LookingEnd(d: string, i: nat, pos0: nat)
    requires Looking(d, |d|, i, pos0)
    ensures Parse(d) == Incomplete
  {
    hide FindLine;
  }

  /** The second loop stands at `p`, past `pos1`, and will not step past the end. */
  ghost predicate Ending(d: string, p: nat, pos1: nat) {
    pos1 <= p <= |d| && FindLine(d, p) == FindLine(d, pos1) && !FindLine(d, p).PastEnd?
  }

  lemma EndingStep(d: string, p: nat, pos1: nat)
    requires Ending(d, p, pos1) && p < |d|
    ensures d[p] != CR ==> Ending(d, p + 1, pos1)
    ensures d[p] == CR ==> p + 1 < |d|
    ensures d[p] == CR && d[p + 1] == LF ==> FindLine(d, pos1) == At(p + 1)
    ensures d[p] == CR && d[p + 1] != LF ==> Ending(d, p + 2, pos1)
  {
  }

  /** `http_parse_request_line`; positions are offsets into `data`, and outputs it leaves unset are 0. */
  method HttpParseRequestLine(data: string)
    returns (ret: int, methodLen: nat, path: nat, pathLen: nat, minorVersion: int, readLen: nat)
    requires Parse(data) != Overrun
    ensures ret == (match Parse(data) case Incomplete => 1 case Bad => -1 case _ => 0)
    ensures ret == 0 ==> Parse(data) == Parsed(methodLen, pathLen, minorVersion, readLen) && path == methodLen + 1
    ensures ret != 0 ==> readLen == 0
  {
    hide Parse, FindLine, FirstIndex, Spaces, Judge, Looking, Ending;
    methodLen, path, pathLen, minorVersion, readLen := 0, 0, 0, 0, 0;
    var end := |data|;
    var pos0, pos1, pos2 := 0, 0, 0;
    var p, i := 0, 0;
    LookingStart(data);
    while p != end
      invariant p <= end && i <= 1 && Looking(data, p, i, pos0)
      decreases end - p
    {
      LookingStep(data, p, i, pos0);
      if data[p] == ' ' {
        if i == 0 { pos0 := p; } else { pos1 := p; }
        i := i + 1;
        if i == 2 {
          break;
        }
      }
      p := p + 1;
    }
    if i == 2 {
      EndingStart(data, pos0, pos1);
    } else {
      LookingEnd(data, i, pos0);
    }
    while p != end
      invariant p <= end && i <= 2
      invariant i < 2 ==> p == end
      invariant i == 2 ==> Ending(data, p, pos1)
      decreases end - p
    {
      EndingStep(data, p, pos1);
      if data[p] == CR {
        p := p + 1;
        if p != end && data[p] == LF {
          pos2 := p;
          i := i + 1;
          break;
        }
      }
      p := p + 1;
    }
    if i == 3 {
      LineJudged(data, pos0, pos1, pos2);
      if pos2 - pos1 != 10 {
        return -1, methodLen, path, pathLen, minorVersion, readLen;
      }
      p := pos1;
      if data[p + 1] != 'H' || data[p + 2] != 'T' || data[p + 3] != 'T' || data[p + 4] != 'P'
         || data[p + 5] != '/' || data[p + 6] != '1' || data[p + 7] != '.' {
        return -1, methodLen, path, pathLen, minorVersion, readLen;
      }
      methodLen := pos0;
      path := pos0 + 1;
      pathLen := pos1 - path;
      minorVersion := data[p + 8] as int - '0' as int;
      readLen := pos2 + 1;
      return 0, methodLen, path, pathLen, minorVersion, readLen;
    }
    if i == 2 { EndingEnd(data, pos0, pos1); }
    ret := 1;
  }

  lemma LookingStart(d: string)
    ensures Looking(d, 0, 0, 0)
  {
  }

  lemma EndingStart(d: string, sp0: nat, sp1: nat)
    requires Spaces(d, sp0, sp1) && Parse(d) != Overrun
    ensures Ending(d, sp1, sp1)
  {
    TwoSpaces(d, sp0, sp1);
  }

  lemma EndingEnd(d: string, sp0: nat, sp1: nat)
    requires Spaces(d, sp0, sp1) && Ending(d, |d|, sp1)
    ensures Parse(d) == Incomplete
  {
    TwoSpaces(d, sp0, sp1);
  }

  // ---------------------------------------------------------------- what the verdicts mean

  predicate SpaceFree(s: string) {
    forall k :: 0 <= k < |s| ==> s[k] != ' '
  }

  function Print(m: string, path: string, minor: char): string {
    (m + " " + path) + Tail(minor)
  }

  /** The end of the line, from its second space. */
  function Tail(minor: char): string {
    " " + VERSION + [minor] + CRLF
  }

  /** Parsing undoes printing, for any space-free method and path, any minor version byte but CR, and
      any bytes behind the line. */
  lemma ParsePrinted(m: string, path: string, minor: char, rest: string)
    requires SpaceFree(m) && SpaceFree(path) && minor != CR
    ensures Parse(Print(m, path, minor) + rest)
            == Parsed(|m|, |path|, minor as int - '0' as int, |Print(m, path, minor)|)
  {
    var d := Print(m, path, minor) + rest;
    var sp0, sp1 := |m|, |m| + 1 + |path|;
    PrintedSplits(m, path, minor, rest);
    TailAt(d, sp1, minor);
    hide Print, Tail, FindLine, FirstIndex, SpaceFree;
    assert d[0..sp0] == d[..sp0];
    NextSpace(d, 0, sp0);
    NextSpace(d, sp0 + 1, sp1);
    FindLineAt(d, sp1, sp1 + 9);
    LineJudged(d, sp0, sp1, sp1 + 10);
  }

  lemma NextSpace(d: string, i: nat, j: nat)
    requires i <= j < |d| && SpaceFree(d[i..j]) && d[j] == ' '
    ensures FirstIndex(d, ' ', i) == j
  {
    assert forall k :: i <= k < j ==> d[k] == d[i..j][k - i];
    FirstIndexAt(d, ' ', i, j);
  }

  lemma PrintedSplits(m: string, path: string, minor: char, rest: string)
    ensures var d, sp0, sp1 := Print(m, path, minor) + rest, |m|, |m| + 1 + |path|;
            && |Print(m, path, minor)| == sp1 + 11
            && d[..sp0] == m && d[sp0] == ' ' && d[sp0 + 1..sp1] == path && d[sp1..sp1 + 11] == Tail(minor)
  {
    var d, sp1 := Print(m, path, minor) + rest, |m| + 1 + |path|;
    TailBytes(minor);
    hide Tail;
    assert d[..sp1] == m + " " + path;
    assert d[..|m|] == d[..sp1][..|m|];
    assert d[|m| + 1..sp1] == d[..sp1][|m| + 1..];
  }

  lemma TailAt(d: string, sp1: nat, minor: char)
    requires sp1 + 11 <= |d| && d[sp1..sp1 + 11] == Tail(minor)
    ensures d[sp1] == ' ' && VersionAt(d, sp1) && d[sp1 + 8] == minor && d[sp1 + 9] == CR && d[sp1 + 10] == LF
  {
    TailBytes(minor);
    hide Tail;
    var s := d[sp1..sp1 + 11];
    assert s[0] == d[sp1] && s[1] == d[sp1 + 1] && s[2] == d[sp1 + 2] && s[3] == d[sp1 + 3];
    assert s[4] == d[sp1 + 4] && s[5] == d[sp1 + 5] && s[6] == d[sp1 + 6] && s[7] == d[sp1 + 7];
    assert s[8] == d[sp1 + 8] && s[9] == d[sp1 + 9] && s[10] == d[sp1 + 10];
  }

  lemma TailBytes(minor: char)
    ensures Tail(minor) == [' ', 'H', 'T', 'T', 'P', '/', '1', '.', minor, CR, LF]
  {
    assert VERSION == ['H', 'T', 'T', 'P', '/', '1', '.'];
  }

  /** And only printed lines parse: a verdict of 0 means the buffer starts with the line printed from
      the fields returned. */
  lemma ParsedIsPrinted(d: string)
    requires Parse(d).Parsed?
    ensures var o := Parse(d);
            && o.readLen <= |d| && o.methodLen + 1 + o.pathLen + 11 == o.readLen
            && var m, path := d[..o.methodLen], d[o.methodLen + 1..o.methodLen + 1 + o.pathLen];
            && SpaceFree(m) && SpaceFree(path) && d[o.readLen - 3] != CR
            && d[..o.readLen] == Print(m, path, d[o.readLen - 3])
  {
    hide Parse, FindLine, FirstIndex, Print, Spaces, SpaceFree, VersionAt, Judge;
    var sp0, sp1 := ParsedSpaces(d);
    SpacesBetween(d, sp0, sp1);
    MinorNotCR(d, sp1);
    Assemble(d, sp0, sp1);
  }

  /** Behind a verdict of 0 stand the two spaces and the version. */
  lemma ParsedSpaces(d: string) returns (sp0: nat, sp1: nat)
    requires Parse(d).Parsed?
    ensures Spaces(d, sp0, sp1) && sp0 < sp1 && sp1 + 10 < |d|
    ensures FindLine(d, sp1) == At(sp1 + 10) && VersionAt(d, sp1) && d[sp1 + 9] == CR && d[sp1 + 10] == LF
    ensures Parse(d) == Parsed(sp0, sp1 - sp0 - 1, d[sp1 + 8] as int - '0' as int, sp1 + 11)
  {
    sp0 := FirstIndex(d, ' ', 0);
    sp1 := FirstIndex(d, ' ', sp0 + 1);
    assert Spaces(d, sp0, sp1);
    hide Parse, FindLine, FirstIndex, Spaces, VersionAt;
    TwoSpaces(d, sp0, sp1);
    LineJudged(d, sp0, sp1, FindLine(d, sp1).lf);
  }

  lemma SpacesBetween(d: string, sp0: nat, sp1: nat)
    requires Spaces(d, sp0, sp1)
    ensures sp0 < sp1 < |d| && d[sp0] == ' ' && d[sp1] == ' ' && SpaceFree(d[..sp0]) && SpaceFree(d[sp0 + 1..sp1])
  {
  }

  lemma MinorNotCR(d: string, sp1: nat)
    requires sp1 + 10 < |d| && VersionAt(d, sp1) && d[sp1] == ' ' && FindLine(d, sp1) == At(sp1 + 10)
    ensures d[sp1 + 8] != CR
  {
    FindLineSkip(d, sp1, sp1 + 8);
  }

  lemma Assemble(d: string, sp0: nat, sp1: nat)
    requires sp0 < sp1 && sp1 + 10 < |d| && d[sp0] == ' ' && d[sp1] == ' ' && VersionAt(d, sp1)
    requires d[sp1 + 9] == CR && d[sp1 + 10] == LF
    ensures d[..sp1 + 11] == Print(d[..sp0], d[sp0 + 1..sp1], d[sp1 + 8])
  {
    VersionIs(d, sp1);
    TailBytes(d[sp1 + 8]);
    var head := d[..sp0] + " " + d[sp0 + 1..sp1];
    assert d[..sp1] == head;
    assert d[sp1..sp1 + 11] == Tail(d[sp1 + 8]);
    assert d[..sp1 + 11] == d[..sp1] + d[sp1..sp1 + 11];
  }

  // ---------------------------------------------------------------- stability

  lemma FirstIndexExtend(d: string, e: string, c: char, i: nat)
    requires i <= |d| && FirstIndex(d, c, i) < |d|
    ensures FirstIndex(d + e, c, i) == FirstIndex(d, c, i)
  {
    FirstIndexAt(d + e, c, i, FirstIndex(d, c, i));
  }

  /** A verdict of 0 or -1, with all its outputs, stands whatever bytes arrive behind it. */
  lemma VerdictStands(d: string, e: string)
    requires Parse(d).Parsed? || Parse(d).Bad?
    ensures Parse(d + e) == Parse(d)
  {
    var sp0 := FirstIndex(d, ' ', 0);
    var sp1 := FirstIndex(d, ' ', sp0 + 1);
    FirstIndexExtend(d, e, ' ', 0);
    FirstIndexExtend(d, e, ' ', sp0 + 1);
    FindLineExtend(d, e, sp1);
    hide FirstIndex, FindLine;
    TwoSpaces(d, sp0, sp1);
    assert Spaces(d + e, sp0, sp1);
    LineJudged(d, sp0, sp1, FindLine(d, sp1).lf);
    LineJudged(d + e, sp0, sp1, FindLine(d, sp1).lf);
  }

  /** No proper prefix of a request line gets a verdict: it gives 1, or, only when it ends in CR, the
      scan steps past the end. */
  lemma PrefixIncomplete(d: string, c: nat)
    requires Parse(d).Parsed? && c < Parse(d).readLen && c <= |d|
    ensures Parse(d[..c]).Incomplete? || Parse(d[..c]).Overrun?
    ensures Parse(d[..c]).Overrun? ==> c > 0 && d[c - 1] == CR
  {
    var sp0 := FirstIndex(d, ' ', 0);
    var sp1 := FirstIndex(d, ' ', sp0 + 1);
    assert Spaces(d, sp0, sp1);
    LineJudged(d, sp0, sp1, FindLine(d, sp1).lf);
    hide FindLine;
    FirstIndexAt(d[..c], ' ', 0, if sp0 < c then sp0 else c);
    if sp0 < c { FirstIndexAt(d[..c], ' ', sp0 + 1, if sp1 < c then sp1 else c); }
    if sp1 < c {
      FindLinePrefix(d, c, sp1);
      TwoSpaces(d[..c], sp0, sp1);
    }
  }

  // ---------------------------------------------------------------- when the scan leaves the buffer

  /** The scan steps past the end exactly when there are two spaces and the text from the second one on has no
      line end and ends in an odd run of CRs. */
  lemma OverrunIff(d: string)
    ensures Parse(d) == Overrun <==>
      exists sp0, sp1 :: Spaces(d, sp0, sp1) && OddRun(d, sp1, |d|) && !HasLineEnd(d, sp1)
  {
    hide FindLine, FirstIndex, OddRun, HasLineEnd;
    if exists sp0, sp1 :: Spaces(d, sp0, sp1) {
      var sp0, sp1 :| Spaces(d, sp0, sp1);
      TwoSpaces(d, sp0, sp1);
      FindLineIff(d, sp1);
      SpacesUnique(d, sp0, sp1);
    } else {
      NoTwoSpaces(d);
    }
  }

  lemma SpacesUnique(d: string, sp0: nat, sp1: nat)
    requires Spaces(d, sp0, sp1)
    ensures forall a, b :: Spaces(d, a, b) ==> a == sp0 && b == sp1
  {
  }

  lemma NoTwoSpaces(d: string)
    requires !exists sp0, sp1 :: Spaces(d, sp0, sp1)
    ensures Parse(d) == Incomplete
  {
    var sp0 := FirstIndex(d, ' ', 0);
    if sp0 < |d| && FirstIndex(d, ' ', sp0 + 1) < |d| {
      assert Spaces(d, sp0, FirstIndex(d, ' ', sp0 + 1));
    }
  }

  /** The shortest kind of such a buffer. */
  lemma FinalCROverruns()
    ensures Parse("G / \r") == Overrun
  {
    var d := "G / \r";
    FirstIndexAt(d, ' ', 0, 1);
    FirstIndexAt(d, ' ', 2, 3);
    assert Spaces(d, 1, 3);
    TwoSpaces(d, 1, 3);
    assert FindLine(d, 4) == PastEnd;
  }
}
