/** `http_parse_chunked`: the chunked decoder that compacts the body over the encoded bytes.

    `Decode` says what the decoder returns in terms of the bytes it was given, line by line; the method
    `HttpParseChunked` is the byte loop that moves payloads inside the buffer it is still reading. */
module Chunked {
  import opened Wrappers
  import opened Hex
  import opened HttpScan
  import opened Memory

  /** `Undefined` is a size line whose shifts overflow `int`; else the return value, body and read_len. */
  datatype Outcome = Undefined | Result(ret: int, body: string, readLen: nat)

  /** The first CR at or after `i`, or the end of `d`; after the last chunk the cursor may be past that end. */
  function FirstCR(d: string, i: nat): (j: nat)
    ensures i <= |d| ==> i <= j
    ensures j <= |d| && (j < |d| ==> d[j] == CR && i <= j)
    ensures forall k :: i <= k < j ==> d[k] != CR
  {
    if i > |d| then |d| else FirstIndex(d, CR, i)
  }

  /** The last ';' in `d[i..j]`. */
  function LastSemi(d: string, i: nat, j: nat): (p: Option<nat>)
    requires i <= j <= |d|
    ensures p.Some? ==> i <= p.value < j && d[p.value] == ';'
    ensures forall k :: (if p.Some? then p.value + 1 else i) <= k < j ==> d[k] != ';'
  {
    if i == j then None else if d[j - 1] == ';' then Some(j - 1) else LastSemi(d, i, j - 1)
  }

  /** The end of the size digits on the line that starts at `s`, is scanned from `from` and ends at `i`. */
  function SizeEnd(d: string, from: nat, i: nat): (e: nat)
    requires from <= i <= |d|
    ensures from <= e <= i
  {
    var p := LastSemi(d, from, i);
    if p.Some? then p.value else i
  }

  function Prepend(body: string, o: Outcome): Outcome {
    if o.Result? then o.(body := body + o.body) else o
  }

  /** A size line: not complete, malformed, overflowing the shifts, or ending at a CR with a size. */
  datatype Line = Open | Malformed | Overflowing | Size(cr: nat, n: nat)

  /** The size line starting at `s`, of which the bytes before `from` are already behind the cursor. */
  function ReadLine(d: string, s: nat, from: nat): (r: Line)
    requires s <= from
    ensures r.Size? ==> from <= r.cr < |d|
  {
    var i := FirstCR(d, from);
    if i == |d| then Open
    else
      var e := SizeEnd(d, from, i);
      if e == s then Malformed
      else if !ShiftsFit(d[s..e]) then Overflowing
      else if !AllHex(d[s..e]) then Malformed
      else Size(i, Lsd(d[s..e]))
  }

  /** The line carries a complete, non-empty chunk, so decoding goes on at `After(r)`. */
  predicate GoesOn(d: string, r: Line) {
    r.Size? && r.n > 0 && After(r) <= |d|
  }

  function After(r: Line): nat
    requires r.Size?
  {
    r.cr + 2 + r.n + 2
  }

  function Payload(d: string, r: Line): string
    requires GoesOn(d, r)
  {
    d[r.cr + 2..r.cr + 2 + r.n]
  }

  /** The outcome of a line that does not go on. */
  function Stop(d: string, r: Line, s: nat): Outcome
    requires !GoesOn(d, r)
  {
    match r
    case Open => Result(0, "", s)
    case Malformed => Result(-1, "", s)
    case Overflowing => Undefined
    case Size(i, n) => if After(r) > |d| then Result(1, "", s) else Result(0, "", i + 2)
  }

  /** What the decoder returns once it is at the size line starting at `s`. After a chunk its cursor
      stands one past that line's first byte, so `from` is then `s + 1`. */
  function Decode(d: string, s: nat, from: nat): Outcome
    requires s <= from
    decreases |d| - s
  {
    var r := ReadLine(d, s, from);
    if GoesOn(d, r) then Prepend(Payload(d, r), Decode(d, After(r), After(r) + 1)) else Stop(d, r, s)
  }

  /** The decoder meets a complete zero-size line; its return value alone does not tell. */
  predicate Ended(d: string, s: nat, from: nat)
    requires s <= from
    decreases |d| - s
  {
    var r := ReadLine(d, s, from);
    if GoesOn(d, r) then Ended(d, After(r), After(r) + 1) else r.Size? && After(r) <= |d|
  }

  /** One line of `Decode`, for proofs that keep the recursion folded. */
  lemma DecodeLine(d: string, s: nat, from: nat)
    requires s <= from
    ensures var r := ReadLine(d, s, from);
            if GoesOn(d, r) then
              && Decode(d, s, from) == Prepend(Payload(d, r), Decode(d, After(r), After(r) + 1))
              && Ended(d, s, from) == Ended(d, After(r), After(r) + 1)
            else
              && Decode(d, s, from) == Stop(d, r, s)
              && Ended(d, s, from) == (r.Size? && After(r) <= |d|)
  {
    hide ReadLine;
  }

  // ---------------------------------------------------------------- the in-place loop

  lemma PrependEmpty(o: Outcome)
    ensures Prepend("", o) == o
  {
    assert o.Result? ==> "" + o.body == o.body;
  }

  /** The byte scan of a line has passed `d[from..i]` without a CR; `p2` is its last ';'. */
  ghost predicate Scanning(d: string, from: nat, i: nat, p2: Option<nat>) {
    && from <= i && (i <= |d| || i == from)
    && FirstCR(d, from) == FirstCR(d, i)
    && (i <= |d| ==> p2 == LastSemi(d, from, i))
  }

  lemma ScanStart(d: string, from: nat)
    ensures Scanning(d, from, from, None)
  {
  }

  lemma ScanStep(d: string, from: nat, i: nat, p2: Option<nat>)
    requires Scanning(d, from, i, p2) && i < |d| && d[i] != CR
    ensures Scanning(d, from, i + 1, if d[i] == ';' then Some(i) else p2)
  {
  }

  /** The cursor stands on the CR at `i` of the size line from `s`, whose digits end at `e`. */
  ghost predicate AtLineEnd(d: string, s: nat, from: nat, i: nat, e: nat) {
    s <= from <= i < |d| && FirstCR(d, from) == i && SizeEnd(d, from, i) == e
  }

  lemma LineRejected(d: string, s: nat, from: nat, i: nat, e: nat, pre: string)
    requires AtLineEnd(d, s, from, i, e) && Decode(d, s, from) != Undefined
    ensures e != s ==> ShiftsFit(d[s..e])
    ensures e == s || !AllHex(d[s..e]) ==> Prepend(pre, Decode(d, s, from)) == Result(-1, pre, s)
  {
    assert pre + "" == pre;
  }

  lemma LineStops(d: string, s: nat, from: nat, i: nat, e: nat, pre: string)
    requires AtLineEnd(d, s, from, i, e) && Decode(d, s, from) != Undefined && e != s && AllHex(d[s..e])
    ensures var n := Lsd(d[s..e]);
            && (i + 2 + n + 2 > |d| ==> Prepend(pre, Decode(d, s, from)) == Result(1, pre, s))
            && (i + 2 + n + 2 <= |d| && n == 0 ==> Prepend(pre, Decode(d, s, from)) == Result(0, pre, i + 2))
  {
    assert pre + "" == pre;
  }

  lemma LineContinues(d: string, s: nat, from: nat, i: nat, e: nat, n: nat, pre: string)
    requires AtLineEnd(d, s, from, i, e) && Decode(d, s, from) != Undefined && e != s && AllHex(d[s..e])
    requires n == Lsd(d[s..e]) && n > 0 && i + 2 + n + 2 <= |d|
    ensures Decode(d, i + 2 + n + 2, i + 2 + n + 3) != Undefined
    ensures Prepend(pre, Decode(d, s, from))
            == Prepend(pre + d[i + 2..i + 2 + n], Decode(d, i + 2 + n + 2, i + 2 + n + 3))
  {
    hide ShiftsFit, AllHex, Lsd, FirstCR, SizeEnd, Decode, Ended;
    DecodeLine(d, s, from);
    var o := Decode(d, i + 2 + n + 2, i + 2 + n + 3);
    assert pre + (d[i + 2..i + 2 + n] + o.body) == pre + d[i + 2..i + 2 + n] + o.body;
  }

  lemma NoMoreLines(d: string, s: nat, from: nat, pre: string)
    requires s <= from && FirstCR(d, from) == |d|
    ensures Prepend(pre, Decode(d, s, from)) == Result(0, pre, s)
  {
    assert pre + "" == pre;
  }

  /** Where the loop stands: `bodyLen` bytes of body written over `b0`, at the size line from `s`. */
  ghost predicate Progress(b: seq<char>, b0: seq<char>, data: nat, dataLen: nat, bodyLen: nat, s: nat, from: nat) {
    && data + dataLen <= |b0| && bodyLen <= s <= from && s <= dataLen
    && Outside(b, b0, data, data + bodyLen)
    && var d := b0[data..data + dataLen];
    && Decode(d, s, from) != Undefined
    && Decode(d, 0, 0) == Prepend(b[data..data + bodyLen], Decode(d, s, from))
  }

  lemma ProgressStart(b: seq<char>, data: nat, dataLen: nat)
    requires data + dataLen <= |b| && Decode(b[data..data + dataLen], 0, 0) != Undefined
    ensures Progress(b, b, data, dataLen, 0, 0, 0)
  {
    PrependEmpty(Decode(b[data..data + dataLen], 0, 0));
  }

  /** The bytes the decoder has yet to read are those it was given. */
  lemma ProgressBytes(b: seq<char>, b0: seq<char>, data: nat, dataLen: nat, bodyLen: nat, s: nat, from: nat,
                      i: nat, j: nat)
    requires Progress(b, b0, data, dataLen, bodyLen, s, from) && s <= i <= j <= dataLen
    ensures |b| == |b0| && data + j <= |b|
    ensures b[data + i..data + j] == b0[data..data + dataLen][i..j]
  {
    hide Decode;
    var u, v := b[data + i..data + j], b0[data..data + dataLen][i..j];
    assert forall k :: 0 <= k < j - i ==> u[k] == b[data + i + k] && v[k] == b0[data + i + k];
  }

  lemma Append(b: seq<char>, c: seq<char>, b0: seq<char>, data: nat, bodyLen: nat, src: nat, n: nat)
    requires Outside(b, b0, data, data + bodyLen) && Moved(c, b, data + bodyLen, src, n)
    ensures Outside(c, b0, data, data + bodyLen + n)
    ensures c[data..data + bodyLen + n] == b[data..data + bodyLen] + b[src..src + n]
  {
    assert c[data..data + bodyLen] == b[data..data + bodyLen];
  }

  /** A complete, non-empty chunk: its size line and its `n` bytes of payload with their CRLF. */
  ghost predicate HasPayload(d: string, s: nat, from: nat, i: nat, e: nat, n: nat) {
    && AtLineEnd(d, s, from, i, e) && e != s && AllHex(d[s..e])
    && n == Lsd(d[s..e]) && n > 0 && i + 2 + n + 2 <= |d|
  }

  /** After `memmove` of a payload of `n` bytes from `i + 2` to the end of the body. */
  lemma ProgressNext(b: seq<char>, c: seq<char>, b0: seq<char>, data: nat, dataLen: nat, bodyLen: nat,
                     s: nat, from: nat, i: nat, e: nat, n: nat)
    requires Progress(b, b0, data, dataLen, bodyLen, s, from)
    requires HasPayload(b0[data..data + dataLen], s, from, i, e, n)
    requires Moved(c, b, data + bodyLen, data + i + 2, n)
    ensures Progress(c, b0, data, dataLen, bodyLen + n, i + 2 + n + 2, i + 2 + n + 3)
  {
    hide Decode, Lsd, AllHex, Prepend, FirstCR, SizeEnd;
    var d := b0[data..data + dataLen];
    LineContinues(d, s, from, i, e, n, b[data..data + bodyLen]);
    ProgressBytes(b, b0, data, dataLen, bodyLen, s, from, i + 2, i + 2 + n);
    Append(b, c, b0, data, bodyLen, data + i + 2, n);
  }

  /** What the decoder owes its caller: the outcome for the bytes it was given, with the body in place
      and every byte outside the body as it was. */
  ghost predicate Decoded(b: seq<char>, b0: seq<char>, data: nat, dataLen: nat,
                          ret: int, bodyLen: nat, readLen: nat)
  {
    && data + dataLen <= |b0| == |b| && bodyLen <= readLen <= dataLen
    && Decode(b0[data..data + dataLen], 0, 0) == Result(ret, b[data..data + bodyLen], readLen)
    && Outside(b, b0, data, data + bodyLen)
  }

  /** What stopping on this size line returns, and what going on from it needs. */
  lemma ProgressLine(b: seq<char>, b0: seq<char>, data: nat, dataLen: nat, bodyLen: nat, s: nat, from: nat,
                     i: nat, e: nat)
    requires Progress(b, b0, data, dataLen, bodyLen, s, from)
    requires AtLineEnd(b0[data..data + dataLen], s, from, i, e)
    ensures data + dataLen <= |b| && s <= e <= i < dataLen
    ensures var line := b[data + s..data + e];
            && (e != s ==> ShiftsFit(line))
            && (e == s || !AllHex(line) ==> Decoded(b, b0, data, dataLen, -1, bodyLen, s))
            && (e != s && AllHex(line) ==>
                  var n := Lsd(line);
                  && (i + 2 + n + 2 > dataLen ==> Decoded(b, b0, data, dataLen, 1, bodyLen, s))
                  && (i + 2 + n + 2 <= dataLen && n == 0 ==> Decoded(b, b0, data, dataLen, 0, bodyLen, i + 2))
                  && (i + 2 + n + 2 <= dataLen && n > 0 ==>
                        HasPayload(b0[data..data + dataLen], s, from, i, e, n)))
  {
    hide Decode, Prepend, Lsd, AllHex, ShiftsFit, FirstCR, SizeEnd, LastSemi;
    var d, pre := b0[data..data + dataLen], b[data..data + bodyLen];
    ProgressBytes(b, b0, data, dataLen, bodyLen, s, from, s, e);
    hide Outside;
    LineRejected(d, s, from, i, e, pre);
    if e != s && AllHex(d[s..e]) { LineStops(d, s, from, i, e, pre); }
  }

  lemma ProgressEnd(b: seq<char>, b0: seq<char>, data: nat, dataLen: nat, bodyLen: nat, s: nat, from: nat,
                    i: nat, p2: Option<nat>)
    requires Progress(b, b0, data, dataLen, bodyLen, s, from)
    requires Scanning(b0[data..data + dataLen], from, i, p2) && i >= dataLen
    ensures Decoded(b, b0, data, dataLen, 0, bodyLen, s)
  {
    hide Decode;
    NoMoreLines(b0[data..data + dataLen], s, from, b[data..data + bodyLen]);
  }

  /** The scan has reached the CR that ends the line. */
  lemma LineEndReached(d: string, s: nat, from: nat, i: nat, p2: Option<nat>)
    requires s <= from && Scanning(d, from, i, p2) && i < |d| && d[i] == CR
    ensures AtLineEnd(d, s, from, i, if p2.Some? then p2.value else i)
    ensures p2.Some? ==> s <= p2.value
  {
  }

  /** `http_parse_chunked` on `buf[data..data + dataLen]`; the body starts at `data`. */
  method HttpParseChunked(buf: array<char>, data: nat, dataLen: nat)
    returns (ret: int, bodyLen: nat, readLen: nat)
    requires data + dataLen <= buf.Length
    requires Decode(buf[..][data..data + dataLen], 0, 0) != Undefined
    modifies buf
    ensures Decoded(buf[..], old(buf[..]), data, dataLen, ret, bodyLen, readLen)
  {
    hide Decode, FirstCR, LastSemi, ShiftsFit, AllHex, Lsd, Prepend, Outside, Moved, Progress, HasPayload,
         AtLineEnd, Decoded, Scanning;
    ghost var b0 := buf[..];
    ghost var d := b0[data..data + dataLen];
    bodyLen, readLen := 0, 0;
    var p1, p2: Option<nat> := 0, None;
    ghost var from := 0;
    var i := 0;
    ScanStart(d, 0);
    ProgressStart(b0, data, dataLen);
    while i < dataLen
      invariant bodyLen <= p1 == readLen <= from <= i
      invariant Scanning(d, from, i, p2)
      invariant Progress(buf[..], b0, data, dataLen, bodyLen, p1, from)
    {
      ghost var b := buf[..];
      ProgressByte(b, b0, data, dataLen, bodyLen, p1, from, i);
      if d[i] != CR { ScanStep(d, from, i, p2); }
      if buf[data + i] == ';' {
        p2 := Some(i);
      } else if buf[data + i] == CR {
        LineEndReached(d, p1, from, i, p2);
        var dist := (if p2.Some? then p2.value else i) - p1;
        ghost var e := p1 + dist;
        ProgressLine(b, b0, data, dataLen, bodyLen, p1, from, i, e);
        if dist > 0 {
          var ok, n := StrParseHex(buf, data + p1, dist);
          if ok == 0 {
            var s := i + 2 + n + 2;
            if s <= dataLen {
              if n > 0 {
                MemMove(buf, data + bodyLen, data + i + 2, n);
                ProgressNext(b, buf[..], b0, data, dataLen, bodyLen, p1, from, i, e, n);
                bodyLen := bodyLen + n;
                readLen := s;
              } else {
                readLen := i + 2;
                return 0, bodyLen, readLen;
              }
              p1 := s;
              p2 := None;
              i := s;
              from := s + 1;
              ScanStart(d, from);
            } else {
              return 1, bodyLen, readLen;
            }
          } else {
            return -1, bodyLen, readLen;
          }
        } else {
          return -1, bodyLen, readLen;
        }
      }
      i := i + 1;
    }
    ProgressEnd(buf[..], b0, data, dataLen, bodyLen, p1, from, i, p2);
    ret := 0;
  }

  lemma ProgressByte(b: seq<char>, b0: seq<char>, data: nat, dataLen: nat, bodyLen: nat, s: nat, from: nat, i: nat)
    requires Progress(b, b0, data, dataLen, bodyLen, s, from) && s <= i < dataLen
    ensures data + i < |b| && b[data + i] == b0[data..data + dataLen][i]
  {
  }
}
