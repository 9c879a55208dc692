/** What the chunked decoder is for: decoding undoes chunking, and a stream cut anywhere decodes to the
    same body when decoding resumes at `read_len`. */
module ChunkedLaws {
  import opened Wrappers
  import opened Hex
  import opened HttpScan
  import opened Memory
  import opened Chunked

  function Shift(k: nat, o: Outcome): Outcome {
    if o.Result? then o.(readLen := k + o.readLen) else o
  }

  // ---------------------------------------------------------------- moving within a stream

  lemma {:induction false} FirstCRShift(p: string, d: string, i: nat)
    ensures FirstCR(p + d, |p| + i) == |p| + FirstCR(d, i)
    decreases |d| - i
  {
    if i < |d| && d[i] != CR {
      FirstCRShift(p, d, i + 1);
    }
  }

  lemma {:induction false} LastSemiShift(p: string, d: string, i: nat, j: nat)
    requires i <= j <= |d|
    ensures LastSemi(p + d, |p| + i, |p| + j)
            == var q := LastSemi(d, i, j); if q.Some? then Some(|p| + q.value) else None
    decreases j
  {
    if i < j && d[j - 1] != ';' {
      LastSemiShift(p, d, i, j - 1);
    }
  }

  lemma LineShift(p: string, d: string, s: nat, from: nat)
    requires s <= from
    ensures ReadLine(p + d, |p| + s, |p| + from)
            == var r := ReadLine(d, s, from); if r.Size? then r.(cr := |p| + r.cr) else r
  {
    hide ShiftsFit, AllHex, Lsd, LastSemi, FirstCR;
    var i := FirstCR(d, from);
    FirstCRShift(p, d, from);
    if i < |d| {
      LastSemiShift(p, d, from, i);
      assert (p + d)[|p| + s..|p| + SizeEnd(d, from, i)] == d[s..SizeEnd(d, from, i)];
    }
  }

  /** The decoder never looks back: bytes before its line do not matter. */
  lemma {:induction false} DecodeShift(p: string, d: string, s: nat, from: nat)
    requires s <= from
    ensures Decode(p + d, |p| + s, |p| + from) == Shift(|p|, Decode(d, s, from))
    ensures Ended(p + d, |p| + s, |p| + from) == Ended(d, s, from)
    decreases |d| - s
  {
    hide ReadLine, Decode, Ended;
    DecodeLine(d, s, from);
    DecodeLine(p + d, |p| + s, |p| + from);
    LineShift(p, d, s, from);
    var r := ReadLine(d, s, from);
    if GoesOn(d, r) {
      assert Payload(p + d, r.(cr := |p| + r.cr)) == Payload(d, r);
      DecodeShift(p, d, After(r), After(r) + 1);
    }
  }

  // ---------------------------------------------------------------- cutting a stream

  lemma {:induction false} FirstCRCut(d: string, c: nat, i: nat)
    requires c <= |d| && FirstCR(d[..c], i) < c
    ensures FirstCR(d, i) == FirstCR(d[..c], i)
    decreases c - i
  {
    if i < c && d[i] != CR {
      FirstCRCut(d, c, i + 1);
    }
  }

  lemma {:induction false} LastSemiCut(d: string, c: nat, i: nat, j: nat)
    requires i <= j <= c <= |d|
    ensures LastSemi(d[..c], i, j) == LastSemi(d, i, j)
    decreases j
  {
    if i < j && d[j - 1] != ';' {
      LastSemiCut(d, c, i, j - 1);
    }
  }

  /** A line complete before the cut reads the same. */
  lemma LineCut(d: string, c: nat, s: nat, from: nat)
    requires c <= |d| && s <= from
    ensures ReadLine(d[..c], s, from).Open? || ReadLine(d, s, from) == ReadLine(d[..c], s, from)
  {
    hide ShiftsFit, AllHex, Lsd, LastSemi, FirstCR;
    var i := FirstCR(d[..c], from);
    if i < c {
      FirstCRCut(d, c, from);
      LastSemiCut(d, c, from, i);
      assert d[..c][s..SizeEnd(d, from, i)] == d[s..SizeEnd(d, from, i)];
    }
  }

  /** The prefix was decoded without error and its stream goes on. */
  predicate Unfinished(d: string, s: nat, from: nat)
    requires s <= from
  {
    var o := Decode(d, s, from);
    o.Result? && o.ret >= 0 && !Ended(d, s, from)
  }

  lemma PrependPrepend(a: string, b: string, o: Outcome)
    ensures Prepend(a, Prepend(b, o)) == Prepend(a + b, o)
  {
    if o.Result? { assert a + (b + o.body) == a + b + o.body; }
  }

  lemma {:induction false} ReadLenGrows(d: string, s: nat, from: nat)
    requires s <= from
    ensures var o := Decode(d, s, from);
            o.Result? ==> s <= o.readLen && (s <= |d| ==> o.readLen + (if Ended(d, s, from) then 2 else 0) <= |d|)
    decreases |d| - s
  {
    hide ReadLine, Decode, Ended;
    DecodeLine(d, s, from);
    var r := ReadLine(d, s, from);
    if GoesOn(d, r) { ReadLenGrows(d, After(r), After(r) + 1); }
  }

  lemma PayloadCut(d: string, c: nat, r: Line)
    requires c <= |d| && GoesOn(d[..c], r)
    ensures Payload(d[..c], r) == Payload(d, r)
  {
  }

  /** A prefix that failed or ended decides the whole stream. */
  lemma {:induction false} DecodeCutFinal(d: string, c: nat, s: nat, from: nat)
    requires c <= |d| && s <= from && !Unfinished(d[..c], s, from)
    ensures Decode(d, s, from) == Decode(d[..c], s, from) && Ended(d, s, from) == Ended(d[..c], s, from)
    decreases c - s
  {
    hide ReadLine, Decode, Ended, Payload;
    LineCut(d, c, s, from);
    DecodeLine(d, s, from);
    DecodeLine(d[..c], s, from);
    var r := ReadLine(d[..c], s, from);
    if GoesOn(d[..c], r) {
      DecodeCutFinal(d, c, After(r), After(r) + 1);
      PayloadCut(d, c, r);
    }
  }

  /** After an unfinished prefix the decoder goes on from where it stopped. */
  lemma {:induction false} DecodeCutResume(d: string, c: nat, s: nat, from: nat)
    requires c <= |d| && s <= from && Unfinished(d[..c], s, from)
    ensures var o := Decode(d[..c], s, from);
            var from' := if o.readLen == s then from else o.readLen + 1;
            && o.readLen >= s
            && Decode(d, s, from) == Prepend(o.body, Decode(d, o.readLen, from'))
            && Ended(d, s, from) == Ended(d, o.readLen, from')
    decreases c - s
  {
    hide ReadLine, Decode, Ended, Payload;
    LineCut(d, c, s, from);
    DecodeLine(d[..c], s, from);
    var r := ReadLine(d[..c], s, from);
    if GoesOn(d[..c], r) {
      DecodeLine(d, s, from);
      PayloadCut(d, c, r);
      var o := Decode(d[..c], After(r), After(r) + 1);
      DecodeCutResume(d, c, After(r), After(r) + 1);
      PrependPrepend(Payload(d, r), o.body, Decode(d, o.readLen, o.readLen + 1));
    } else {
      PrependEmpty(Decode(d, s, from));
    }
  }

  // ---------------------------------------------------------------- resuming

  /** A CR with no further CR behind it. */
  predicate LoneCR(d: string) {
    d != "" && FirstCR(d, 0) == 0 && FirstCR(d, 1) == |d|
  }

  lemma {:induction false} LastSemiSkip(d: string, i: nat)
    requires 1 <= i <= |d|
    ensures LastSemi(d, 0, i)
            == var p := LastSemi(d, 1, i); if p.Some? then p else if d[0] == ';' then Some(0) else None
  {
    if i > 1 && d[i - 1] != ';' {
      LastSemiSkip(d, i - 1);
    }
  }

  lemma NotHexLine(d: string)
    requires d != "" && !IsHexDigit(d[0])
    ensures ShiftsFit(d) && !AllHex(d)
  {
  }

  /** Skipping the first byte of a line only matters when that byte is a lone CR. */
  lemma SkipFirst(d: string)
    ensures if LoneCR(d) then ReadLine(d, 0, 0) == Malformed && ReadLine(d, 0, 1) == Open
            else ReadLine(d, 0, 0) == ReadLine(d, 0, 1)
  {
    hide ShiftsFit, AllHex, Lsd, LastSemi;
    var i := FirstCR(d, 1);
    if d != "" && i < |d| {
      LastSemiSkip(d, i);
      var e := SizeEnd(d, 1, i);
      if !IsHexDigit(d[0]) { NotHexLine(d[0..e]); }
    }
  }

  lemma ResumeTail(d: string, k: nat, from: nat)
    requires k <= |d| && k <= from
    ensures Decode(d, k, from) == Shift(k, Decode(d[k..], 0, from - k))
    ensures Ended(d, k, from) == Ended(d[k..], 0, from - k)
  {
    hide ReadLine, Decode, Ended;
    assert d == d[..k] + d[k..];
    DecodeShift(d[..k], d[k..], 0, from - k);
  }

  /** After any unfinished prefix of any input, decoding afresh from `read_len` with the rest appended
      gives what one decoding of the whole gives, unless `read_len` points at a lone CR; then the whole
      decodes with 0 and the resumed decoding reports -1. */
  lemma ResumeUnlessLoneCR(d: string, c: nat)
    requires c <= |d| && Unfinished(d[..c], 0, 0)
    ensures var o := Decode(d[..c], 0, 0);
            && o.readLen <= |d|
            && (Decode(d, 0, 0) == Prepend(o.body, Shift(o.readLen, Decode(d[o.readLen..], 0, 0)))
                <==> !(o.readLen > 0 && LoneCR(d[o.readLen..])))
  {
    hide ReadLine, Decode, Ended, LoneCR;
    var o := Decode(d[..c], 0, 0);
    DecodeCutResume(d, c, 0, 0);
    ReadLenGrows(d[..c], 0, 0);
    var from' := if o.readLen == 0 then 0 else o.readLen + 1;
    ResumeTail(d, o.readLen, from');
    var rest := d[o.readLen..];
    SkipFirst(rest);
    DecodeLine(rest, 0, 0);
    DecodeLine(rest, 0, 1);
  }

  lemma OneDigit(c: char)
    requires IsHexDigit(c)
    ensures ShiftsFit([c]) && AllHex([c]) && Lsd([c]) == DigitValue(c)
  {
    assert [c][1..] == [];
  }

  /** A chunk and then a CR, cut in front of that CR: the whole is decoded without error, and decoding the CR
      on its own is an error. */
  lemma LoneCRSplits()
    ensures var d := "1\r\na\r\n\r";
      && Unfinished(d[..6], 0, 0) && Decode(d[..6], 0, 0) == Result(0, "a", 6)
      && Decode(d, 0, 0) == Result(0, "a", 6) && Decode(d[6..], 0, 0) == Result(-1, "", 0)
  {
    var d := "1\r\na\r\n\r";
    var cut := d[..6];
    LoneLine(d);
    LoneLine(cut);
    hide ReadLine, Decode, Ended;
    DecodeLine(d, 0, 0);
    DecodeLine(cut, 0, 0);
    DecodeLine(d, 6, 7);
    DecodeLine(cut, 6, 7);
    DecodeLine("\r", 0, 0);
    CRAlone(d);
    CRAlone(cut);
    assert d[6..] == "\r" && d[3..4] == "a" && cut[3..4] == "a";
    assert "a" + "" == "a";
  }

  lemma LoneLine(d: string)
    requires |d| >= 2 && d[0] == '1' && d[1] == CR
    ensures ReadLine(d, 0, 0) == Size(1, 1)
  {
    hide ShiftsFit, AllHex, Lsd;
    FirstCRAt(d, 0, 1);
    NoSemi(d, 0, 1);
    OneDigit('1');
    assert d[0..1] == ['1'];
  }

  lemma CRAlone(d: string)
    requires 6 <= |d| <= 7
    ensures ReadLine(d, 6, 7) == Open && ReadLine("\r", 0, 0) == Malformed
  {
  }

  lemma {:induction false} EndedIsComplete(d: string, s: nat, from: nat)
    requires s <= from && Ended(d, s, from)
    ensures var o := Decode(d, s, from); o.Result? && o.ret == 0
    decreases |d| - s
  {
    hide ReadLine, Decode, Ended;
    DecodeLine(d, s, from);
    var r := ReadLine(d, s, from);
    if GoesOn(d, r) { EndedIsComplete(d, After(r), After(r) + 1); }
  }

  /** A complete stream may be cut at any byte before its end: the prefix is decoded without error, and
      decoding the rest from `read_len` completes with the same body and the same total length. */
  lemma CutAnywhere(d: string, c: nat)
    requires Ended(d, 0, 0) && Decode(d, 0, 0).Result? && c < Decode(d, 0, 0).readLen + 2 <= |d|
    ensures Unfinished(d[..c], 0, 0)
    ensures var o, whole := Decode(d[..c], 0, 0), Decode(d, 0, 0);
            && o.readLen <= c
            && var rest := Decode(d[o.readLen..], 0, 0);
            && Ended(d[o.readLen..], 0, 0) && rest.Result? && rest.ret == 0
            && o.body + rest.body == whole.body && o.readLen + rest.readLen == whole.readLen
  {
    hide ReadLine, Decode, Ended, LoneCR;
    EndedIsComplete(d, 0, 0);
    ReadLenGrows(d[..c], 0, 0);
    if !Unfinished(d[..c], 0, 0) { DecodeCutFinal(d, c, 0, 0); }
    var o := Decode(d[..c], 0, 0);
    DecodeCutResume(d, c, 0, 0);
    ResumeTail(d, o.readLen, if o.readLen == 0 then 0 else o.readLen + 1);
    var rest := d[o.readLen..];
    SkipFirst(rest);
    DecodeLine(rest, 0, 0);
    DecodeLine(rest, 0, 1);
    EndedIsComplete(rest, 0, 0);
  }

  /** The same inside one buffer: the first call moves bodies over encoded bytes, the second call starts
      at its `read_len` in the buffer the first one left, and together they return the whole body. */
  lemma CutInPlace(b0: seq<char>, b1: seq<char>, b2: seq<char>, data: nat, dataLen: nat, c: nat,
                   ret1: int, len1: nat, read1: nat, ret2: int, len2: nat, read2: nat)
    requires c <= dataLen && data + dataLen <= |b0|
    requires var d := b0[data..data + dataLen];
             Ended(d, 0, 0) && Decode(d, 0, 0).Result? && c < Decode(d, 0, 0).readLen + 2 <= |d|
    requires Decoded(b1, b0, data, c, ret1, len1, read1)
    requires Decoded(b2, b1, data + read1, dataLen - read1, ret2, len2, read2)
    ensures ret1 >= 0
    ensures Decode(b0[data..data + dataLen], 0, 0)
            == Result(ret2, b2[data..data + len1] + b2[data + read1..data + read1 + len2], read1 + read2)
  {
    hide Decode, Ended;
    var d := b0[data..data + dataLen];
    CutAnywhere(d, c);
    assert d[..c] == b0[data..data + c];
    SuffixUntouched(b1, b0, data, dataLen, len1, read1);
    assert b1[data + read1..data + read1 + (dataLen - read1)] == d[read1..];
    EndedIsComplete(d, 0, 0);
    assert b2[data..data + len1] == b1[data..data + len1];
  }

  lemma SuffixUntouched(b: seq<char>, b0: seq<char>, data: nat, dataLen: nat, bodyLen: nat, from: nat)
    requires Outside(b, b0, data, data + bodyLen) && bodyLen <= from <= dataLen && data + dataLen <= |b|
    ensures b[data + from..data + dataLen] == b0[data..data + dataLen][from..]
  {
    var u, v := b[data + from..data + dataLen], b0[data..data + dataLen][from..];
    assert forall k :: 0 <= k < dataLen - from ==> u[k] == b[data + from + k] && v[k] == b0[data + from + k];
  }

  // ---------------------------------------------------------------- printing chunks

  /** A chunk as written on the wire: its size digits, an optional extension and its payload. */
  datatype Chunk = Chunk(size: string, ext: Option<string>, payload: string)

  /** The size digits, least significant first, spell the payload's length; the extension is one. */
  predicate WellFormed(c: Chunk) {
    && c.size != "" && ShiftsFit(c.size) && AllHex(c.size) && Lsd(c.size) == |c.payload|
    && (c.ext.Some? ==> CR !in c.ext.value && ';' !in c.ext.value)
  }

  function Head(c: Chunk): string {
    c.size + if c.ext.Some? then ";" + c.ext.value else ""
  }

  function PrintChunk(c: Chunk): string {
    Head(c) + CRLF + c.payload + CRLF
  }

  function PrintAll(cs: seq<Chunk>, last: Chunk): string {
    if cs == [] then PrintChunk(last) else PrintChunk(cs[0]) + PrintAll(cs[1..], last)
  }

  function Bodies(cs: seq<Chunk>): string {
    if cs == [] then "" else cs[0].payload + Bodies(cs[1..])
  }

  lemma {:induction false} FirstCRAt(d: string, i: nat, j: nat)
    requires i <= j < |d| && d[j] == CR && forall k :: i <= k < j ==> d[k] != CR
    ensures FirstCR(d, i) == j
    decreases j - i
  {
    if i == j {
    } else {
      FirstCRAt(d, i + 1, j);
    }
  }

  lemma {:induction false} LastSemiAt(d: string, i: nat, p: nat, j: nat)
    requires i <= p < j <= |d| && d[p] == ';' && forall k :: p < k < j ==> d[k] != ';'
    ensures LastSemi(d, i, j) == Some(p)
    decreases j
  {
    if p < j - 1 { LastSemiAt(d, i, p, j - 1); }
  }

  lemma {:induction false} NoSemi(d: string, i: nat, j: nat)
    requires i <= j <= |d| && forall k :: i <= k < j ==> d[k] != ';'
    ensures LastSemi(d, i, j) == None
    decreases j
  {
    if i == j {
    } else {
      NoSemi(d, i, j - 1);
    }
  }

  lemma HeadBytes(c: Chunk, d: string)
    requires WellFormed(c) && PrintChunk(c) <= d
    ensures forall k :: 0 <= k < |c.size| ==> d[k] == c.size[k] && IsHexDigit(d[k])
    ensures forall k :: |c.size| < k < |Head(c)| ==> d[k] != CR && d[k] != ';'
    ensures |c.size| < |Head(c)| ==> d[|c.size|] == ';'
    ensures d[|Head(c)|] == CR
    ensures d[..|c.size|] == c.size
    ensures |Head(c)| == |c.size| <==> c.ext.None?
  {
    hide ShiftsFit, Lsd;
    assert forall k :: 0 <= k < |PrintChunk(c)| ==> d[k] == PrintChunk(c)[k];
    assert forall k :: 0 <= k < |Head(c)| ==> PrintChunk(c)[k] == Head(c)[k];
    if c.ext.Some? {
      forall k | |c.size| < k < |Head(c)| ensures d[k] != CR && d[k] != ';' {
        assert Head(c)[k] == c.ext.value[k - |c.size| - 1];
      }
    }
  }

  /** A printed chunk's line reads as its payload's length, from its first byte or the next. */
  lemma HeadReads(c: Chunk, d: string, from: nat)
    requires WellFormed(c) && PrintChunk(c) <= d && from <= 1
    ensures ReadLine(d, 0, from) == Size(|Head(c)|, |c.payload|)
  {
    hide ShiftsFit, Lsd, FirstCR, LastSemi, Head;
    HeadBytes(c, d);
    FirstCRAt(d, from, |Head(c)|);
    if |Head(c)| == |c.size| {
      NoSemi(d, from, |Head(c)|);
    } else {
      LastSemiAt(d, from, |c.size|, |Head(c)|);
    }
    assert d[0..|c.size|] == c.size;
  }

  lemma PayloadPrinted(c: Chunk, d: string)
    requires PrintChunk(c) <= d
    ensures d[|Head(c)| + 2..|Head(c)| + 2 + |c.payload|] == c.payload
    ensures |PrintChunk(c)| == |Head(c)| + 2 + |c.payload| + 2
  {
    hide Head;
    assert d[..|PrintChunk(c)|] == PrintChunk(c);
    assert PrintChunk(c)[|Head(c)| + 2..|Head(c)| + 2 + |c.payload|] == c.payload;
  }

  /** Decoding undoes printing: for every list of non-empty chunks and a zero-size chunk, with whatever
      follows, the decoder returns 0, the concatenated payloads and the length up to just past the
      zero-size line; the stream has then ended. */
  lemma {:induction false} RoundTrip(cs: seq<Chunk>, last: Chunk, rest: string, from: nat)
    requires from <= 1
    requires forall c :: c in cs ==> WellFormed(c) && c.payload != ""
    requires WellFormed(last) && last.payload == ""
    ensures var d := PrintAll(cs, last) + rest;
            && Decode(d, 0, from) == Result(0, Bodies(cs), |PrintAll(cs, last)| - 2)
            && Ended(d, 0, from)
    decreases |cs|
  {
    hide ReadLine, Decode, Ended, WellFormed, PrintChunk;
    var d := PrintAll(cs, last) + rest;
    DecodeLine(d, 0, from);
    if cs == [] {
      HeadReads(last, d, from);
      PayloadPrinted(last, d);
    } else {
      var c, tail := cs[0], PrintAll(cs[1..], last) + rest;
      assert d == PrintChunk(c) + tail;
      HeadReads(c, d, from);
      PayloadPrinted(c, d);
      var k := |PrintChunk(c)|;
      DecodeShift(PrintChunk(c), tail, 0, 1);
      RoundTrip(cs[1..], last, rest, 1);
      assert Decode(d, k, k + 1) == Shift(k, Decode(tail, 0, 1));
    }
  }

  /** Every size below 2^31 can be spelled, so every list of payloads of such sizes can be sent. */
  lemma Spellable(payload: string, ext: Option<string>)
    requires |payload| < 0x8000_0000 && (ext.Some? ==> CR !in ext.value && ';' !in ext.value)
    ensures WellFormed(Chunk(Print(|payload|), ext, payload))
    ensures WellFormed(Chunk(Upper(Print(|payload|)), ext, payload))
  {
    PrintThenParse(|payload|);
    CaseDoesNotMatter(Print(|payload|));
  }
}
