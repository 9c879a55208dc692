/** Every outcome of the chunked decoder, in terms of the bytes: which lines it passes, where it stops and why. */
module ChunkedVerdicts {
  import opened Wrappers
  import opened Hex
  import opened HttpScan
  import opened Chunked
  import opened ChunkedLaws

  // ---------------------------------------------------------------- one line

  /** A complete size line: scanned from `from`, it ends at the CR at `cr`, and its digits end at its last ';' or,
      without one, at the CR. */
  predicate SizeLine(d: string, from: nat, cr: nat, e: nat) {
    && from <= e <= cr < |d| && d[cr] == CR
    && (forall k :: from <= k < cr ==> d[k] != CR)
    && (e < cr ==> d[e] == ';')
    && (forall k :: e < k < cr ==> d[k] != ';')
    && (e == cr ==> forall k :: from <= k < cr ==> d[k] != ';')
  }

  /** The digits spell `n`. */
  predicate Spells(d: string, s: nat, e: nat, n: nat)
    requires s <= e <= |d|
  {
    s < e && ShiftsFit(d[s..e]) && AllHex(d[s..e]) && Lsd(d[s..e]) == n
  }

  lemma SizeLineIs(d: string, s: nat, from: nat, cr: nat, e: nat)
    requires s <= from && SizeLine(d, from, cr, e)
    ensures ReadLine(d, s, from) ==
      if e == s then Malformed
      else if !ShiftsFit(d[s..e]) then Overflowing
      else if !AllHex(d[s..e]) then Malformed
      else Size(cr, Lsd(d[s..e]))
  {
    hide ShiftsFit, AllHex, Lsd, FirstCR, LastSemi;
    FirstCRAt(d, from, cr);
    if e < cr {
      LastSemiAt(d, from, e, cr);
    } else {
      NoSemi(d, from, cr);
    }
  }

  lemma NoSizeLine(d: string, from: nat)
    requires forall k :: from <= k < |d| ==> d[k] != CR
    ensures forall cr: nat, e: nat :: !SizeLine(d, from, cr, e)
  {
  }

  lemma OpenIs(d: string, s: nat, from: nat)
    requires s <= from
    ensures (forall k :: from <= k < |d| ==> d[k] != CR) <==> ReadLine(d, s, from) == Open
    ensures ReadLine(d, s, from) != Open ==> exists cr: nat, e: nat :: SizeLine(d, from, cr, e)
  {
    var cr := FirstCR(d, from);
    if cr < |d| {
      var e := SizeEnd(d, from, cr);
      assert SizeLine(d, from, cr, e);
    }
  }

  // ---------------------------------------------------------------- a whole input

  /** The line at `s` heads a complete chunk of `n` bytes, which is not the last. */
  predicate Passes(d: string, s: nat, from: nat, cr: nat, e: nat, n: nat)
    requires s <= from
  {
    SizeLine(d, from, cr, e) && Spells(d, s, e, n) && n > 0 && cr + n + 4 <= |d|
  }

  /** From the line at `s` the decoder gets to the line at `t`, with `body` copied on the way. */
  ghost predicate Arrives(d: string, s: nat, from: nat, body: string, t: nat, tf: nat)
    requires s <= from
    decreases |d| - s
  {
    || (t == s && tf == from && body == "")
    || exists cr: nat, e: nat, n: nat ::
         && Passes(d, s, from, cr, e, n) && |body| >= n && body[..n] == d[cr + 2..cr + 2 + n]
         && Arrives(d, cr + n + 4, cr + n + 5, body[n..], t, tf)
  }

  /** At the line at `t` it stops with outcome `o`. */
  ghost predicate StopsWith(d: string, t: nat, tf: nat, body: string, o: Outcome)
    requires t <= tf
  {
    || ((forall k :: tf <= k < |d| ==> d[k] != CR) && o == Result(0, body, t))
    || exists cr: nat, e: nat :: SizeLine(d, tf, cr, e) && StopsOn(d, t, cr, e, body, o)
  }

  /** A complete line on which it stops: no size or a wrong one, digits that overflow, a chunk that is not all there,
      or the size zero. */
  predicate StopsOn(d: string, t: nat, cr: nat, e: nat, body: string, o: Outcome)
    requires t <= e <= cr < |d|
  {
    || ((t == e || (ShiftsFit(d[t..e]) && !AllHex(d[t..e]))) && o == Result(-1, body, t))
    || (t < e && !ShiftsFit(d[t..e]) && o == Undefined)
    || (t < e && ShiftsFit(d[t..e]) && AllHex(d[t..e])
        && var n := Lsd(d[t..e]);
           if cr + n + 4 > |d| then o == Result(1, body, t) else n == 0 && o == Result(0, body, cr + 2))
  }

  lemma PassesLine(d: string, s: nat, from: nat, cr: nat, e: nat, n: nat)
    requires s <= from && Passes(d, s, from, cr, e, n)
    ensures n > 0 && s < cr + n + 4 <= |d| && ReadLine(d, s, from) == Size(cr, n)
  {
    SizeLineIs(d, s, from, cr, e);
    hide ReadLine, ShiftsFit, AllHex, Lsd;
  }

  lemma ArrivesNext(d: string, s: nat, from: nat, body: string, t: nat, tf: nat) returns (cr: nat, e: nat, n: nat)
    requires s <= from && Arrives(d, s, from, body, t, tf) && !(t == s && tf == from && body == "")
    ensures Passes(d, s, from, cr, e, n) && s < cr + n + 4 <= |d|
    ensures |body| >= n && body[..n] == d[cr + 2..cr + 2 + n]
    ensures Arrives(d, cr + n + 4, cr + n + 5, body[n..], t, tf)
  {
    cr, e, n :| Passes(d, s, from, cr, e, n) && |body| >= n && body[..n] == d[cr + 2..cr + 2 + n]
                && Arrives(d, cr + n + 4, cr + n + 5, body[n..], t, tf);
    hide Arrives;
    PassesLine(d, s, from, cr, e, n);
  }

  lemma ArrivesCons(d: string, s: nat, from: nat, cr: nat, e: nat, n: nat, rest: string, t: nat, tf: nat)
    requires s <= from && Passes(d, s, from, cr, e, n)
    requires Arrives(d, cr + n + 4, cr + n + 5, rest, t, tf)
    ensures Arrives(d, s, from, d[cr + 2..cr + 2 + n] + rest, t, tf)
  {
    var body := d[cr + 2..cr + 2 + n] + rest;
    assert body[n..] == rest && body[..n] == d[cr + 2..cr + 2 + n];
  }

  lemma StopIs(d: string, t: nat, tf: nat, body: string, o: Outcome)
    requires t <= tf && StopsWith(d, t, tf, body, o)
    ensures Prepend(body, Decode(d, t, tf)) == o
  {
    hide Decode, Ended, ReadLine;
    DecodeLine(d, t, tf);
    assert body + "" == body;
    if forall k :: tf <= k < |d| ==> d[k] != CR {
      OpenIs(d, t, tf);
      NoSizeLine(d, tf);
    } else {
      var cr: nat, e: nat :| SizeLine(d, tf, cr, e) && StopsOn(d, t, cr, e, body, o);
      SizeLineIs(d, t, tf, cr, e);
    }
  }

  /** If it arrives at a line and stops there with `o`, then `o` is what it returns. */
  lemma {:induction false} ArrivalDecides(d: string, s: nat, from: nat, pre: string, body: string, t: nat, tf: nat,
                                          o: Outcome)
    requires s <= from && Arrives(d, s, from, body, t, tf) && t <= tf && StopsWith(d, t, tf, pre + body, o)
    ensures Prepend(pre, Decode(d, s, from)) == o
    decreases |d| - s
  {
    hide Decode, Ended, ReadLine, StopsWith, Arrives, Passes;
    if t == s && tf == from && body == "" {
      assert pre + "" == pre;
      StopIs(d, t, tf, pre, o);
    } else {
      var cr, e, n := ArrivesNext(d, s, from, body, t, tf);
      assert pre + body == (pre + body[..n]) + body[n..];
      ArrivalDecides(d, cr + n + 4, cr + n + 5, pre + body[..n], body[n..], t, tf, o);
      PassesLine(d, s, from, cr, e, n);
      DecodeLine(d, s, from);
      PrependPrepend(pre, body[..n], Decode(d, cr + n + 4, cr + n + 5));
    }
  }

  lemma LineStopsWith(d: string, s: nat, from: nat)
    requires s <= from && !GoesOn(d, ReadLine(d, s, from))
    ensures StopsWith(d, s, from, "", Decode(d, s, from))
  {
    hide Decode, Ended, ReadLine, Lsd, AllHex, ShiftsFit;
    OpenIs(d, s, from);
    DecodeLine(d, s, from);
    if ReadLine(d, s, from) != Open {
      var cr: nat, e: nat :| SizeLine(d, from, cr, e);
      SizeLineIs(d, s, from, cr, e);
      assert StopsOn(d, s, cr, e, "", Decode(d, s, from));
    }
  }

  lemma StopPrepends(d: string, t: nat, tf: nat, a: string, b: string, o: Outcome)
    requires t <= tf && StopsWith(d, t, tf, b, o)
    ensures StopsWith(d, t, tf, a + b, Prepend(a, o))
  {
    if !(forall k :: tf <= k < |d| ==> d[k] != CR) {
      var cr: nat, e: nat :| SizeLine(d, tf, cr, e) && StopsOn(d, t, cr, e, b, o);
      assert StopsOn(d, t, cr, e, a + b, Prepend(a, o));
    }
  }

  /** It always arrives somewhere and stops there with what it returns. */
  lemma {:induction false} SomeArrival(d: string, s: nat, from: nat) returns (body: string, t: nat, tf: nat)
    requires s <= from
    ensures Arrives(d, s, from, body, t, tf) && t <= tf && StopsWith(d, t, tf, body, Decode(d, s, from))
    decreases |d| - s
  {
    hide Decode, Ended, ReadLine, StopsWith, Arrives;
    var r := ReadLine(d, s, from);
    if GoesOn(d, r) {
      var rest;
      rest, t, tf := SomeArrival(d, After(r), After(r) + 1);
      var cr, e := PassedLine(d, s, from);
      DecodeLine(d, s, from);
      StopPrepends(d, t, tf, Payload(d, r), rest, Decode(d, After(r), After(r) + 1));
      ArrivesCons(d, s, from, cr, e, r.n, rest, t, tf);
      body := Payload(d, r) + rest;
    } else {
      body, t, tf := "", s, from;
      LineStopsWith(d, s, from);
      assert Arrives(d, s, from, "", s, from) by {
        ArrivesHere(d, s, from);
      }
    }
  }

  lemma ArrivesHere(d: string, s: nat, from: nat)
    requires s <= from
    ensures Arrives(d, s, from, "", s, from)
  {
  }

  lemma PassedLine(d: string, s: nat, from: nat) returns (cr: nat, e: nat)
    requires s <= from && GoesOn(d, ReadLine(d, s, from))
    ensures var r := ReadLine(d, s, from); cr == r.cr && Passes(d, s, from, cr, e, r.n)
  {
    hide ReadLine, ShiftsFit, AllHex, Lsd;
    OpenIs(d, s, from);
    cr, e :| SizeLine(d, from, cr, e);
    SizeLineIs(d, s, from, cr, e);
  }

  /** Every outcome: the decoder returns `o` exactly when it arrives at a line, over complete chunks only, at which
      it stops with `o`. */
  lemma OutcomeIff(d: string, o: Outcome)
    ensures Decode(d, 0, 0) == o <==>
      exists body, t: nat, tf: nat :: Arrives(d, 0, 0, body, t, tf) && t <= tf && StopsWith(d, t, tf, body, o)
  {
    hide Decode, Arrives, StopsWith;
    var body, t, tf := SomeArrival(d, 0, 0);
    if exists b, u: nat, uf: nat :: Arrives(d, 0, 0, b, u, uf) && u <= uf && StopsWith(d, u, uf, b, o) {
      var b, u: nat, uf: nat :| Arrives(d, 0, 0, b, u, uf) && u <= uf && StopsWith(d, u, uf, b, o);
      assert "" + b == b;
      ArrivalDecides(d, 0, 0, "", b, u, uf, o);
      PrependEmpty(Decode(d, 0, 0));
    }
  }

  /** The decoder's arithmetic is undefined exactly when it arrives at a complete size line whose leading hex digits
      do not fit the shift. */
  lemma UndefinedIff(d: string)
    ensures Decode(d, 0, 0) == Undefined <==>
      exists body, t: nat, tf: nat, cr: nat, e: nat ::
        && Arrives(d, 0, 0, body, t, tf) && t <= tf
        && SizeLine(d, tf, cr, e) && t < e && !ShiftsFit(d[t..e])
  {
    hide Decode, Arrives, ShiftsFit, AllHex, Lsd;
    if Decode(d, 0, 0) == Undefined {
      var body, t, tf := SomeArrival(d, 0, 0);
      var cr: nat, e: nat :| SizeLine(d, tf, cr, e) && StopsOn(d, t, cr, e, body, Undefined);
    }
    if exists body, t: nat, tf: nat, cr: nat, e: nat ::
        Arrives(d, 0, 0, body, t, tf) && t <= tf && SizeLine(d, tf, cr, e) && t < e && !ShiftsFit(d[t..e])
    {
      var body, t: nat, tf: nat, cr: nat, e: nat :|
        Arrives(d, 0, 0, body, t, tf) && t <= tf && SizeLine(d, tf, cr, e) && t < e && !ShiftsFit(d[t..e]);
      assert StopsOn(d, t, cr, e, body, Undefined);
      assert StopsWith(d, t, tf, body, Undefined);
      OutcomeIff(d, Undefined);
    }
  }

  // ---------------------------------------------------------------- a wrong size behind good chunks

  function PrintChunks(cs: seq<Chunk>): string {
    if cs == [] then "" else PrintChunk(cs[0]) + PrintChunks(cs[1..])
  }

  /** No size, or one that is not a number although what digits it starts with fit. */
  predicate WrongSize(size: string) {
    && CR !in size && ';' !in size
    && (size == "" || (ShiftsFit(size) && !AllHex(size)))
  }

  /** Whether the scan of the line sees a CR: behind a chunk it has already passed the line's first byte. */
  predicate Seen(size: string, rest: string, from: nat) {
    size != "" || from == 0 || CR in rest
  }

  lemma WrongLine(size: string, rest: string, from: nat)
    requires from <= 1 && WrongSize(size)
    ensures var d := size + [CR] + rest;
      ReadLine(d, 0, from) == if Seen(size, rest, from) then Malformed else Open
  {
    var d := size + [CR] + rest;
    hide ShiftsFit, AllHex, Lsd, ReadLine;
    if size != "" {
      assert SizeLine(d, from, |size|, |size|);
      SizeLineIs(d, 0, from, |size|, |size|);
      assert d[0..|size|] == size;
    } else if from == 0 {
      assert SizeLine(d, 0, 0, 0);
      SizeLineIs(d, 0, 0, 0, 0);
    } else {
      OpenIs(d, 0, 1);
      assert forall k :: 1 <= k < |d| ==> d[k] == rest[k - 1];
      if CR in rest {
        var j :| 0 <= j < |rest| && rest[j] == CR;
        assert d[j + 1] == CR;
        var cr: nat, e: nat :| SizeLine(d, 1, cr, e);
        SizeLineIs(d, 0, 1, cr, e);
        assert d[0..e][0] == CR;
        NotHexLine(d[0..e]);
      }
    }
  }

  /** Behind any good chunks a wrong size is reported: -1, the chunks' bodies, and where the line starts. Only an
      empty size behind a chunk with no further CR is taken for a line still to come. */
  lemma {:induction false} WrongSizeReported(cs: seq<Chunk>, size: string, rest: string, from: nat)
    requires from <= 1 && WrongSize(size)
    requires forall c :: c in cs ==> WellFormed(c) && c.payload != ""
    ensures var d := PrintChunks(cs) + (size + [CR] + rest);
      Decode(d, 0, from)
      == Result(if Seen(size, rest, if cs == [] then from else 1) then -1 else 0, Bodies(cs), |PrintChunks(cs)|)
    decreases |cs|
  {
    hide ReadLine, Decode, Ended, WellFormed, PrintChunk, Seen, WrongSize;
    var line := size + [CR] + rest;
    var d := PrintChunks(cs) + line;
    DecodeLine(d, 0, from);
    if cs == [] {
      assert d == line;
      WrongLine(size, rest, from);
    } else {
      var c, tail := cs[0], PrintChunks(cs[1..]) + line;
      assert d == PrintChunk(c) + tail;
      HeadReads(c, d, from);
      PayloadPrinted(c, d);
      DecodeShift(PrintChunk(c), tail, 0, 1);
      WrongSizeReported(cs[1..], size, rest, 1);
    }
  }

  /** `xyz` is no size. */
  lemma LettersRejected()
    ensures Decode("xyz\r\n", 0, 0) == Result(-1, "", 0)
  {
    assert WrongSize("xyz");
    WrongSizeReported([], "xyz", "\n", 0);
    assert "" + ("xyz" + [CR] + "\n") == "xyz\r\n";
    hide Decode;
  }
}
