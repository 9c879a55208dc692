/** The line scan shared by the request-line and header parsers. */
module HttpScan {
  const CR := '\r'
  const LF := '\n'
  const CRLF := "\r\n"

  /** No line end before the end of the data; the cursor steps past the end on a final CR; or the LF. */
  datatype Scan = Missing | PastEnd | At(lf: nat)

  /** The loop `if(*p == '\r' && ++p != end && *p == '\n')`: a CR that is not followed by LF takes the
      byte after it along, so CR CR LF is not a line end. */
  function FindLine(d: string, p: nat): (r: Scan)
    requires p <= |d|
    ensures r.At? ==> p + 1 <= r.lf < |d| && d[r.lf] == LF && d[r.lf - 1] == CR
    decreases |d| - p
  {
    if p == |d| then Missing
    else if d[p] != CR then FindLine(d, p + 1)
    else if p + 1 == |d| then PastEnd
    else if d[p + 1] == LF then At(p + 1)
    else FindLine(d, p + 2)
  }

  /** A line end once found stays where it is, whatever follows. */
  lemma {:induction false} FindLineExtend(d: string, e: string, p: nat)
    requires p <= |d| && FindLine(d, p).At?
    ensures FindLine(d + e, p) == FindLine(d, p)
    decreases |d| - p
  {
    if d[p] != CR {
      FindLineExtend(d, e, p + 1);
    } else if d[p + 1] != LF {
      FindLineExtend(d, e, p + 2);
    }
  }

  /** Before its LF has arrived a line end is not found, and only a final CR steps past the end. */
  lemma {:induction false} FindLinePrefix(d: string, c: nat, p: nat)
    requires p <= c <= |d| && FindLine(d, p).At? && c <= FindLine(d, p).lf
    ensures !FindLine(d[..c], p).At?
    ensures FindLine(d[..c], p).PastEnd? ==> c > p && d[c - 1] == CR
    decreases c - p
  {
    if p < c {
      if d[p] != CR {
        FindLinePrefix(d, c, p + 1);
      } else if p + 1 < c && d[p + 1] != LF {
        FindLinePrefix(d, c, p + 2);
      }
    }
  }

  lemma {:induction false} FindLineShift(a: string, d: string, p: nat)
    requires p <= |d|
    ensures FindLine(a + d, |a| + p) == var r := FindLine(d, p); if r.At? then At(|a| + r.lf) else r
    decreases |d| - p
  {
    if p < |d| {
      if d[p] != CR {
        FindLineShift(a, d, p + 1);
      } else if p + 1 < |d| && d[p + 1] != LF {
        FindLineShift(a, d, p + 2);
      }
    }
  }

  /** With no CR before it, the first CRLF is the line end. */
  lemma {:induction false} FindLineAt(d: string, p: nat, j: nat)
    requires p <= j && j + 1 < |d| && d[j] == CR && d[j + 1] == LF
    requires forall k :: p <= k < j ==> d[k] != CR
    ensures FindLine(d, p) == At(j + 1)
    decreases j - p
  {
    if p < j {
      FindLineAt(d, p + 1, j);
    }
  }

  lemma {:induction false} FindLineSkip(d: string, p: nat, j: nat)
    requires p <= j <= |d| && forall k :: p <= k < j ==> d[k] != CR
    ensures FindLine(d, p) == FindLine(d, j)
    decreases j - p
  {
    if p < j {
      FindLineSkip(d, p + 1, j);
    }
  }

  /** The first `c` at or after `i`, or the end of `d`. */
  function FirstIndex(d: string, c: char, i: nat): (j: nat)
    requires i <= |d|
    ensures i <= j <= |d| && (j < |d| ==> d[j] == c) && forall k :: i <= k < j ==> d[k] != c
    decreases |d| - i
  {
    if i == |d| || d[i] == c then i else FirstIndex(d, c, i + 1)
  }

  lemma {:induction false} FirstIndexAt(d: string, c: char, i: nat, j: nat)
    requires i <= j <= |d| && (j < |d| ==> d[j] == c) && forall k :: i <= k < j ==> d[k] != c
    ensures FirstIndex(d, c, i) == j
    decreases j - i
  {
    if i < j {
      FirstIndexAt(d, c, i + 1, j);
    }
  }

  // ---------------------------------------------------------------- where the scan ends, in terms of the bytes

  /** The CRs directly before `i`, back to `lo`, are odd in number. */
  predicate OddRun(d: string, lo: nat, i: nat)
    requires i <= |d|
    decreases i
  {
    lo < i && d[i - 1] == CR && !OddRun(d, lo, i - 1)
  }

  /** An LF behind an odd run of CRs: a CR LF whose CR was not taken along by a CR before it. */
  predicate LineEndAt(d: string, lo: nat, j: nat) {
    lo <= j < |d| && d[j] == LF && OddRun(d, lo, j)
  }

  lemma {:induction false} OddRunAfterOther(d: string, lo: nat, i: nat)
    requires lo < i <= |d| && d[lo] != CR
    ensures OddRun(d, lo, i) == OddRun(d, lo + 1, i)
    decreases i
  {
    if i == lo + 1 {
    } else {
      OddRunAfterOther(d, lo, i - 1);
    }
  }

  lemma {:induction false} OddRunAfterPair(d: string, lo: nat, i: nat)
    requires lo + 2 <= i <= |d| && d[lo] == CR
    ensures OddRun(d, lo, i) == OddRun(d, lo + 2, i)
    decreases i
  {
    if i == lo + 2 {
      assert !OddRun(d, lo, lo) && OddRun(d, lo, lo + 1);
    } else {
      OddRunAfterPair(d, lo, i - 1);
    }
  }

  ghost predicate HasLineEnd(d: string, lo: nat) {
    exists j :: LineEndAt(d, lo, j)
  }

  /** Skipping bytes at the front that hold no line end, and leave the runs behind them as they are. */
  lemma SkipKeeps(d: string, lo: nat, hi: nat)
    requires lo <= hi <= |d| && forall i :: hi <= i <= |d| ==> OddRun(d, lo, i) == OddRun(d, hi, i)
    requires forall j :: lo <= j < hi ==> !LineEndAt(d, lo, j)
    ensures HasLineEnd(d, lo) <==> HasLineEnd(d, hi)
  {
    hide OddRun;
    if HasLineEnd(d, lo) {
      var j :| LineEndAt(d, lo, j);
      assert LineEndAt(d, hi, j);
    }
    if HasLineEnd(d, hi) {
      var j :| LineEndAt(d, hi, j);
      assert LineEndAt(d, lo, j);
    }
  }

  /** The scan finds a line end exactly when there is an LF behind an odd run of CRs, and steps past the end
      exactly when there is none and the data end in an odd run of CRs. */
  lemma {:induction false} FindLineIff(d: string, p: nat)
    requires p <= |d|
    ensures FindLine(d, p).At? <==> HasLineEnd(d, p)
    ensures FindLine(d, p).PastEnd? <==> OddRun(d, p, |d|) && !HasLineEnd(d, p)
    decreases |d| - p
  {
    if p == |d| {
    } else if d[p] != CR {
      FindLineIff(d, p + 1);
      forall i | p + 1 <= i <= |d| ensures OddRun(d, p, i) == OddRun(d, p + 1, i) {
        OddRunAfterOther(d, p, i);
      }
      assert !OddRun(d, p, p);
      SkipKeeps(d, p, p + 1);
    } else if p + 1 == |d| {
      assert OddRun(d, p, p + 1) && !OddRun(d, p, p);
    } else if d[p + 1] == LF {
      assert OddRun(d, p, p + 1) && LineEndAt(d, p, p + 1);
    } else {
      FindLineIff(d, p + 2);
      forall i | p + 2 <= i <= |d| ensures OddRun(d, p, i) == OddRun(d, p + 2, i) {
        OddRunAfterPair(d, p, i);
      }
      assert !OddRun(d, p, p);
      SkipKeeps(d, p, p + 2);
    }
  }
}
