/** `http_parse_header`: what it makes of a block of header lines.

    The functions describe the parser on the bytes it is given, line by line; the in-place loop is in
    module HeaderParser. A field's `text` is what the parser has gathered for its value. `debt` counts
    the blanks of an all-blank value: the parser lets such a value start at the line's CR and end after
    the colon, so its length is `|text| - debt`, negative until folded lines outgrow it. */
module Headers {
  import opened Wrappers
  import opened HttpScan

  datatype Field = Field(name: string, text: string, debt: nat)

  /** `Overrun` is a scan that leaves the buffer; else the return value, the fields and read_len. */
  datatype Outcome = Overrun | Parsed(ret: int, fields: seq<Field>, readLen: nat)

  /** A line's first ':' and the LF of the first line end behind it. */
  datatype Line = Line(colon: nat, lf: nat)

  /** `token_char_map`: the token characters of section 3.2.6 of RFC 7230. */
  predicate IsToken(c: char) {
    'A' <= c <= 'Z' || 'a' <= c <= 'z' || '0' <= c <= '9'
    || c in {'!', '#', '$', '%', '&', '\'', '*', '+', '-', '.', '^', '_', '`', '|', '~'}
  }

  predicate AllToken(s: string) {
    forall k :: 0 <= k < |s| ==> IsToken(s[k])
  }

  predicate Blank(c: char) {
    c == ' ' || c == '\t'
  }

  /** The line at the start of `rest`: the scan has no end check, so it needs a ':' and then a CRLF. */
  function ReadLine(rest: string): (l: Option<Line>)
    ensures l.Some? ==>
              && l.value.colon + 2 <= l.value.lf < |rest| && rest[l.value.colon] == ':'
              && rest[l.value.lf - 1] == CR && rest[l.value.lf] == LF
              && forall k :: 0 <= k < l.value.colon ==> rest[k] != ':'
  {
    var colon := FirstIndex(rest, ':', 0);
    if colon == |rest| then None
    else
      var r := FindLine(rest, colon);
      if r.At? then Some(Line(colon, r.lf)) else None
  }

  /** The first non-blank at or after `i`. */
  function SkipBlanks(d: string, i: nat): (v: nat)
    requires i <= |d|
    ensures i <= v <= |d| && (forall k :: i <= k < v ==> Blank(d[k])) && (v < |d| ==> !Blank(d[v]))
    decreases |d| - i
  {
    if i < |d| && Blank(d[i]) then SkipBlanks(d, i + 1) else i
  }

  /** The last non-blank at or before `j`, given one at `lo`. */
  function LastNonBlank(d: string, lo: nat, j: nat): (t: nat)
    requires lo <= j < |d| && !Blank(d[lo])
    ensures lo <= t <= j && !Blank(d[t]) && forall k :: t < k <= j ==> Blank(d[k])
    decreases j
  {
    if Blank(d[j]) then LastNonBlank(d, lo, j - 1) else j
  }

  /** Where the value starts, and one past its last non-blank. */
  function ValueStart(rest: string, l: Line): (v: nat)
    requires ReadLine(rest) == Some(l)
    ensures l.colon < v < l.lf
  {
    SkipBlanks(rest, l.colon + 1)
  }

  function ValueEnd(rest: string, l: Line): (e: nat)
    requires ReadLine(rest) == Some(l)
    ensures l.colon < e < l.lf
  {
    LastNonBlank(rest, l.colon, l.lf - 2) + 1
  }

  function FieldOf(rest: string, l: Line): Field
    requires ReadLine(rest) == Some(l)
  {
    var v, e := ValueStart(rest, l), ValueEnd(rest, l);
    if v <= e then Field(rest[..l.colon], rest[v..e], 0)
    else Field(rest[..l.colon], "", v - e)
  }

  /** The fields after one more line: a new field, a folded line, or a line that is passed over. */
  function Gather(rest: string, l: Line, fields: seq<Field>, max: nat): seq<Field>
    requires ReadLine(rest) == Some(l)
  {
    if !Blank(rest[0]) then
      if AllToken(rest[..l.colon]) && |fields| < max then fields + [FieldOf(rest, l)] else fields
    else if |fields| > 0 then Folded(fields, rest[1..l.lf - 1])
    else fields
  }

  /** Line folding: the content is appended to the last field's text. */
  function Folded(fields: seq<Field>, content: string): seq<Field>
    requires |fields| > 0
  {
    var f := fields[|fields| - 1];
    fields[|fields| - 1 := f.(text := f.text + content)]
  }

  /** The block goes on with another line at `next`. */
  predicate MoreLines(next: string) {
    next != "" && next != [CR] && !(CRLF <= next)
  }

  function ParseFrom(rest: string, base: nat, fields: seq<Field>, max: nat): Outcome
    requires rest != ""
    decreases |rest|
  {
    var l := ReadLine(rest);
    if l.None? then Overrun
    else
      var fs := Gather(rest, l.value, fields, max);
      var next := rest[l.value.lf + 1..];
      var n := base + l.value.lf + 1;
      if MoreLines(next) then ParseFrom(next, n, fs, max)
      else if CRLF <= next then Parsed(0, fs, n + 2)
      else Parsed(1, fs, n)
  }

  function Parse(d: string, max: nat): Outcome {
    if d == "" then Parsed(1, [], 0) else ParseFrom(d, 0, [], max)
  }

  lemma ParseLine(rest: string, base: nat, fields: seq<Field>, max: nat)
    requires rest != ""
    ensures var l := ReadLine(rest);
            if l.None? then ParseFrom(rest, base, fields, max) == Overrun
            else
              var fs, next, n :=
                Gather(rest, l.value, fields, max), rest[l.value.lf + 1..], base + l.value.lf + 1;
              ParseFrom(rest, base, fields, max)
              == if MoreLines(next) then ParseFrom(next, n, fs, max)
                 else if CRLF <= next then Parsed(0, fs, n + 2)
                 else Parsed(1, fs, n)
  {
    hide ReadLine, Gather, MoreLines;
  }

  // ---------------------------------------------------------------- printing header blocks

  /** A line as written: a header with blanks around its value, a folded continuation, or a line whose name is not
      a token, which is passed over. */
  datatype Written =
    | Header(name: string, pre: string, value: string, post: string)
    | Fold(blank: char, content: string)
    | Passed(name: string, content: string)

  predicate AllBlank(s: string) {
    forall k :: 0 <= k < |s| ==> Blank(s[k])
  }

  predicate Trimmed(s: string) {
    s != "" ==> !Blank(s[0]) && !Blank(s[|s| - 1])
  }

  /** A continuation needs a ':', because the scan for one does not stop at the line end. */
  predicate WellFormed(w: Written) {
    match w
    case Header(name, pre, value, post) =>
      AllToken(name) && AllBlank(pre) && AllBlank(post) && Trimmed(value) && CR !in value
    case Fold(blank, content) =>
      Blank(blank) && ':' in content && CR !in content
    case Passed(name, content) =>
      name != "" && !Blank(name[0]) && !AllToken(name) && ':' !in name && CR !in name && CR !in content
  }

  function PrintLine(w: Written): string {
    match w
    case Header(name, pre, value, post) => name + ":" + pre + value + post + CRLF
    case Fold(blank, content) => [blank] + content + CRLF
    case Passed(name, content) => name + ":" + content + CRLF
  }

  function PrintLines(ws: seq<Written>): string {
    if ws == [] then "" else PrintLine(ws[0]) + PrintLines(ws[1..])
  }

  /** The blanks around a value that is empty. */
  function BlanksOnly(w: Written): nat
    requires w.Header?
  {
    if w.value == "" then |w.pre| + |w.post| else 0
  }

  /** One line more: its field is added while there is room, or the last field kept grows. */
  function SpelledLine(fields: seq<Field>, w: Written, max: nat): seq<Field> {
    match w
    case Header(name, _, value, _) =>
      if |fields| < max then fields + [Field(name, value, BlanksOnly(w))] else fields
    case Fold(_, content) => if fields == [] then fields else Folded(fields, content)
    case Passed(_, _) => fields
  }

  /** The fields the lines spell: each header's name and value, with its continuations appended. */
  function Spelled(fields: seq<Field>, ws: seq<Written>, max: nat): seq<Field>
    decreases |ws|
  {
    if ws == [] then fields else Spelled(SpelledLine(fields, ws[0], max), ws[1..], max)
  }

  /** The header lines among the lines written. */
  function HeaderLines(ws: seq<Written>): (r: seq<Written>)
    ensures forall w :: w in r ==> w.Header?
  {
    if ws == [] then [] else (if ws[0].Header? then [ws[0]] else []) + HeaderLines(ws[1..])
  }

  /** The contents of the continuations among the lines written. */
  function Contents(ws: seq<Written>): string {
    if ws == [] then "" else (if ws[0].Fold? then ws[0].content else "") + Contents(ws[1..])
  }
}
