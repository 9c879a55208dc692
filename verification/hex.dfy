/** `str_parse_hex`: a chunk size read with its least significant digit first. */
module Hex {
  predicate IsHexDigit(c: char) {
    '0' <= c <= '9' || 'a' <= c <= 'f' || 'A' <= c <= 'F'
  }

  function DigitValue(c: char): (v: nat)
    requires IsHexDigit(c)
    ensures v < 16
  {
    if '0' <= c <= '9' then c as int - '0' as int
    else if 'a' <= c <= 'f' then c as int - 'a' as int + 10
    else c as int - 'A' as int + 10
  }

  predicate AllHex(s: string) {
    forall k :: 0 <= k < |s| ==> IsHexDigit(s[k])
  }

  /** The number of leading hex digits, which is where the parser stops reading. */
  function HexPrefix(s: string): (n: nat)
    ensures n <= |s|
  {
    if s == [] || !IsHexDigit(s[0]) then 0 else 1 + HexPrefix(s[1..])
  }

  lemma {:induction false} HexPrefixIs(s: string, n: nat)
    requires n <= |s| && AllHex(s[..n]) && (n < |s| ==> !IsHexDigit(s[n]))
    ensures HexPrefix(s) == n
  {
    if n == 0 {
    } else {
      assert s[0] == s[..n][0];
      assert s[1..][..n - 1] == s[..n][1..];
      HexPrefixIs(s[1..], n - 1);
    }
  }

  lemma {:induction false} HexPrefixDigits(s: string)
    ensures AllHex(s[..HexPrefix(s)])
    ensures AllHex(s) <==> HexPrefix(s) == |s|
  {
    if s != [] && IsHexDigit(s[0]) {
      HexPrefixDigits(s[1..]);
      assert s[..HexPrefix(s)] == [s[0]] + s[1..][..HexPrefix(s[1..])];
      assert AllHex(s) ==> AllHex(s[1..]);
      assert AllHex(s[1..]) ==> s == [s[0]] + s[1..];
    }
  }

  function Pow16(k: nat): (p: nat)
    ensures p > 0
  {
    if k == 0 then 1 else 16 * Pow16(k - 1)
  }

  /** The shift `n << base` is done on an `int`: every digit read must keep it below 2^31. */
  predicate ShiftsFit(s: string) {
    HexPrefix(s) <= 8 && (HexPrefix(s) == 8 ==> '0' <= s[7] <= '7')
  }

  /** The value of `s` with digit k weighing 16^k. */
  function Lsd(s: string): nat
    requires AllHex(s)
  {
    if s == [] then 0 else DigitValue(s[0]) + 16 * Lsd(s[1..])
  }

  lemma Scale(a: int, d: int, w: int)
    ensures 16 * (a + d * w) == 16 * a + d * (16 * w)
  {
  }

  lemma {:induction false} LsdSnoc(s: string, c: char)
    requires AllHex(s) && IsHexDigit(c)
    ensures Lsd(s + [c]) == Lsd(s) + DigitValue(c) * Pow16(|s|)
  {
    hide DigitValue, IsHexDigit;
    if s == [] {
      assert (s + [c])[1..] == [];
    } else {
      assert (s + [c])[1..] == s[1..] + [c];
      LsdSnoc(s[1..], c);
      Scale(Lsd(s[1..]), DigitValue(c), Pow16(|s| - 1));
      assert (s + [c])[0] == s[0];
    }
  }

  lemma Pow16Small(k: nat)
    requires k < 8
    ensures Pow16(k) <= 0x1000_0000 && (k < 7 ==> Pow16(k) <= 0x100_0000)
  {
    assert Pow16(0) == 1 && Pow16(1) == 16 && Pow16(2) == 0x100 && Pow16(3) == 0x1000;
    assert Pow16(4) == 0x1_0000 && Pow16(5) == 0x10_0000;
    assert Pow16(6) == 0x100_0000 && Pow16(7) == 0x1000_0000;
  }

  /** `n << (4 * k)` on a 32-bit `int`, defined only when the result fits. */
  function ShiftInt(n: nat, k: nat): (r: nat)
    requires n * Pow16(k) < 0x8000_0000
  {
    n * Pow16(k)
  }

  /** `str_parse_hex` on `buf[data..data + dataLen]`. */
  method StrParseHex(buf: array<char>, data: nat, dataLen: nat) returns (ret: int, result: nat)
    requires data + dataLen <= buf.Length
    requires ShiftsFit(buf[..][data..data + dataLen])
    ensures ret == 0 || ret == -1
    ensures ret == 0 <==> AllHex(buf[..][data..data + dataLen])
    ensures ret == 0 ==> result == Lsd(buf[..][data..data + dataLen])
  {
    ghost var s := buf[..][data..data + dataLen];
    result := 0;
    var p := 0;
    while p != dataLen
      invariant p <= dataLen
      invariant AllHex(s[..p]) && result == Lsd(s[..p])
      decreases dataLen - p
    {
      var c := buf[data + p];
      assert s[p] == c;
      var n;
      if '0' <= c <= '9' {
        n := c as int - '0' as int;
      } else if 'a' <= c <= 'f' {
        n := c as int - 'a' as int + 0xa;
      } else if 'A' <= c <= 'F' {
        n := c as int - 'A' as int + 0xa;
      } else {
        return -1, result;
      }
      ShiftFits(s, p);
      LsdSnoc(s[..p], c);
      assert s[..p + 1] == s[..p] + [c];
      result := result + ShiftInt(n, p);
      p := p + 1;
    }
    assert s[..p] == s;
    return 0, result;
  }

  lemma MulBound(v: nat, w: nat, a: nat, b: nat)
    requires v <= a && w <= b
    ensures v * w <= a * b
  {
    assert v * w <= v * b;
    assert v * b <= a * b;
  }

  lemma ShiftFits(s: string, p: nat)
    requires p < |s| && AllHex(s[..p]) && IsHexDigit(s[p]) && ShiftsFit(s)
    ensures p < 8 && DigitValue(s[p]) * Pow16(p) < 0x8000_0000
  {
    forall k | 0 <= k < p + 1 ensures IsHexDigit(s[k]) {
      if k < p { assert s[k] == s[..p][k]; }
    }
    HexPrefixAtLeast(s, p + 1);
    Pow16Small(p);
    if p < 7 {
      MulBound(DigitValue(s[p]), Pow16(p), 15, 0x100_0000);
    } else {
      MulBound(DigitValue(s[p]), Pow16(p), 7, 0x1000_0000);
    }
  }

  lemma {:induction false} HexPrefixAtLeast(s: string, n: nat)
    requires n <= |s| && forall k :: 0 <= k < n ==> IsHexDigit(s[k])
    ensures HexPrefix(s) >= n
  {
    if n == 0 {
    } else {
      HexPrefixAtLeast(s[1..], n - 1);
    }
  }

  // ---------------------------------------------------------------- what the value means

  lemma {:induction false} LsdBelow(s: string)
    requires AllHex(s)
    ensures Lsd(s) < Pow16(|s|)
  {
    if s == [] {
    } else {
      LsdBelow(s[1..]);
    }
  }

  function HexChar(v: nat): (c: char)
    requires v < 16
    ensures IsHexDigit(c) && DigitValue(c) == v
  {
    "0123456789abcdef"[v]
  }

  /** Prints a size least significant digit first. */
  function Print(n: nat): (s: string)
    ensures s != [] && AllHex(s)
  {
    [HexChar(n % 16)] + if n < 16 then [] else Print(n / 16)
  }

  /** Parsing undoes printing, for every size below 2^31; printed sizes never overflow the shift. */
  lemma PrintThenParse(n: nat)
    ensures Lsd(Print(n)) == n
    ensures n < 0x8000_0000 ==> ShiftsFit(Print(n))
  {
    PrintValue(n);
    if n < 0x8000_0000 {
      HexPrefixDigits(Print(n));
      Pow16Small(7);
      var s := Print(n);
      PrintShort(n, 7);
      if |s| == 8 {
        TopDigit(s, n);
      }
    }
  }

  lemma {:induction false} PrintValue(n: nat)
    ensures Lsd(Print(n)) == n
  {
    if n < 16 {
      assert Print(n)[1..] == [];
    } else {
      assert Print(n)[1..] == Print(n / 16);
      PrintValue(n / 16);
    }
  }

  lemma {:induction false} PrintShort(n: nat, k: nat)
    requires n < 16 * Pow16(k)
    ensures |Print(n)| <= k + 1
  {
    if n >= 16 {
      PrintShort(n / 16, k - 1);
    }
  }

  lemma TopDigit(s: string, n: nat)
    requires |s| == 8 && AllHex(s) && Lsd(s) == n < 0x8000_0000
    ensures '0' <= s[7] <= '7'
  {
    LsdSnoc(s[..7], s[7]);
    assert s == s[..7] + [s[7]];
    Pow16Small(7);
    assert Pow16(7) == 0x1000_0000;
    assert DigitValue(s[7]) < 8;
  }

  /** The chunk-size of section 4.1 of RFC 7230: most significant digit first. */
  function Msd(s: string): nat
    requires AllHex(s)
  {
    if s == [] then 0 else 16 * Msd(s[..|s| - 1]) + DigitValue(s[|s| - 1])
  }

  function Reverse(s: string): (r: string)
    ensures |r| == |s|
    ensures forall k :: 0 <= k < |s| ==> r[k] == s[|s| - 1 - k]
  {
    if s == [] then [] else [s[|s| - 1]] + Reverse(s[..|s| - 1])
  }

  lemma {:induction false} MsdIsLsdReversed(s: string)
    requires AllHex(s)
    ensures AllHex(Reverse(s)) && Msd(s) == Lsd(Reverse(s))
  {
    if s == [] {
    } else {
      MsdIsLsdReversed(s[..|s| - 1]);
      assert Reverse(s)[1..] == Reverse(s[..|s| - 1]);
    }
  }

  lemma SplitDigit(d: nat, rest: nat)
    requires d < 16
    ensures (d + 16 * rest) % 16 == d && (d + 16 * rest) / 16 == rest
  {
  }

  lemma LsdHead(s: string)
    requires AllHex(s) && s != []
    ensures DigitValue(s[0]) == Lsd(s) % 16 && Lsd(s[1..]) == Lsd(s) / 16
  {
    hide DigitValue, IsHexDigit;
    SplitDigit(DigitValue(s[0]), Lsd(s[1..]));
  }

  /** Digit strings of one length have equal values only if they agree digit by digit. */
  lemma {:induction false} LsdInjective(s: string, t: string)
    requires AllHex(s) && AllHex(t) && |s| == |t| && Lsd(s) == Lsd(t)
    ensures forall k :: 0 <= k < |s| ==> DigitValue(s[k]) == DigitValue(t[k])
  {
    if s == [] {
    } else {
      LsdHead(s);
      LsdHead(t);
      hide DigitValue, Lsd, IsHexDigit;
      LsdInjective(s[1..], t[1..]);
      forall k | 0 <= k < |s| ensures DigitValue(s[k]) == DigitValue(t[k]) {
        if k > 0 { assert s[k] == s[1..][k - 1] && t[k] == t[1..][k - 1]; }
      }
    }
  }

  lemma {:induction false} LsdSame(s: string, t: string)
    requires AllHex(s) && AllHex(t) && |s| == |t|
    requires forall k :: 0 <= k < |s| ==> DigitValue(s[k]) == DigitValue(t[k])
    ensures Lsd(s) == Lsd(t)
  {
    if s == [] {
    } else {
      LsdSame(s[1..], t[1..]);
    }
  }

  /** The parser agrees with section 4.1 of RFC 7230 exactly on palindromes of digit values. */
  lemma AgreesWithRfcIffPalindrome(s: string)
    requires AllHex(s)
    ensures Lsd(s) == Msd(s)
            <==> forall k :: 0 <= k < |s| ==> DigitValue(s[k]) == DigitValue(s[|s| - 1 - k])
  {
    MsdIsLsdReversed(s);
    if Lsd(s) == Msd(s) {
      LsdInjective(s, Reverse(s));
    }
    if forall k :: 0 <= k < |s| ==> DigitValue(s[k]) == DigitValue(s[|s| - 1 - k]) {
      LsdSame(s, Reverse(s));
    }
  }

  /** Two digits that are not: `01` is read as 16. */
  lemma TwoDigitsReversed()
    ensures AllHex("01") && Lsd("01") == 16 && Msd("01") == 1
  {
    assert "01"[1..] == "1" && "1"[1..] == "";
    assert "01"[..1] == "0" && "0"[..0] == "";
    assert Lsd("1") == 1 && Msd("0") == 0;
  }

  // ---------------------------------------------------------------- the digits themselves

  const LOWER := "0123456789abcdef"
  const UPPER := "0123456789ABCDEF"

  /** The hex digits are these characters and no others, and each is worth its place. */
  lemma DigitsAreThese()
    ensures forall c :: IsHexDigit(c) <==> c in LOWER || c in UPPER
    ensures forall k :: 0 <= k < 16 ==> IsHexDigit(LOWER[k]) && DigitValue(LOWER[k]) == k
    ensures forall k :: 0 <= k < 16 ==> IsHexDigit(UPPER[k]) && DigitValue(UPPER[k]) == k
  {
    forall c ensures IsHexDigit(c) <==> c in LOWER || c in UPPER {
      if '0' <= c <= '9' {
        assert LOWER[c as int - '0' as int] == c;
      } else if 'a' <= c <= 'f' {
        assert LOWER[c as int - 'a' as int + 10] == c;
      } else if 'A' <= c <= 'F' {
        assert UPPER[c as int - 'A' as int + 10] == c;
      }
    }
  }

  /** The letters of a digit string in upper case. */
  function Upper(s: string): (r: string)
    ensures |r| == |s|
    ensures forall k :: 0 <= k < |s| ==> r[k] == if 'a' <= s[k] <= 'f' then (s[k] as int - 32) as char else s[k]
  {
    seq(|s|, k requires 0 <= k < |s| => if 'a' <= s[k] <= 'f' then (s[k] as int - 32) as char else s[k])
  }

  /** Upper and lower case are read alike. */
  lemma CaseDoesNotMatter(s: string)
    requires AllHex(s)
    ensures AllHex(Upper(s)) && Lsd(Upper(s)) == Lsd(s)
    ensures ShiftsFit(Upper(s)) <==> ShiftsFit(s)
  {
    assert AllHex(Upper(s));
    LsdSame(Upper(s), s);
    HexPrefixDigits(s);
    HexPrefixDigits(Upper(s));
    hide HexPrefix, Lsd;
  }

  /** A shift is left undefined exactly when a digit that is read stands at the ninth place or later, or would reach
      the sign bit. */
  lemma ShiftsFitIff(s: string)
    ensures AllHex(s[..HexPrefix(s)])
    ensures ShiftsFit(s) <==>
      forall k :: 0 <= k < HexPrefix(s) ==> IsHexDigit(s[k]) && k < 8 && DigitValue(s[k]) * Pow16(k) < 0x8000_0000
  {
    HexPrefixDigits(s);
    forall k | 0 <= k < HexPrefix(s) ensures IsHexDigit(s[k]) {
      assert s[..HexPrefix(s)][k] == s[k];
    }
    hide HexPrefix;
    if ShiftsFit(s) {
      forall k | 0 <= k < HexPrefix(s) ensures k < 8 && DigitValue(s[k]) * Pow16(k) < 0x8000_0000 {
        assert AllHex(s[..k]);
        ShiftFits(s, k);
      }
    } else if HexPrefix(s) == 8 {
      Pow16Small(7);
      assert Pow16(7) == 0x1000_0000;
      assert DigitValue(s[7]) >= 8;
      assert DigitValue(s[7]) * Pow16(7) >= 0x8000_0000;
    } else {
      assert !(8 < 8);
    }
  }
}
