/** The string primitives the modelled code leans on: JavaScript's `String.prototype.trim`,
    `.length` (UTF-16 code units), `Number.prototype.toString` on integers and `parseInt`,
    and SQLite's built-in `LOWER`. */
module JsText {
  import opened Wrappers

  // ---------------------------------------------------------------------------
  // Whitespace and trim
  // ---------------------------------------------------------------------------

  /** ECMAScript WhiteSpace and LineTerminator code points: what `trim` strips and what
      `parseInt` skips before the number. */
  predicate IsJsSpace(c: char) {
    || c == '\t' || c == '\n' || c == '\U{000B}' || c == '\U{000C}' || c == '\r' || c == ' '
    || c == '\U{00A0}' || c == '\U{1680}' || ('\U{2000}' <= c <= '\U{200A}')
    || c == '\U{2028}' || c == '\U{2029}' || c == '\U{202F}' || c == '\U{205F}'
    || c == '\U{3000}' || c == '\U{FEFF}'
  }

  predicate AllSpaces(s: string) {
    forall i :: 0 <= i < |s| ==> IsJsSpace(s[i])
  }

  /** Neither end of `s` is whitespace: `s` is a fixed point of `trim`. */
  predicate IsTrimmed(s: string) {
    |s| == 0 || (!IsJsSpace(s[0]) && !IsJsSpace(s[|s| - 1]))
  }

  /** The first position at or after `i` that is not whitespace (`|s|` when there is
      none). */
  function SkipSpaces(s: string, i: nat): (k: nat)
    requires i <= |s|
    ensures i <= k <= |s|
    ensures forall j :: i <= j < k ==> IsJsSpace(s[j])
    ensures k == |s| || !IsJsSpace(s[k])
    decreases |s| - i
  {
    if i == |s| || !IsJsSpace(s[i]) then i else SkipSpaces(s, i + 1)
  }

  /** The end of `s[lo..hi]` once its trailing whitespace is dropped. */
  function DropSpaces(s: string, lo: nat, hi: nat): (k: nat)
    requires lo <= hi <= |s|
    ensures lo <= k <= hi
    ensures forall j :: k <= j < hi ==> IsJsSpace(s[j])
    ensures k == lo || !IsJsSpace(s[k - 1])
    decreases hi
  {
    if hi == lo || !IsJsSpace(s[hi - 1]) then hi else DropSpaces(s, lo, hi - 1)
  }

  /** `trimStart`: the suffix left after dropping leading whitespace. */
  function TrimStart(s: string): (r: string)
    ensures |r| <= |s| && r == s[|s| - |r|..]
    ensures forall j :: 0 <= j < |s| - |r| ==> IsJsSpace(s[j])
    ensures |r| == 0 || !IsJsSpace(r[0])
  {
    s[SkipSpaces(s, 0)..]
  }

  /** `String.prototype.trim`: `s` is whitespace, then `r`, then whitespace, where `r`
      starts at the first non-whitespace character and ends after the last one. */
  function Trim(s: string): (r: string)
    ensures var i := SkipSpaces(s, 0);
            && i + |r| <= |s| && r == s[i..i + |r|]
            && (forall j :: 0 <= j < i ==> IsJsSpace(s[j]))
            && (forall j :: i + |r| <= j < |s| ==> IsJsSpace(s[j]))
    ensures IsTrimmed(r)
    ensures r == [] <==> AllSpaces(s)
    ensures IsTrimmed(s) ==> r == s
  {
    var i := SkipSpaces(s, 0);
    var k := DropSpaces(s, i, |s|);
    assert k == i ==> i == |s|;
    s[i..k]
  }

  /** JavaScript `.length`: UTF-16 code units, so a code point above U+FFFF counts twice. */
  function Utf16Length(s: string): (n: nat)
    ensures |s| <= n <= 2 * |s|
    ensures (forall i :: 0 <= i < |s| ==> s[i] as int <= 0xFFFF) ==> n == |s|
    ensures |s| == 1 ==> n == if s[0] as int > 0xFFFF then 2 else 1
  {
    if |s| == 0 then 0 else (if s[0] as int > 0xFFFF then 2 else 1) + Utf16Length(s[1..])
  }

  /** The code units of a concatenation are those of its parts. */
  lemma {:induction false} Utf16LengthAppend(a: string, b: string)
    ensures Utf16Length(a + b) == Utf16Length(a) + Utf16Length(b)
    decreases |a|
  {
    if |a| > 0 {
      assert (a + b)[0] == a[0];
      assert (a + b)[1..] == a[1..] + b;
      Utf16LengthAppend(a[1..], b);
    } else {
      assert a + b == b;
    }
  }

  // ---------------------------------------------------------------------------
  // SQLite LOWER: ASCII-only case folding
  // ---------------------------------------------------------------------------

  function LowerChar(c: char): char {
    if 'A' <= c <= 'Z' then (c as int + 32) as char else c
  }

  /** SQLite's built-in `LOWER(X)`: only the ASCII letters A-Z are folded. */
  function Lower(s: string): (r: string)
    ensures |r| == |s|
    ensures forall i :: 0 <= i < |s| ==> r[i] == LowerChar(s[i])
  {
    seq(|s|, i requires 0 <= i < |s| => LowerChar(s[i]))
  }

  /** Two names are the same user name when `LOWER(a) = LOWER(b)`. */
  predicate SameIgnoringCase(a: string, b: string) {
    Lower(a) == Lower(b)
  }

  // ---------------------------------------------------------------------------
  // Integer to decimal string, and parseInt
  // ---------------------------------------------------------------------------

  predicate IsDecimalDigit(c: char) {
    '0' <= c <= '9'
  }

  function DigitChar(d: int): (c: char)
    requires 0 <= d < 10
    ensures IsDecimalDigit(c)
  {
    ('0' as int + d) as char
  }

  /** Decimal digits of `n`, most significant first, without leading zeros. */
  function NatToString(n: nat): (s: string)
    ensures |s| >= 1
    ensures forall i :: 0 <= i < |s| ==> IsDecimalDigit(s[i])
    ensures |s| > 1 ==> s[0] != '0'
    decreases n
  {
    if n < 10 then [DigitChar(n)] else NatToString(n / 10) + [DigitChar(n % 10)]
  }

  /** `Number.prototype.toString()` on an integer value. */
  function IntToString(n: int): (s: string)
    ensures |s| >= 1
    ensures s[0] == '-' <==> n < 0
  {
    if n < 0 then "-" + NatToString(-n) else NatToString(n)
  }

  /** The value of `c` as a digit in any radix up to 36; 36 for a non-digit. */
  function DigitValue(c: char): (d: nat)
    ensures d <= 36
  {
    if '0' <= c <= '9' then c as int - '0' as int
    else if 'a' <= c <= 'z' then c as int - 'a' as int + 10
    else if 'A' <= c <= 'Z' then c as int - 'A' as int + 10
    else 36
  }

  predicate IsDigitIn(c: char, radix: nat) {
    DigitValue(c) < radix
  }

  /** Length of the longest prefix of `s` made of radix-`radix` digits. */
  function LeadingDigits(s: string, radix: nat): (n: nat)
    ensures n <= |s|
    ensures forall i :: 0 <= i < n ==> IsDigitIn(s[i], radix)
    ensures n == |s| || !IsDigitIn(s[n], radix)
  {
    if |s| > 0 && IsDigitIn(s[0], radix) then 1 + LeadingDigits(s[1..], radix) else 0
  }

  /** Positional value of a digit string, most significant digit first. */
  function DigitsValue(s: string, radix: nat): (v: int)
    ensures v >= 0
  {
    if |s| == 0 then 0 else DigitsValue(s[..|s| - 1], radix) * radix + DigitValue(s[|s| - 1])
  }

  /** `u` starts with the hexadecimal prefix `0x` or `0X`. */
  predicate HexPrefixed(u: string) {
    |u| >= 2 && u[0] == '0' && (u[1] == 'x' || u[1] == 'X')
  }

  /** A digit starts `u`: a hexadecimal one after a `0x` prefix, else a decimal one. */
  predicate DigitsStart(u: string) {
    if HexPrefixed(u) then |u| > 2 && IsDigitIn(u[2], 16) else |u| > 0 && IsDigitIn(u[0], 10)
  }

  /** The digits after the sign: a `0x`/`0X` prefix switches to base 16, and the longest
      run of digits that follows is converted; `None` when that run is empty. */
  function ParseUnsigned(u: string): (r: Option<int>)
    ensures r.Some? <==> DigitsStart(u)
    ensures r.Some? ==> r.value >= 0
  {
    var hex := HexPrefixed(u);
    var radix := if hex then 16 else 10;
    var v := if hex then u[2..] else u;
    var n := LeadingDigits(v, radix);
    if n == 0 then None else Some(DigitsValue(v[..n], radix))
  }

  /** `s` after its leading whitespace and at most one sign. */
  function Unsigned(s: string): (u: string)
    ensures |u| <= |s| && u == s[|s| - |u|..]
  {
    var t := TrimStart(s);
    if |t| > 0 && (t[0] == '-' || t[0] == '+') then t[1..] else t
  }

  /** `parseInt` finds a number in `s`: after whitespace and a sign, either a `0x`/`0X`
      prefix followed by a hexadecimal digit, or a decimal digit. */
  predicate HasDigits(s: string) {
    DigitsStart(Unsigned(s))
  }

  /** `parseInt(s)` with no radix argument; `None` stands for `NaN`. Leading whitespace is
      skipped and one sign is read before the digits. */
  function ParseInt(s: string): (r: Option<int>)
    ensures r.Some? <==> HasDigits(s)
    ensures r.Some? && r.value < 0 ==> TrimStart(s)[0] == '-'
    ensures r.Some? && TrimStart(s)[0] != '-' ==> r.value >= 0
  {
    var t := TrimStart(s);
    if |t| > 0 && t[0] == '-' then
      match ParseUnsigned(t[1..])
      case Some(v) => Some(-v)
      case None => None
    else if |t| > 0 && t[0] == '+' then ParseUnsigned(t[1..])
    else ParseUnsigned(t)
  }

  /** Worked cases of `parseInt`: letters give NaN, trailing text after the digits is
      ignored, leading blanks are skipped, and `0x` switches to hexadecimal. */
  lemma ParseIntExamples()
    ensures ParseInt("abc").None? && ParseInt("0x").None?
    ensures ParseInt(" 12abc") == Some(12)
    ensures ParseInt("0x10") == Some(16)
    ensures ParseInt("-7") == Some(-7)
  {
    ParseIntNaN();
    ParseIntStopsAtLetters();
    ParseIntHex();
    ParseIntNegative();
  }

  lemma ParseIntNaN()
    ensures ParseInt("abc").None? && ParseInt("0x").None?
  {
    assert !IsJsSpace('a') && !IsJsSpace('0');
    assert SkipSpaces("abc", 0) == 0 && SkipSpaces("0x", 0) == 0;
    assert TrimStart("abc") == "abc";
    assert TrimStart("0x") == "0x";
  }

  lemma ParseIntStopsAtLetters()
    ensures ParseInt(" 12abc") == Some(12)
  {
    assert IsJsSpace(' ') && !IsJsSpace('1');
    assert SkipSpaces(" 12abc", 1) == 1;
    assert SkipSpaces(" 12abc", 0) == 1;
    assert TrimStart(" 12abc") == "12abc";
    assert LeadingDigits("12abc", 10) == 2;
    assert "12abc"[..2] == "12";
    assert DigitsValue("12", 10) == 12 by { assert "12"[..1] == "1"; assert "1"[..0] == ""; }
  }

  lemma ParseIntHex()
    ensures ParseInt("0x10") == Some(16)
  {
    assert !IsJsSpace('0');
    assert SkipSpaces("0x10", 0) == 0;
    assert TrimStart("0x10") == "0x10";
    assert "0x10"[2..] == "10";
    assert LeadingDigits("10", 16) == 2;
    assert "10"[..2] == "10";
    assert DigitsValue("10", 16) == 16 by { assert "10"[..1] == "1"; assert "1"[..0] == ""; }
  }

  lemma ParseIntNegative()
    ensures ParseInt("-7") == Some(-7)
  {
    assert TrimStart("-7") == "-7";
    assert "-7"[1..] == "7";
    assert LeadingDigits("7", 10) == 1;
    assert "7"[..1] == "7";
    assert DigitsValue("7", 10) == 7 by { assert "7"[..0] == ""; }
  }

  lemma {:induction false} DigitsValueOfNatToString(n: nat)
    ensures DigitsValue(NatToString(n), 10) == n
    decreases n
  {
    var s := NatToString(n);
    if n < 10 {
      assert s == [DigitChar(n)];
      assert s[..0] == [];
    } else {
      DigitsValueOfNatToString(n / 10);
      assert s[..|s| - 1] == NatToString(n / 10);
      assert s[|s| - 1] == DigitChar(n % 10);
    }
  }

  /** The digits of a natural number, read back, give the number. */
  lemma ParseUnsignedOfNatToString(n: nat)
    ensures ParseUnsigned(NatToString(n)) == Some(n)
  {
    var s := NatToString(n);
    assert LeadingDigits(s, 10) == |s| by { AllDigitsLead(s); }
    assert s[..|s|] == s;
    DigitsValueOfNatToString(n);
  }

  /** A string of decimal digits is its own longest run of digits. */
  lemma {:induction false} AllDigitsLead(s: string)
    requires forall i :: 0 <= i < |s| ==> IsDecimalDigit(s[i])
    ensures LeadingDigits(s, 10) == |s|
    decreases |s|
  {
    if |s| > 0 {
      assert IsDigitIn(s[0], 10);
      AllDigitsLead(s[1..]);
    }
  }

  /** `parseInt` reads back exactly the integer that `toString` printed. */
  lemma ParseIntOfIntToString(n: int)
    ensures ParseInt(IntToString(n)) == Some(n)
  {
    var s := IntToString(n);
    var digits := NatToString(if n < 0 then -n else n);
    assert s[0] == '-' || s[0] == digits[0];
    assert IsDecimalDigit(digits[0]);
    assert SkipSpaces(s, 0) == 0;
    assert TrimStart(s) == s;
    if n < 0 {
      assert s[1..] == digits;
      ParseUnsignedOfNatToString(-n);
    } else {
      ParseUnsignedOfNatToString(n);
    }
  }

  /** Distinct integers print as distinct strings. */
  lemma IntToStringInjective(a: int, b: int)
    ensures IntToString(a) == IntToString(b) <==> a == b
  {
    ParseIntOfIntToString(a);
    ParseIntOfIntToString(b);
  }
}
