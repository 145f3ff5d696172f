/** Character and string rules shared by the Go backend and the TypeScript
    client: the regular-expression classes written as predicates, trimming,
    ASCII case mapping, substring search and base-10 integers. */
module Text {
  import opened Wrappers

  const MinInt64: int := -0x8000_0000_0000_0000
  const MaxInt64: int := 0x7FFF_FFFF_FFFF_FFFF

  /** `\d` in Go's RE2 and `[0-9]` in JavaScript: ASCII digits only. */
  predicate IsDigit(c: char) { '0' <= c <= '9' }

  predicate AllDigits(s: string) { forall i :: 0 <= i < |s| ==> IsDigit(s[i]) }

  /** `[A-Za-z0-9]` */
  predicate IsAsciiAlnum(c: char) { IsDigit(c) || 'a' <= c <= 'z' || 'A' <= c <= 'Z' }

  /** `[A-Z0-9]` */
  predicate IsUpperAlnum(c: char) { IsDigit(c) || 'A' <= c <= 'Z' }

  function UpperChar(c: char): char {
    if 'a' <= c <= 'z' then (c as int - 32) as char else c
  }

  function LowerChar(c: char): char {
    if 'A' <= c <= 'Z' then (c as int + 32) as char else c
  }

  function ToUpper(s: string): string {
    seq(|s|, i requires 0 <= i < |s| => UpperChar(s[i]))
  }

  function ToLower(s: string): string {
    seq(|s|, i requires 0 <= i < |s| => LowerChar(s[i]))
  }

  /** White space as Go's `unicode.IsSpace` defines it; `strings.TrimSpace` trims these. */
  predicate IsGoSpace(c: char) {
    || c == ' ' || c == '\t' || c == '\n' || c == '\U{000B}' || c == '\U{000C}' || c == '\r'
    || c == '\U{0085}' || c == '\U{00A0}' || c == '\U{1680}'
    || ('\U{2000}' <= c <= '\U{200A}')
    || c == '\U{2028}' || c == '\U{2029}' || c == '\U{202F}' || c == '\U{205F}' || c == '\U{3000}'
  }

  /** White space and line terminators as `String.prototype.trim` defines them. */
  predicate IsJsSpace(c: char) {
    || c == ' ' || c == '\t' || c == '\n' || c == '\U{000B}' || c == '\U{000C}' || c == '\r'
    || c == '\U{00A0}' || c == '\U{FEFF}' || c == '\U{1680}'
    || ('\U{2000}' <= c <= '\U{200A}')
    || c == '\U{2028}' || c == '\U{2029}' || c == '\U{202F}' || c == '\U{205F}' || c == '\U{3000}'
  }

  /** `s` without its leading and trailing white space. */
  function Trim(s: string, space: char -> bool): (t: string)
    ensures |t| <= |s|
    decreases |s|
  {
    if |s| > 0 && space(s[0]) then Trim(s[1..], space)
    else if |s| > 0 && space(s[|s| - 1]) then Trim(s[..|s| - 1], space)
    else s
  }

  /** Go's `strings.TrimSpace`. */
  function TrimSpace(s: string): string { Trim(s, IsGoSpace) }

  /** JavaScript's `s.trim()`. */
  function JsTrim(s: string): string { Trim(s, IsJsSpace) }

  /** Trimming leaves nothing exactly when every character is white space. */
  lemma {:induction false} TrimEmptyIff(s: string, space: char -> bool)
    ensures Trim(s, space) == [] <==> forall i :: 0 <= i < |s| ==> space(s[i])
    decreases |s|
  {
    if |s| > 0 && space(s[0]) {
      TrimEmptyIff(s[1..], space);
      assert forall i :: 1 <= i < |s| ==> s[i] == s[1..][i - 1];
    } else if |s| > 0 && space(s[|s| - 1]) {
      TrimEmptyIff(s[..|s| - 1], space);
      assert forall i :: 0 <= i < |s| - 1 ==> s[i] == s[..|s| - 1][i];
    }
  }

  /** The trimmed string neither starts nor ends with white space. */
  lemma {:induction false} TrimEnds(s: string, space: char -> bool)
    ensures var t := Trim(s, space); t != [] ==> !space(t[0]) && !space(t[|t| - 1])
    decreases |s|
  {
    if |s| > 0 && space(s[0]) {
      TrimEnds(s[1..], space);
    } else if |s| > 0 && space(s[|s| - 1]) {
      TrimEnds(s[..|s| - 1], space);
    }
  }

  /** A string with no white space at either end is its own trim. */
  lemma TrimNoOp(s: string, space: char -> bool)
    requires s == [] || (!space(s[0]) && !space(s[|s| - 1]))
    ensures Trim(s, space) == s
  {
  }

  /** Trimming twice is trimming once. */
  lemma TrimIdempotent(s: string, space: char -> bool)
    ensures Trim(Trim(s, space), space) == Trim(s, space)
  {
    TrimEnds(s, space);
    TrimNoOp(Trim(s, space), space);
  }

  /** JavaScript's `s.includes(sub)` and Go's `strings.Contains`. */
  predicate Contains(s: string, sub: string)
    decreases |s|
  {
    sub <= s || (|s| > 0 && Contains(s[1..], sub))
  }

  /** JavaScript's `s.replace(/\D/g, "")`: keeps the ASCII digits, in order. */
  function DigitsOnly(s: string): (r: string)
    ensures AllDigits(r) && |r| <= |s|
    ensures AllDigits(s) ==> r == s
  {
    if s == [] then [] else (if IsDigit(s[0]) then [s[0]] else []) + DigitsOnly(s[1..])
  }

  /** A string without digits keeps none. */
  lemma {:induction false} NoDigits(s: string)
    requires forall i :: 0 <= i < |s| ==> !IsDigit(s[i])
    ensures DigitsOnly(s) == []
  {
    if s != [] {
      NoDigits(s[1..]);
    }
  }

  /** Keeping the digits of a concatenation keeps those of each part. */
  lemma {:induction false} DigitsOnlyAppend(a: string, b: string)
    ensures DigitsOnly(a + b) == DigitsOnly(a) + DigitsOnly(b)
  {
    if a == [] {
      assert a + b == b;
    } else {
      assert (a + b)[0] == a[0] && (a + b)[1..] == a[1..] + b;
      DigitsOnlyAppend(a[1..], b);
    }
  }

  /** A string found inside a string of digits is itself made of digits. */
  lemma {:induction false} ContainsInDigits(s: string, sub: string)
    requires AllDigits(s) && Contains(s, sub)
    ensures AllDigits(sub)
    decreases |s|
  {
    if !(sub <= s) {
      ContainsInDigits(s[1..], sub);
    } else {
      assert forall i :: 0 <= i < |sub| ==> sub[i] == s[i];
    }
  }

  /** Lower-casing forgets an earlier upper-casing. */
  lemma LowerOfUpper(s: string)
    ensures ToLower(ToUpper(s)) == ToLower(s)
  {
  }

  function DigitValue(c: char): nat
    requires IsDigit(c)
  {
    c as int - '0' as int
  }

  function DigitChar(d: nat): (c: char)
    requires d < 10
    ensures IsDigit(c) && DigitValue(c) == d
  {
    ('0' as int + d) as char
  }

  /** The value of a string of decimal digits, most significant first. */
  function DecimalValue(s: string): nat
    requires AllDigits(s)
  {
    if s == [] then 0 else DecimalValue(s[..|s| - 1]) * 10 + DigitValue(s[|s| - 1])
  }

  /** The shortest decimal rendering of `n` (Go's `strconv.Itoa`, JavaScript's `${n}`). */
  function DecimalString(n: nat): (r: string)
    ensures |r| >= 1 && AllDigits(r)
  {
    if n < 10 then [DigitChar(n)] else DecimalString(n / 10) + [DigitChar(n % 10)]
  }

  function IntString(v: int): string {
    if v < 0 then "-" + DecimalString(-v) else DecimalString(v)
  }

  /** Go's `strconv.ParseInt(s, 10, 64)`: an optional sign, then one or more
      ASCII digits, and the value must fit in 64 bits. */
  function ParseInt64(s: string): (r: Option<int>)
    ensures r.Some? ==> MinInt64 <= r.value <= MaxInt64
    ensures s == [] ==> r == None
  {
    if s == [] then None
    else
      var digits := if s[0] == '-' || s[0] == '+' then s[1..] else s;
      if digits == [] || !AllDigits(digits) then None
      else
        var v := if s[0] == '-' then -(DecimalValue(digits) as int) else DecimalValue(digits) as int;
        if MinInt64 <= v <= MaxInt64 then Some(v) else None
  }

  lemma {:induction false} DecimalRoundTrip(n: nat)
    ensures DecimalValue(DecimalString(n)) == n
  {
    if n >= 10 {
      var s := DecimalString(n);
      DecimalRoundTrip(n / 10);
      assert s[..|s| - 1] == DecimalString(n / 10);
    }
  }

  /** Every 64-bit integer, rendered in decimal, parses back to itself. */
  lemma ParseInt64RoundTrip(v: int)
    requires MinInt64 <= v <= MaxInt64
    ensures ParseInt64(IntString(v)) == Some(v)
  {
    var s := IntString(v);
    if v < 0 {
      DecimalRoundTrip(-v);
      assert s[1..] == DecimalString(-v);
    } else {
      DecimalRoundTrip(v);
      var d := DecimalString(v);
      assert IsDigit(d[0]);
    }
  }

  // ---------------------------------------------------------------------
  // Go's `strconv.ParseInt` and its two error kinds

  const MaxUint64: int := 0xFFFF_FFFF_FFFF_FFFF

  /** How `strconv.ParseUint` ends: a value, `ErrSyntax` or `ErrRange`. */
  datatype UintScan = UintValue(n: nat) | UintSyntax | UintRange

  /** The digit loop of `strconv.ParseUint` in base 10, carrying the value
      read so far: a non-digit is `ErrSyntax` and a digit that takes the
      value past 2^64 - 1 is `ErrRange`, whichever the loop meets first. */
  function ScanUint64(s: string, n: nat): UintScan
    requires n <= MaxUint64
  {
    if s == [] then UintValue(n)
    else if !IsDigit(s[0]) then UintSyntax
    else if n * 10 + DigitValue(s[0]) > MaxUint64 then UintRange
    else ScanUint64(s[1..], n * 10 + DigitValue(s[0]))
  }

  /** `strconv.ParseUint(s, 10, 64)`: the empty string is `ErrSyntax`. */
  function ParseUint64(s: string): UintScan {
    if s == [] then UintSyntax else ScanUint64(s, 0)
  }

  /** How `strconv.ParseInt` ends: a value, `ErrSyntax` or `ErrRange`. */
  datatype IntParse = IntValue(v: int) | IntSyntax | IntRange

  /** The digits after an optional leading sign. */
  function Unsigned(s: string): string {
    if s != [] && (s[0] == '-' || s[0] == '+') then s[1..] else s
  }

  /** `strconv.ParseInt(s, 10, 64)`: the sign is stripped and the rest goes
      to `ParseUint`, whose errors pass through; a magnitude beyond the
      sign's 64-bit bound is `ErrRange`. */
  function GoParseInt(s: string): (r: IntParse)
    ensures r.IntValue? ==> MinInt64 <= r.v <= MaxInt64
  {
    var neg := s != [] && s[0] == '-';
    match ParseUint64(Unsigned(s))
    case UintSyntax => IntSyntax
    case UintRange => IntRange
    case UintValue(u) =>
      if neg then (if u > -MinInt64 then IntRange else IntValue(-(u as int)))
      else if u > MaxInt64 then IntRange else IntValue(u)
  }

  /** The longest prefix of `s` made of ASCII digits. */
  function DigitRun(s: string): (d: string)
    ensures |d| <= |s| && d == s[..|d|] && AllDigits(d)
    ensures |d| < |s| ==> !IsDigit(s[|d|])
  {
    if s == [] || !IsDigit(s[0]) then [] else [s[0]] + DigitRun(s[1..])
  }

  function Pow10(k: nat): nat {
    if k == 0 then 1 else 10 * Pow10(k - 1)
  }

  lemma Pow10Of19()
    ensures Pow10(19) == 10_000_000_000_000_000_000
  {
    assert Pow10(1) == 10;
    assert Pow10(2) == 100;
    assert Pow10(3) == 1000;
    assert Pow10(4) == 10000;
    assert Pow10(5) == 100000;
    assert Pow10(6) == 1000000;
    assert Pow10(7) == 10000000;
    assert Pow10(8) == 100000000;
    assert Pow10(9) == 1000000000;
    assert Pow10(10) == 10000000000;
    assert Pow10(11) == 100000000000;
    assert Pow10(12) == 1000000000000;
    assert Pow10(13) == 10000000000000;
    assert Pow10(14) == 100000000000000;
    assert Pow10(15) == 1000000000000000;
    assert Pow10(16) == 10000000000000000;
    assert Pow10(17) == 100000000000000000;
    assert Pow10(18) == 1000000000000000000;
  }

  /** A digit string is worth at least its leading digit times the place
      value of that digit. */
  lemma {:induction false} LeadingDigitBound(d: string)
    requires AllDigits(d) && d != []
    ensures DecimalValue(d) >= DigitValue(d[0]) * Pow10(|d| - 1)
  {
    if |d| > 1 {
      var init := d[..|d| - 1];
      LeadingDigitBound(init);
      assert init[0] == d[0];
      calc {
        DecimalValue(d);
      >=
        DecimalValue(init) * 10;
      >= { assert DecimalValue(init) >= DigitValue(d[0]) * Pow10(|init| - 1); }
        DigitValue(d[0]) * Pow10(|init| - 1) * 10;
      ==
        DigitValue(d[0]) * Pow10(|d| - 1);
      }
    }
  }

  /** When `strconv.ParseInt` reports `ErrRange`: the digits before the
      first non-digit already exceed 2^64 - 1, or the rest is all digits and
      the number is outside the 64-bit range of its sign. */
  predicate ParseIntOverflows(s: string) {
    var rest := Unsigned(s);
    var lead := DecimalValue(DigitRun(rest));
    || lead > MaxUint64
    || (rest != [] && AllDigits(rest)
        && (if s[0] == '-' then lead > -MinInt64 else lead > MaxInt64))
  }

  /** The value of `d` read left to right onto the value `n`. */
  function FoldDigits(n: nat, d: string): nat
    requires AllDigits(d)
    decreases |d|
  {
    if d == [] then n else FoldDigits(n * 10 + DigitValue(d[0]), d[1..])
  }

  lemma {:induction false} FoldGrows(n: nat, d: string)
    requires AllDigits(d)
    ensures FoldDigits(n, d) >= n
    decreases |d|
  {
    if d != [] {
      FoldGrows(n * 10 + DigitValue(d[0]), d[1..]);
    }
  }

  lemma {:induction false} FoldSnoc(n: nat, d: string, c: char)
    requires AllDigits(d) && IsDigit(c)
    ensures FoldDigits(n, d + [c]) == FoldDigits(n, d) * 10 + DigitValue(c)
    decreases |d|
  {
    if d != [] {
      assert (d + [c])[1..] == d[1..] + [c];
      FoldSnoc(n * 10 + DigitValue(d[0]), d[1..], c);
    }
  }

  /** Reading left to right gives the same value as `DecimalValue`. */
  lemma {:induction false} FoldIsDecimalValue(d: string)
    requires AllDigits(d)
    ensures FoldDigits(0, d) == DecimalValue(d)
  {
    if d != [] {
      var init := d[..|d| - 1];
      FoldIsDecimalValue(init);
      FoldSnoc(0, init, d[|d| - 1]);
      assert init + [d[|d| - 1]] == d;
    }
  }

  /** The loop stops at the first digit that overflows or the first
      non-digit, whichever is earlier. */
  lemma {:induction false} ScanUint64Spec(s: string, n: nat)
    requires n <= MaxUint64
    ensures var d := DigitRun(s);
      ScanUint64(s, n) ==
        if FoldDigits(n, d) > MaxUint64 then UintRange
        else if |d| < |s| then UintSyntax
        else UintValue(FoldDigits(n, d))
  {
    if s != [] && IsDigit(s[0]) {
      var n' := n * 10 + DigitValue(s[0]);
      var d := DigitRun(s);
      assert d[0] == s[0] && d[1..] == DigitRun(s[1..]);
      assert FoldDigits(n, d) == FoldDigits(n', DigitRun(s[1..]));
      if n' > MaxUint64 {
        FoldGrows(n', DigitRun(s[1..]));
      } else {
        ScanUint64Spec(s[1..], n');
      }
    }
  }

  /** `GoParseInt` agrees with `ParseInt64` on every value, and reports
      `ErrRange` exactly when `ParseIntOverflows`. */
  lemma GoParseIntSpec(s: string)
    ensures GoParseInt(s).IntValue? <==> ParseInt64(s).Some?
    ensures GoParseInt(s).IntValue? ==> ParseInt64(s) == Some(GoParseInt(s).v)
    ensures GoParseInt(s) == IntRange <==> s != [] && ParseIntOverflows(s)
  {
    var rest := Unsigned(s);
    var d := DigitRun(rest);
    FoldIsDecimalValue(d);
    if rest != [] {
      ScanUint64Spec(rest, 0);
      if AllDigits(rest) {
        assert d == rest;
      } else {
        assert |d| < |rest|;
      }
    }
  }

  // ---------------------------------------------------------------------
  // Go's `strconv.Quote`

  /** Go's `unicode.IsPrint` below U+0100: space to tilde, and U+00A1 to
      U+00FF except the soft hyphen. Above U+00FF every code point counts
      as printable here. */
  predicate IsGoPrint(c: char) {
    if c <= '\U{00FF}' then (' ' <= c <= '~') || ('\U{00A1}' <= c && c != '\U{00AD}') else true
  }

  /** The value of a lower-case hexadecimal digit, -1 for anything else. */
  function HexValue(c: char): int {
    if '0' <= c <= '9' then c as int - '0' as int
    else if 'a' <= c <= 'f' then c as int - 'a' as int + 10
    else -1
  }

  /** A lower-case hexadecimal digit, as `strconv` writes them. */
  function HexDigit(d: nat): (c: char)
    requires d < 16
    ensures HexValue(c) == d
  {
    if d < 10 then ('0' as int + d) as char else ('a' as int + d - 10) as char
  }

  /** How `strconv.Quote` writes one code point between the quotes: a
      backslash before a quote or a backslash, printable code points as
      they are, the seven control characters with a letter escape by their
      letter, other C0 controls and DEL as `\x` and two digits, and the
      remaining unprintable Latin-1 code points as `\u` and four digits. */
  function QuoteChar(c: char): (r: string)
    ensures 1 <= |r| <= 6
    ensures |r| == 1 <==> c != '"' && c != '\\' && IsGoPrint(c)
  {
    if c == '"' || c == '\\' then ['\\', c]
    else if IsGoPrint(c) then [c]
    else if c == '\U{0007}' then "\\a"
    else if c == '\U{0008}' then "\\b"
    else if c == '\U{000C}' then "\\f"
    else if c == '\n' then "\\n"
    else if c == '\r' then "\\r"
    else if c == '\t' then "\\t"
    else if c == '\U{000B}' then "\\v"
    else if c < ' ' || c == '\U{007F}' then "\\x" + [HexDigit(c as int / 16), HexDigit(c as int % 16)]
    else "\\u" + [HexDigit(0), HexDigit(0), HexDigit(c as int / 16), HexDigit(c as int % 16)]
  }

  /** Everything `strconv.Quote` writes between the quotes. */
  function QuoteBody(s: string): string {
    if s == [] then [] else QuoteChar(s[0]) + QuoteBody(s[1..])
  }

  /** `strconv.Quote`. */
  function GoQuote(s: string): (r: string)
    ensures |r| >= |s| + 2 && r[0] == '"' && r[|r| - 1] == '"'
  {
    QuoteBodyLength(s);
    "\"" + QuoteBody(s) + "\""
  }

  lemma {:induction false} QuoteBodyLength(s: string)
    ensures |QuoteBody(s)| >= |s|
  {
    if s != [] {
      QuoteBodyLength(s[1..]);
    }
  }

  /** The code point the escape sequence (or plain character) at the head
      of `r` stands for, and how many characters it takes; an unescaped
      quote or an unknown escape reads as nothing. */
  function Unescape(r: string): (e: Option<(char, nat)>)
    ensures e.Some? ==> 1 <= e.value.1 <= |r|
  {
    if r == [] || r[0] == '"' then None
    else if r[0] != '\\' then Some((r[0], 1))
    else if |r| < 2 then None
    else if r[1] == '"' || r[1] == '\\' then Some((r[1], 2))
    else if r[1] == 'a' then Some(('\U{0007}', 2))
    else if r[1] == 'b' then Some(('\U{0008}', 2))
    else if r[1] == 'f' then Some(('\U{000C}', 2))
    else if r[1] == 'n' then Some(('\n', 2))
    else if r[1] == 'r' then Some(('\r', 2))
    else if r[1] == 't' then Some(('\t', 2))
    else if r[1] == 'v' then Some(('\U{000B}', 2))
    else if r[1] == 'x' then
      if |r| < 4 || HexValue(r[2]) < 0 || HexValue(r[3]) < 0 then None
      else Some(((16 * HexValue(r[2]) + HexValue(r[3])) as char, 4))
    else if r[1] == 'u' then
      if |r| < 6 || HexValue(r[2]) != 0 || HexValue(r[3]) != 0 || HexValue(r[4]) < 0 || HexValue(r[5]) < 0 then None
      else Some(((16 * HexValue(r[4]) + HexValue(r[5])) as char, 6))
    else None
  }

  /** Reads back what `QuoteBody` wrote, escape by escape. */
  function UnquoteBody(r: string): Option<string>
    decreases |r|
  {
    if r == [] then Some([])
    else match Unescape(r)
      case None => None
      case Some((c, n)) =>
        match UnquoteBody(r[n..])
        case None => None
        case Some(t) => Some([c] + t)
  }

  /** Reads back a quoted string. */
  function GoUnquote(r: string): Option<string> {
    if |r| >= 2 && r[0] == '"' && r[|r| - 1] == '"' then UnquoteBody(r[1..|r| - 1]) else None
  }

  /** Each escape reads back as the code point it was written for. */
  lemma UnescapeQuoteChar(c: char, t: string)
    ensures Unescape(QuoteChar(c) + t) == Some((c, |QuoteChar(c)|))
  {
    var q := QuoteChar(c);
    if c != '"' && c != '\\' && !IsGoPrint(c) && (c < ' ' || c == '\U{007F}') && q[1] == 'x' {
      assert 16 * (c as int / 16) + c as int % 16 == c as int;
    } else if c != '"' && c != '\\' && !IsGoPrint(c) && q[1] == 'u' {
      assert HexValue(q[2]) == 0 && HexValue(q[3]) == 0;
      assert 16 * (c as int / 16) + c as int % 16 == c as int;
    }
  }

  /** Quoting loses nothing: the quoted text reads back as the original. */
  lemma {:induction false} QuoteRoundTrip(s: string)
    ensures UnquoteBody(QuoteBody(s)) == Some(s)
    ensures GoUnquote(GoQuote(s)) == Some(s)
  {
    if s != [] {
      var q := QuoteChar(s[0]);
      var rest := QuoteBody(s[1..]);
      UnescapeQuoteChar(s[0], rest);
      assert (q + rest)[|q|..] == rest;
      QuoteRoundTrip(s[1..]);
      assert [s[0]] + s[1..] == s;
    }
    var r := GoQuote(s);
    assert r[1..|r| - 1] == QuoteBody(s);
  }

  /** A string of printable code points with no quote or backslash is
      written as it is, between quotes. */
  lemma {:induction false} QuotePlain(s: string)
    requires forall i :: 0 <= i < |s| ==> IsGoPrint(s[i]) && s[i] != '"' && s[i] != '\\'
    ensures QuoteBody(s) == s
    ensures GoQuote(s) == "\"" + s + "\""
  {
    if s != [] {
      QuotePlain(s[1..]);
      assert [s[0]] + s[1..] == s;
    }
  }
}
