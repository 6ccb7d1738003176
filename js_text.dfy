/** Models of the ECMAScript string built-ins the core relies on:
    `parseInt` with no radix (ECMA-262, section 19.2.5), `Number.prototype.toString`
    for integers, the relational comparison of two strings, and
    `String.prototype.indexOf`. Characters are compared by code point. */
module JsText {
  import opened Options

  // ---------------------------------------------------------------- parseInt

  /** The characters `TrimString` removes: WhiteSpace and LineTerminator
      (TAB, VT, FF, ZWNBSP, every space separator, LF, CR, LS, PS). */
  predicate IsStrWhiteSpace(c: char) {
    c == '\t' || c == '\n' || c == '\U{B}' || c == '\U{C}' || c == '\r' ||
    c == ' ' || c == '\U{A0}' || c == '\U{1680}' || ('\U{2000}' <= c <= '\U{200A}') ||
    c == '\U{2028}' || c == '\U{2029}' || c == '\U{202F}' || c == '\U{205F}' ||
    c == '\U{3000}' || c == '\U{FEFF}'
  }

  /** Leading white space removed. */
  function TrimStart(s: string): (r: string)
    ensures r == [] || !IsStrWhiteSpace(r[0])
    ensures |r| <= |s| && r == s[|s| - |r|..]
    ensures forall i :: 0 <= i < |s| - |r| ==> IsStrWhiteSpace(s[i])
  {
    if s != [] && IsStrWhiteSpace(s[0]) then TrimStart(s[1..]) else s
  }

  /** The value of a digit in radix 16 (`0`-`9`, `a`-`f`, `A`-`F`); 16 for any
      other character, so `DigitValue(c) < radix` tests "is a radix digit". */
  function DigitValue(c: char): (d: nat)
    ensures d <= 16
    ensures d < 10 <==> '0' <= c <= '9'
    ensures d < 16 <==> ('0' <= c <= '9' || 'a' <= c <= 'f' || 'A' <= c <= 'F')
  {
    if '0' <= c <= '9' then c as int - '0' as int
    else if 'a' <= c <= 'f' then c as int - 'a' as int + 10
    else if 'A' <= c <= 'F' then c as int - 'A' as int + 10
    else 16
  }

  /** Length of the longest prefix of `s` made of radix digits. */
  function LeadingDigits(s: string, radix: nat): (n: nat)
    ensures n <= |s|
    ensures forall i :: 0 <= i < n ==> DigitValue(s[i]) < radix
    ensures n < |s| ==> DigitValue(s[n]) >= radix
  {
    if s == [] || DigitValue(s[0]) >= radix then 0
    else
      assert forall i :: 1 <= i < |s| ==> s[i] == s[1..][i - 1];
      1 + LeadingDigits(s[1..], radix)
  }

  predicate AllDigits(s: string, radix: nat) {
    forall i :: 0 <= i < |s| ==> DigitValue(s[i]) < radix
  }

  /** The mathematical value of a digit string, most significant digit first. */
  function DigitsValue(s: string, radix: nat): nat {
    if s == [] then 0 else DigitsValue(s[..|s| - 1], radix) * radix + DigitValue(s[|s| - 1])
  }

  /** The sign `parseInt` reads from trimmed text: -1 after a leading `-`. */
  function Sign(s: string): int {
    if s != [] && s[0] == '-' then -1 else 1
  }

  /** Trimmed text with its sign character, if any, removed. */
  function Unsigned(s: string): string {
    if s != [] && (s[0] == '+' || s[0] == '-') then s[1..] else s
  }

  predicate HasHexPrefix(s: string) {
    |s| >= 2 && s[0] == '0' && (s[1] == 'x' || s[1] == 'X')
  }

  /** Unsigned text that opens with a digit: a hex digit right after a
      `0x`/`0X` prefix, otherwise a decimal digit. */
  predicate OpensNumber(s: string) {
    if HasHexPrefix(s) then |s| > 2 && DigitValue(s[2]) < 16
    else s != [] && '0' <= s[0] <= '9'
  }

  /** The value of the digits that open unsigned text: after a `0x`/`0X`
      prefix in radix 16, otherwise in radix 10; `None` when there are none. */
  function Magnitude(s: string): (r: Option<nat>)
    ensures r.Some? <==> OpensNumber(s)
  {
    var radix := if HasHexPrefix(s) then 16 else 10;
    var body := if HasHexPrefix(s) then s[2..] else s;
    var end := LeadingDigits(body, radix);
    if end == 0 then None else Some(DigitsValue(body[..end], radix))
  }

  /** `parseInt(input)` with no radix: skip leading white space, read an
      optional sign, then the magnitude; `None` stands for NaN. */
  function ParseInt(input: string): (r: Option<int>)
    ensures r.Some? && r.value < 0 ==> TrimStart(input) != [] && TrimStart(input)[0] == '-'
  {
    var s := TrimStart(input);
    match Magnitude(Unsigned(s))
    case None => None
    case Some(m) => Some(Sign(s) * m)
  }

  /** `parseInt` gives a number exactly when, after the leading white space
      and at most one sign, the text opens with a digit. */
  lemma ParseIntIsNumber(input: string)
    ensures ParseInt(input).Some? <==> OpensNumber(Unsigned(TrimStart(input)))
  {
  }

  // ------------------------------------------------------- Number toString

  function DigitChar(d: nat): (c: char)
    requires d < 10
    ensures DigitValue(c) == d
  {
    ('0' as int + d) as char
  }

  /** The decimal numeral of a natural number, without leading zeros. */
  function Decimal(n: nat): (s: string)
    ensures |s| >= 1 && '0' <= s[0] <= '9'
    decreases n
  {
    if n < 10 then [DigitChar(n)] else Decimal(n / 10) + [DigitChar(n % 10)]
  }

  /** `String(n)` for an integer `n`. */
  function NumberToString(n: int): (s: string)
    ensures |s| >= 1 && (s[0] == '-' <==> n < 0)
    ensures n < 0 ==> |s| >= 2 && '0' <= s[1] <= '9'
  {
    if n < 0 then "-" + Decimal(-n) else Decimal(n)
  }

  lemma {:induction false} DecimalIsDigits(n: nat)
    ensures AllDigits(Decimal(n), 10)
    ensures DigitsValue(Decimal(n), 10) == n
    ensures Decimal(n)[0] == '0' ==> n == 0 && Decimal(n) == "0"
    decreases n
  {
    if n >= 10 {
      DecimalIsDigits(n / 10);
      var s := Decimal(n);
      assert s[..|s| - 1] == Decimal(n / 10);
      assert s[0] == Decimal(n / 10)[0];
    }
  }

  /** `parseInt` stops at the first character that is not a digit. */
  lemma {:induction false} LeadingDigitsOfPrefix(d: string, rest: string, radix: nat)
    requires AllDigits(d, radix)
    requires rest == [] || DigitValue(rest[0]) >= radix
    ensures LeadingDigits(d + rest, radix) == |d|
    ensures (d + rest)[..|d|] == d
  {
    if d != [] {
      assert (d + rest)[1..] == d[1..] + rest;
      LeadingDigitsOfPrefix(d[1..], rest, radix);
    }
  }

  /** The magnitude of a decimal numeral followed by text that does not
      continue it. */
  lemma MagnitudeOfDecimal(m: nat, rest: string)
    requires rest == [] || DigitValue(rest[0]) >= 10
    requires m == 0 && rest != [] ==> rest[0] != 'x' && rest[0] != 'X'
    ensures Magnitude(Decimal(m) + rest) == Some(m)
    ensures '0' <= (Decimal(m) + rest)[0] <= '9'
  {
    var d := Decimal(m);
    DecimalIsDigits(m);
    LeadingDigitsOfPrefix(d, rest, 10);
    assert (d + rest)[0] == d[0];
    assert DigitValue(d[0]) < 10;
  }

  /** Text that opens with a decimal digit is read by its magnitude alone. */
  lemma ParseIntOfDigits(t: string, m: nat)
    requires t != [] && '0' <= t[0] <= '9' && Magnitude(t) == Some(m)
    ensures ParseInt(t) == Some(m)
  {
    TrimStartOfDigit(t);
    assert Sign(t) == 1 && Unsigned(t) == t;
  }

  /** Text that opens with a digit or a sign has no white space to skip. */
  lemma TrimStartOfDigit(t: string)
    requires t != [] && ('0' <= t[0] <= '9' || t[0] == '-' || t[0] == '+')
    ensures TrimStart(t) == t
  {
    assert !IsStrWhiteSpace(t[0]);
  }

  /** ... and with a leading `-` as its negation. */
  lemma ParseIntOfNegatedDigits(u: string, m: nat)
    requires |u| >= 2 && u[0] == '-' && '0' <= u[1] <= '9' && Magnitude(u[1..]) == Some(m)
    ensures ParseInt(u) == Some(-(m as int))
  {
    TrimStartOfDigit(u);
    assert Sign(u) == -1 && Unsigned(u) == u[1..];
  }

  /** ... and with a leading `+` as itself. */
  lemma ParseIntOfSignedDigits(u: string, m: nat)
    requires |u| >= 2 && u[0] == '+' && '0' <= u[1] <= '9' && Magnitude(u[1..]) == Some(m)
    ensures ParseInt(u) == Some(m)
  {
    TrimStartOfDigit(u);
    assert Sign(u) == 1 && Unsigned(u) == u[1..];
  }

  /** `parseInt` reads back the numeral of any integer followed by text that
      does not continue it (so "10集" reads as 10 and `String(n)` as `n`). */
  lemma ParseIntOfNumeral(n: int, rest: string)
    requires rest == [] || DigitValue(rest[0]) >= 10
    requires n == 0 && rest != [] ==> rest[0] != 'x' && rest[0] != 'X'
    ensures ParseInt(NumberToString(n) + rest) == Some(n)
  {
    if n < 0 {
      ParseIntOfNegativeNumeral(-n, rest, NumberToString(n) + rest);
    } else {
      MagnitudeOfDecimal(n, rest);
      ParseIntOfDigits(Decimal(n) + rest, n);
    }
  }

  lemma ParseIntOfNegativeNumeral(m: nat, rest: string, input: string)
    requires m > 0
    requires rest == [] || DigitValue(rest[0]) >= 10
    requires input == "-" + Decimal(m) + rest
    ensures ParseInt(input) == Some(-(m as int))
  {
    NegativeNumeralShape(m, rest, input);
    ParseIntOfNegatedDigits(input, m);
  }

  /** The shape of a negative numeral followed by text that does not
      continue it: a minus, a digit, and a magnitude after the minus. */
  lemma NegativeNumeralShape(m: nat, rest: string, input: string)
    requires m > 0
    requires rest == [] || DigitValue(rest[0]) >= 10
    requires input == "-" + Decimal(m) + rest
    ensures |input| >= 2 && input[0] == '-' && '0' <= input[1] <= '9'
    ensures Magnitude(input[1..]) == Some(m)
  {
    MinusSplit(Decimal(m), rest, input);
    MagnitudeOfDecimal(m, rest);
  }

  /** What follows the minus of `"-" + d + rest`. */
  lemma MinusSplit(d: string, rest: string, input: string)
    requires input == "-" + d + rest
    ensures |input| == 1 + |d| + |rest| && input[0] == '-'
    ensures input[1..] == d + rest
  {
    assert ("-" + d) + rest == "-" + (d + rest);
  }

  lemma ParseIntOfNumberString(n: int)
    ensures ParseInt(NumberToString(n)) == Some(n)
  {
    ParseIntOfNumeral(n, []);
    assert NumberToString(n) + [] == NumberToString(n);
  }

  lemma ParseIntNumberStrings()
    ensures forall n {:trigger NumberToString(n)} :: ParseInt(NumberToString(n)) == Some(n)
  {
    forall n {
      ParseIntOfNumberString(n);
    }
  }

  lemma ParseIntOfNine()
    ensures ParseInt("9") == Some(9)
  {
    assert Decimal(9) == "9";
    ParseIntOfNumeral(9, []);
    assert NumberToString(9) + [] == "9";
  }

  lemma ParseIntOfTenEpisode()
    ensures ParseInt("10集") == Some(10)
  {
    assert Decimal(10) == "10";
    ParseIntOfNumeral(10, "集");
    assert NumberToString(10) + "集" == "10集";
  }

  lemma ParseIntOfPlusTen()
    ensures ParseInt("+10") == Some(10)
  {
    assert Decimal(10) == "10";
    MagnitudeOfDecimal(10, []);
    assert Decimal(10) + [] == "10";
    var u := "+10";
    assert u[1..] == "10";
    ParseIntOfSignedDigits(u, 10);
  }

  lemma ParseIntOfNonNumerals()
    ensures ParseInt("-") == None
    ensures ParseInt("第1集") == None
  {
    ParseIntOfMinus();
    ParseIntOfNonNumeral("第1集");
  }

  /** A `0x` prefix switches to radix 16. */
  lemma ParseIntOfHex()
    ensures ParseInt("0x1A") == Some(26)
  {
    var s := "0x1A";
    TrimStartOfDigit(s);
    assert Unsigned(s) == s && HasHexPrefix(s);
    var body := s[2..];
    assert body == "1A";
    assert DigitValue(body[0]) == 1 && DigitValue(body[1]) == 10;
    LeadingDigitsOfPrefix(body, [], 16);
    assert body + [] == body && body[..1] == "1";
    assert DigitsValue(body, 16) == DigitsValue("1", 16) * 16 + 10;
  }

  /** A `0x` prefix with no hex digit after it is NaN. */
  lemma ParseIntOfBareHexPrefix()
    ensures ParseInt("0x") == None
  {
    TrimStartOfDigit("0x");
  }

  /** A lone minus sign is NaN. */
  lemma ParseIntOfMinus()
    ensures ParseInt("-") == None
  {
    TrimStartOfDigit("-");
    assert Unsigned("-") == "";
  }

  /** Leading white space does not change what `parseInt` reads. */
  lemma ParseIntSkipsWhiteSpace(c: char, s: string)
    requires IsStrWhiteSpace(c)
    ensures ParseInt([c] + s) == ParseInt(s)
  {
    assert ([c] + s)[1..] == s;
    assert TrimStart([c] + s) == TrimStart(s);
  }

  /** A title that starts with anything other than white space, a sign or a
      decimal digit is NaN. */
  lemma ParseIntOfNonNumeral(s: string)
    requires s != [] && !IsStrWhiteSpace(s[0]) && s[0] != '+' && s[0] != '-'
    requires !('0' <= s[0] <= '9')
    ensures ParseInt(s) == None
  {
  }

  // -------------------------------------------------- relational comparison

  /** `a < b` on strings: `a` is a proper prefix of `b`, or the first
      differing character of `a` is smaller. */
  function StrLess(a: string, b: string): (r: bool)
    ensures |a| < |b| && a == b[..|a|] ==> r
    ensures |b| <= |a| && b == a[..|b|] ==> !r
  {
    if b == [] then false
    else if a == [] then true
    else if a[0] != b[0] then a[0] < b[0]
    else
      assert |a| <= |b| && a == b[..|a|] ==> a[1..] == b[1..][..|a| - 1];
      assert |b| <= |a| && b == a[..|b|] ==> b[1..] == a[1..][..|b| - 1];
      StrLess(a[1..], b[1..])
  }

  lemma {:induction false} StrLessIrreflexive(a: string)
    ensures !StrLess(a, a)
  {
    if a != [] {
      StrLessIrreflexive(a[1..]);
    }
  }

  lemma {:induction false} StrLessTransitive(a: string, b: string, c: string)
    requires StrLess(a, b) && StrLess(b, c)
    ensures StrLess(a, c)
  {
    if a != [] && a[0] == b[0] && b[0] == c[0] {
      StrLessTransitive(a[1..], b[1..], c[1..]);
    }
  }

  lemma {:induction false} StrLessTotal(a: string, b: string)
    ensures a == b || StrLess(a, b) || StrLess(b, a)
  {
    if a != [] && b != [] && a[0] == b[0] {
      StrLessTotal(a[1..], b[1..]);
      if a[1..] == b[1..] {
        assert a == [a[0]] + a[1..] && b == [b[0]] + b[1..];
      }
    }
  }

  // ----------------------------------------------------------------- indexOf

  predicate OccursAt(s: string, pat: string, i: int) {
    0 <= i && i + |pat| <= |s| && forall k :: 0 <= k < |pat| ==> s[i + k] == pat[k]
  }

  lemma OccursAtTail(s: string, pat: string, i: int)
    requires s != [] && 1 <= i
    ensures OccursAt(s, pat, i) <==> OccursAt(s[1..], pat, i - 1)
  {
    assert forall j :: 1 <= j < |s| ==> s[1..][j - 1] == s[j];
  }

  lemma OccursAtStart(s: string, pat: string)
    requires |pat| <= |s|
    ensures OccursAt(s, pat, 0) <==> s[..|pat|] == pat
  {
    if OccursAt(s, pat, 0) {
      assert forall k :: 0 <= k < |pat| ==> s[..|pat|][k] == pat[k];
    }
  }

  /** `s.indexOf(pat)`: the first position where `pat` occurs, or -1. */
  function IndexOf(s: string, pat: string): (r: int)
    ensures -1 <= r
    ensures r >= 0 ==> OccursAt(s, pat, r) && forall i :: 0 <= i < r ==> !OccursAt(s, pat, i)
    ensures r == -1 <==> forall i :: !OccursAt(s, pat, i)
    decreases |s|
  {
    if |s| < |pat| then -1
    else if s[..|pat|] == pat then OccursAtStart(s, pat); 0
    else
      OccursAtStart(s, pat);
      var k := IndexOf(s[1..], pat);
      assert forall i :: 1 <= i ==> (OccursAt(s, pat, i) <==> OccursAt(s[1..], pat, i - 1)) by {
        forall i | 1 <= i {
          OccursAtTail(s, pat, i);
        }
      }
      if k == -1 then -1 else k + 1
  }
}
