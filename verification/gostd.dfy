/**
  The few pieces of Go's standard library the plugin relies on, stated in
  Dafny's terms: `strings.ToLower` on ASCII text, `strconv.ParseInt(s, 10, 64)`
  with its documented error values, its inverse `strconv.FormatInt(n, 10)`,
  and the two's-complement wrap-around of `int64` arithmetic.
 */
module GoStd {

  const MinInt64: int := -0x8000_0000_0000_0000
  const MaxInt64: int := 0x7FFF_FFFF_FFFF_FFFF
  const TwoTo64: int := 0x1_0000_0000_0000_0000
  const MaxUint64: int := 0xFFFF_FFFF_FFFF_FFFF

  predicate InInt64(x: int)
  {
    MinInt64 <= x <= MaxInt64
  }

  // ---------------------------------------------------------------------------
  // strings.ToLower

  function LowerChar(c: char): char
  {
    if 'A' <= c <= 'Z' then (c as int - 'A' as int + 'a' as int) as char else c
  }

  /** `strings.ToLower` restricted to what ASCII text needs: upper-case ASCII
      letters become lower-case, every other character is kept. */
  function ToLower(s: string): (r: string)
    ensures |r| == |s|
  {
    if |s| == 0 then "" else ToLower(s[..|s| - 1]) + [LowerChar(s[|s| - 1])]
  }

  /** `ToLower` works character by character. */
  lemma {:induction false} ToLowerChars(s: string)
    ensures forall i | 0 <= i < |s| :: ToLower(s)[i] == LowerChar(s[i])
  {
    if |s| > 0 {
      ToLowerChars(s[..|s| - 1]);
    }
  }

  /** `t` is what `ToLower` makes of `s` exactly when it lowers `s` character by character. */
  lemma ToLowerIs(s: string, t: string)
    requires |s| == |t|
    requires forall j | 0 <= j < |s| :: LowerChar(s[j]) == t[j]
    ensures ToLower(s) == t
  {
    ToLowerChars(s);
  }

  // ---------------------------------------------------------------------------
  // int64 wrap-around

  /** The int64 that Go's arithmetic leaves when the exact result is `x`. */
  function WrapInt64(x: int): (r: int)
    ensures InInt64(r)
    ensures (x - r) % TwoTo64 == 0
    ensures InInt64(x) ==> r == x
  {
    (x - MinInt64) % TwoTo64 + MinInt64
  }

  // ---------------------------------------------------------------------------
  // strconv.ParseInt(s, 10, 64) and strconv.FormatInt(n, 10)

  predicate IsDigit(c: char)
  {
    '0' <= c <= '9'
  }

  predicate IsDigits(s: string)
  {
    |s| > 0 && forall i :: 0 <= i < |s| ==> IsDigit(s[i])
  }

  function DigitValue(c: char): nat
    requires IsDigit(c)
  {
    c as int - '0' as int
  }

  function DigitChar(d: nat): (c: char)
    requires d < 10
    ensures IsDigit(c) && DigitValue(c) == d
  {
    ('0' as int + d) as char
  }

  /** The number a non-empty run of decimal digits denotes. */
  function DigitsValue(s: string): nat
    requires IsDigits(s)
  {
    if |s| == 1 then DigitValue(s[0])
    else DigitsValue(s[..|s| - 1]) * 10 + DigitValue(s[|s| - 1])
  }

  /** `s` without its leading sign, if it has one. */
  function Unsigned(s: string): string
  {
    if |s| > 0 && (s[0] == '+' || s[0] == '-') then s[1..] else s
  }

  /** Optional sign followed by at least one decimal digit: the only strings
      `ParseInt(s, 10, 64)` accepts without a syntax error. */
  predicate IsIntegerSyntax(s: string)
  {
    IsDigits(Unsigned(s))
  }

  /** The exact integer an integer-syntax string denotes. */
  function SyntaxValue(s: string): int
    requires IsIntegerSyntax(s)
  {
    if s[0] == '-' then 0 - (DigitsValue(s[1..]) as int) else DigitsValue(Unsigned(s))
  }

  /** The length of the run of decimal digits `s` starts with. */
  function DigitRun(s: string): (k: nat)
    ensures k <= |s|
    ensures forall i | 0 <= i < k :: IsDigit(s[i])
    ensures k < |s| ==> !IsDigit(s[k])
  {
    if |s| == 0 || !IsDigit(s[0]) then 0 else 1 + DigitRun(s[1..])
  }

  /** The digits after the sign exceed the uint64 range before the first
      character that is not a digit: the parser scans left to right and
      reports the overflow as soon as it happens. */
  predicate PrefixOverflows(s: string)
  {
    var body := Unsigned(s);
    var k := DigitRun(body);
    k > 0 && DigitsValue(body[..k]) > MaxUint64
  }

  /** What `strconv.ParseInt(s, 10, 64)` returns: the value, and whether the
      error was nil. */
  datatype Parsed = Parsed(value: int, ok: bool)

  /** `strconv.ParseInt(s, 10, 64)`: a syntax error yields 0; a value outside
      int64 yields the nearest int64 bound together with a range error. An
      overflow met while scanning is a range error even when a bad character
      follows it. */
  function ParseInt(s: string): (r: Parsed)
    ensures InInt64(r.value)
    ensures r.ok <==> IsIntegerSyntax(s) && InInt64(SyntaxValue(s))
    ensures r.ok ==> r.value == SyntaxValue(s)
    ensures !r.ok ==> r.value == 0 || r.value == MaxInt64 || r.value == MinInt64
    ensures !IsIntegerSyntax(s) && !PrefixOverflows(s) ==> r == Parsed(0, false)
    ensures PrefixOverflows(s) ==> r == Parsed(if s[0] == '-' then MinInt64 else MaxInt64, false)
    ensures IsIntegerSyntax(s) && SyntaxValue(s) > MaxInt64 ==> r == Parsed(MaxInt64, false)
    ensures IsIntegerSyntax(s) && SyntaxValue(s) < MinInt64 ==> r == Parsed(MinInt64, false)
  {
    var neg := |s| > 0 && s[0] == '-';
    if PrefixOverflows(s) then
      assert IsIntegerSyntax(s) ==> Unsigned(s)[..|Unsigned(s)|] == Unsigned(s);
      if neg then Parsed(MinInt64, false) else Parsed(MaxInt64, false)
    else if !IsIntegerSyntax(s) then Parsed(0, false)
    else
      var v := SyntaxValue(s);
      if v > MaxInt64 then Parsed(MaxInt64, false)
      else if v < MinInt64 then Parsed(MinInt64, false)
      else Parsed(v, true)
  }

  /** The shortest decimal spelling of a natural number. */
  function Decimal(n: nat): (s: string)
    ensures IsDigits(s)
  {
    if n < 10 then [DigitChar(n)] else Decimal(n / 10) + [DigitChar(n % 10)]
  }

  /** `strconv.FormatInt(n, 10)`. */
  function FormatInt(n: int): string
  {
    if n < 0 then "-" + Decimal(-n) else Decimal(n)
  }

  lemma {:induction false} DecimalValue(n: nat)
    ensures DigitsValue(Decimal(n)) == n
    decreases n
  {
    if n >= 10 {
      var s := Decimal(n);
      assert s[..|s| - 1] == Decimal(n / 10);
      DecimalValue(n / 10);
    }
  }

  /** `ParseInt` undoes `FormatInt` on every int64. */
  lemma ParseFormatRoundTrip(n: int)
    requires InInt64(n)
    ensures ParseInt(FormatInt(n)) == Parsed(n, true)
  {
    var s := FormatInt(n);
    if n < 0 {
      assert s[1..] == Decimal(-n);
      DecimalValue(-n);
    } else {
      DecimalValue(n);
    }
  }
}
