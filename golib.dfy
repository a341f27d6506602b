/** The Go library and web-framework behaviour the server handlers rely on:
    `strings.Trim`, `strconv.ParseInt` in base 10 with 64 bits, `time.Time.Sub`,
    integer division of durations, and Fiber's `Ctx.Query` with a default. */
module GoLib {
  import opened Common

  const MaxInt64: int := 0x7FFF_FFFF_FFFF_FFFF
  const MinInt64: int := -0x8000_0000_0000_0000
  const MaxUint64: int := 0xFFFF_FFFF_FFFF_FFFF

  /** `strings.Trim(s, cutset)`: an empty `s` or an empty cutset returns `s`;
      otherwise leading and then trailing cutset characters are removed. */
  function Trim(s: string, cutset: string): (r: string)
    // the early returns agree with trimming both ends
    ensures r == TrimBoth(s, cutset)
    ensures cutset == [] ==> r == s
    ensures TrimmedMiddle(s, cutset, r)
  {
    if s == [] || cutset == [] then
      TrimBothNothingToCut(s, cutset);
      s
    else TrimBoth(s, cutset)
  }

  /** Fiber's `c.Query(key, def)`: the query value, or `def` when the key is absent
      or its value is empty. */
  function Query(params: map<string, string>, key: string, def: string): (r: string)
    ensures key in params && params[key] != "" ==> r == params[key]
    ensures key !in params || params[key] == "" ==> r == def
  {
    if key in params && params[key] != "" then params[key] else def
  }

  // ---------------------------------------------------------------------------
  // strconv.ParseInt(s, 10, 64)

  datatype NumError = ErrSyntax | ErrRange

  /** What `strconv` returns: a value and possibly an error (the value is still defined). */
  datatype Parsed = Parsed(value: int, err: Option<NumError>)

  predicate IsDigit(c: char) { '0' <= c <= '9' }

  function DigitValue(c: char): nat
    requires IsDigit(c)
  {
    c as int - '0' as int
  }

  predicate AllDigits(s: string) { forall i :: 0 <= i < |s| ==> IsDigit(s[i]) }

  /** The number a string of decimal digits denotes, read most significant digit first. */
  function DecimalValue(s: string): nat
    requires AllDigits(s)
  {
    if s == [] then 0 else DecimalValue(s[..|s| - 1]) * 10 + DigitValue(s[|s| - 1])
  }

  /** `n` written in decimal, without leading zeros. */
  function Decimal(n: nat): (s: string)
    ensures s != [] && AllDigits(s)
  {
    var digit := ['0' + (n % 10) as char];
    if n < 10 then digit else Decimal(n / 10) + digit
  }

  /** The first multiple of ten past the largest 64-bit unsigned value, over ten:
      an accumulator at or above it overflows when multiplied by the base. */
  const UintCutoff: int := MaxUint64 / 10 + 1

  /** The digit loop of `strconv.ParseUint` from position `i` with accumulator `n`:
      a non-digit is a syntax error (value 0); an overflow stops the scan at once with
      the largest unsigned value and a range error, even if non-digits follow. */
  function ScanDigits(s: string, i: nat, n: nat): (r: Parsed)
    requires i <= |s| && n <= MaxUint64
    ensures 0 <= r.value <= MaxUint64
    ensures r.err == Some(ErrSyntax) ==> r.value == 0
    ensures r.err == Some(ErrRange) ==> r.value == MaxUint64
    decreases |s| - i
  {
    if i == |s| then Parsed(n, None)
    else if !IsDigit(s[i]) then Parsed(0, Some(ErrSyntax))
    else if n >= UintCutoff then Parsed(MaxUint64, Some(ErrRange))
    else if n * 10 + DigitValue(s[i]) > MaxUint64 then Parsed(MaxUint64, Some(ErrRange))
    else ScanDigits(s, i + 1, n * 10 + DigitValue(s[i]))
  }

  /** `strconv.ParseUint(s, 10, 64)`. */
  function ParseUint(s: string): (r: Parsed)
    ensures 0 <= r.value <= MaxUint64
    ensures r.err == Some(ErrSyntax) ==> r.value == 0
    ensures r.err == Some(ErrRange) ==> r.value == MaxUint64
    ensures s == [] ==> r == Parsed(0, Some(ErrSyntax))
  {
    if s == [] then Parsed(0, Some(ErrSyntax)) else ScanDigits(s, 0, 0)
  }

  /** The text after an optional leading sign. */
  function Unsigned(s: string): string
    requires s != []
  {
    if s[0] == '+' || s[0] == '-' then s[1..] else s
  }

  /** `strconv.ParseInt(s, 10, 64)`: an optional sign, then `ParseUint` on the rest;
      magnitudes beyond the 64-bit signed range are clamped with a range error. */
  function ParseInt(s: string): (r: Parsed)
    ensures MinInt64 <= r.value <= MaxInt64
    ensures r.err == Some(ErrSyntax) ==> r.value == 0
    ensures s != [] && s[0] != '-' ==> r.value >= 0
  {
    if s == [] then Parsed(0, Some(ErrSyntax))
    else
      var neg := s[0] == '-';
      var u := ParseUint(Unsigned(s));
      if u.err == Some(ErrSyntax) then Parsed(0, Some(ErrSyntax))
      else if !neg && u.value >= MaxInt64 + 1 then Parsed(MaxInt64, Some(ErrRange))
      else if neg && u.value > MaxInt64 + 1 then Parsed(MinInt64, Some(ErrRange))
      else Parsed(if neg then -u.value else u.value, None)
  }

  lemma {:induction false} DecimalValuePrefix(s: string, j: nat)
    requires AllDigits(s) && j <= |s|
    ensures DecimalValue(s[..j]) <= DecimalValue(s)
    decreases |s|
  {
    if j < |s| {
      assert s[..|s| - 1][..j] == s[..j];
      DecimalValuePrefix(s[..|s| - 1], j);
    } else {
      assert s[..j] == s;
    }
  }

  /** Scanning an all-digit string whose value fits in 64 bits yields exactly that value. */
  lemma {:induction false} ScanDigitsExact(s: string, i: nat)
    requires AllDigits(s) && i <= |s| && DecimalValue(s) <= MaxUint64
    ensures DecimalValue(s[..i]) <= MaxUint64
    ensures ScanDigits(s, i, DecimalValue(s[..i])) == Parsed(DecimalValue(s), None)
    decreases |s| - i
  {
    DecimalValuePrefix(s, i);
    if i == |s| {
      assert s[..i] == s;
    } else {
      DecimalValuePrefix(s, i + 1);
      assert s[..i + 1][..i] == s[..i];
      ScanDigitsExact(s, i + 1);
    }
  }

  /** The decimal spelling of a number denotes that number. */
  lemma {:induction false} DecimalValueOfDecimal(n: nat)
    ensures DecimalValue(Decimal(n)) == n
  {
    var digit := ['0' + (n % 10) as char];
    if n >= 10 {
      var s := Decimal(n / 10) + digit;
      assert s[..|s| - 1] == Decimal(n / 10);
      DecimalValueOfDecimal(n / 10);
    }
  }

  /** Round trip: `ParseInt` reads back every non-negative 64-bit value written in decimal,
      with or without a leading `+`. */
  lemma ParseIntDecimal(n: nat)
    requires n <= MaxInt64
    ensures ParseInt(Decimal(n)) == Parsed(n, None)
    ensures ParseInt("+" + Decimal(n)) == Parsed(n, None)
  {
    var s := Decimal(n);
    DecimalValueOfDecimal(n);
    ScanDigitsExact(s, 0);
    assert s[..0] == [];
    assert ("+" + s)[1..] == s;
  }

  /** Digits up to position `p`, not enough of them to overflow, and then a non-digit. */
  predicate StopsAtNonDigit(s: string, p: int)
  {
    0 <= p < |s| && AllDigits(s[..p]) && !IsDigit(s[p]) && DecimalValue(s[..p]) <= MaxUint64
  }

  /** Over a run of digits that does not overflow, the scan just accumulates their value. */
  lemma {:induction false} ScanDigitsPrefix(s: string, p: nat, i: nat)
    requires p <= |s| && AllDigits(s[..p]) && DecimalValue(s[..p]) <= MaxUint64 && i <= p
    ensures DecimalValue(s[..i]) <= MaxUint64
    ensures ScanDigits(s, i, DecimalValue(s[..i])) == ScanDigits(s, p, DecimalValue(s[..p]))
    decreases p - i
  {
    var digits := s[..p];
    assert digits[..i] == s[..i];
    DecimalValuePrefix(digits, i);
    if i < p {
      assert digits[..i + 1] == s[..i + 1];
      assert s[..i + 1][..i] == s[..i];
      DecimalValuePrefix(digits, i + 1);
      ScanDigitsPrefix(s, p, i + 1);
    }
  }

  /** A digit string too large for int64 but within uint64 is clamped to the largest int64
      with a range error. */
  lemma ParseIntClamps(s: string)
    requires s != [] && AllDigits(s) && MaxInt64 < DecimalValue(s) <= MaxUint64
    ensures ParseInt(s) == Parsed(MaxInt64, Some(ErrRange))
  {
    ScanDigitsExact(s, 0);
    assert s[..0] == [];
  }

  /** After a '-', a magnitude beyond 2^63 but within uint64 is clamped to the smallest int64
      with a range error. */
  lemma ParseIntClampsNegative(digits: string)
    requires digits != [] && AllDigits(digits) && MaxInt64 + 1 < DecimalValue(digits) <= MaxUint64
    ensures ParseInt("-" + digits) == Parsed(MinInt64, Some(ErrRange))
  {
    ScanDigitsExact(digits, 0);
    assert digits[..0] == [];
    assert Unsigned("-" + digits) == digits;
  }

  /** Round trip for negative values: every magnitude up to 2^63, written after a '-', parses
      back to its negation with no error. */
  lemma ParseIntNegativeDecimal(n: nat)
    requires n <= MaxInt64 + 1
    ensures ParseInt("-" + Decimal(n)) == Parsed(0 - n, None)
  {
    var s := Decimal(n);
    DecimalValueOfDecimal(n);
    ScanDigitsExact(s, 0);
    assert s[..0] == [];
    assert Unsigned("-" + s) == s;
  }

  /** A non-digit reached before the value overflows is a syntax error, whatever follows. */
  lemma ParseUintSyntax(s: string, p: int)
    requires StopsAtNonDigit(s, p)
    ensures ParseUint(s) == Parsed(0, Some(ErrSyntax))
  {
    ScanDigitsPrefix(s, p, 0);
    assert s[..0] == [];
    assert s[..p + 1][..p] == s[..p];
  }

  /** The same for `ParseInt`, after its optional sign. */
  lemma ParseIntSyntax(s: string, p: int)
    requires s != [] && StopsAtNonDigit(Unsigned(s), p)
    ensures ParseInt(s) == Parsed(0, Some(ErrSyntax))
  {
    ParseUintSyntax(Unsigned(s), p);
  }

  // ---------------------------------------------------------------------------
  // time

  /** `t.Sub(u)` on instants given in nanoseconds: the difference, saturated to the
      range of `time.Duration` (a signed 64-bit count of nanoseconds). */
  function Sub(t: int, u: int): (d: int)
    ensures MinInt64 <= d <= MaxInt64
    ensures MinInt64 <= t - u <= MaxInt64 ==> d == t - u
    ensures t - u > MaxInt64 ==> d == MaxInt64
    ensures t - u < MinInt64 ==> d == MinInt64
  {
    if t - u > MaxInt64 then MaxInt64 else if t - u < MinInt64 then MinInt64 else t - u
  }

  /** Go's integer `/`, which truncates toward zero (Dafny's `/` rounds toward minus infinity
      for a positive divisor). */
  function DivTrunc(a: int, b: int): (q: int)
    requires b > 0
  {
    if a >= 0 then a / b else -((-a) / b)
  }
}
