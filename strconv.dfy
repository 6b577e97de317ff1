/** The decimal conversions the controller relies on: strconv.Atoi (for
    the day count of a validity string) and the decimal rendering of an
    integer (strconv.FormatInt, big.Int.String for the serial number). */
module Strconv {
  import opened Errors
  import opened Types

  predicate IsDigit(c: char)
  {
    '0' <= c <= '9'
  }

  predicate AllDigits(s: string)
  {
    forall i :: 0 <= i < |s| ==> IsDigit(s[i])
  }

  /** The value of a string of decimal digits, most significant first. */
  function DigitsValue(s: string): nat
    requires AllDigits(s)
  {
    if s == [] then 0 else DigitsValue(s[..|s| - 1]) * 10 + (s[|s| - 1] as int - '0' as int)
  }

  /** The digits of a non-negative integer, without leading zeros. */
  function FormatNat(n: nat): (s: string)
    ensures s != [] && AllDigits(s)
    ensures s[0] == '0' ==> n == 0 && s == "0"
  {
    var d := ['0' + (n % 10) as char];
    if n < 10 then d else FormatNat(n / 10) + d
  }

  /** strconv.FormatInt(n, 10). */
  function FormatInt(n: int): string
  {
    if n < 0 then "-" + FormatNat(-n) else FormatNat(n)
  }

  /** The largest uint64, the ceiling strconv.ParseUint accumulates to. */
  const MaxUint64: int := 0xFFFF_FFFF_FFFF_FFFF

  /** A string without its leading sign, if it has one: the part
      strconv.ParseInt hands to strconv.ParseUint. */
  function Unsigned(s: string): (u: string)
    ensures |s| > 0 && (s[0] == '-' || s[0] == '+') ==> u == s[1..]
    ensures !(|s| > 0 && (s[0] == '-' || s[0] == '+')) ==> u == s
  {
    if |s| > 0 && (s[0] == '-' || s[0] == '+') then s[1..] else s
  }

  /** The longest run of digits a string starts with: what
      strconv.ParseUint has accumulated when it meets the first
      non-digit. */
  function LeadingDigits(s: string): (p: string)
    ensures AllDigits(p) && p <= s
    ensures |p| < |s| ==> !IsDigit(s[|p|])
    ensures AllDigits(s) ==> p == s
  {
    if s == [] || !IsDigit(s[0]) then [] else [s[0]] + LeadingDigits(s[1..])
  }

  /** The syntax strconv.Atoi accepts: an optional sign, then one or more
      ASCII decimal digits; no spaces, underscores or other bases. */
  predicate IsDecimalInteger(s: string)
  {
    Unsigned(s) != [] && AllDigits(Unsigned(s))
  }

  /** The mathematical value of a string that IsDecimalInteger accepts. */
  function DecimalValue(s: string): int
    requires IsDecimalInteger(s)
  {
    if s[0] == '-' then -(DigitsValue(s[1..]) as int)
    else if s[0] == '+' then DigitsValue(s[1..])
    else DigitsValue(s)
  }

  /** strconv.Atoi on a 64-bit platform. Strings shorter than 19 bytes
      take a fast path that gives the same answers as the slow path,
      strconv.ParseInt(s, 10, 0): that strips one sign, then
      strconv.ParseUint scans the digits left to right, failing with
      ErrSyntax at the first non-digit but with ErrRange as soon as the
      digits read so far exceed 2^64-1, whichever comes first; a value
      outside the int64 range is then ErrRange as well. Every error
      carries the whole input. */
  function Atoi(s: string): (r: Result<int>)
    ensures r.Ok? <==> IsDecimalInteger(s) && MinInt64 <= DecimalValue(s) <= MaxInt64
    ensures r.Ok? ==> r.value == DecimalValue(s)
    ensures r.Err? ==> r.error == NumError("Atoi", s,
              if IsDecimalInteger(s) || DigitsValue(LeadingDigits(Unsigned(s))) > MaxUint64
              then ErrRange else ErrSyntax)
  {
    var neg := |s| > 0 && s[0] == '-';
    var digits := Unsigned(s);
    if DigitsValue(LeadingDigits(digits)) > MaxUint64 then Err(NumError("Atoi", s, ErrRange))
    else if digits == [] || !AllDigits(digits) then Err(NumError("Atoi", s, ErrSyntax))
    else
      var magnitude: int := DigitsValue(digits);
      var v := if neg then -magnitude else magnitude;
      if v < MinInt64 || v > MaxInt64 then Err(NumError("Atoi", s, ErrRange)) else Ok(v)
  }

  lemma {:induction false} DigitsValueOfFormatNat(n: nat)
    ensures DigitsValue(FormatNat(n)) == n
  {
    var d := ['0' + (n % 10) as char];
    if n >= 10 {
      DigitsValueOfFormatNat(n / 10);
      var s := FormatNat(n / 10) + d;
      assert s[..|s| - 1] == FormatNat(n / 10);
    }
  }

  /** Printing an int64 and reading it back with Atoi gives it back. */
  lemma AtoiFormatInt(n: int)
    requires MinInt64 <= n <= MaxInt64
    ensures Atoi(FormatInt(n)) == Ok(n)
  {
    var s := FormatInt(n);
    if n < 0 {
      DigitsValueOfFormatNat(-n);
      assert s[1..] == FormatNat(-n);
      assert s[0] == '-';
    } else {
      DigitsValueOfFormatNat(n);
      assert s[0] != '-' && s[0] != '+';
    }
  }

  function Pow10(n: nat): nat
  {
    if n == 0 then 1 else 10 * Pow10(n - 1)
  }

  lemma {:induction false} Pow10Add(a: nat, b: nat)
    ensures Pow10(a + b) == Pow10(a) * Pow10(b)
  {
    if a > 0 {
      Pow10Add(a - 1, b);
    }
  }

  /** 10^19, the place value of the twentieth digit. */
  lemma Pow10Nineteen()
    ensures Pow10(19) == 10_000_000_000_000_000_000
  {
    assert Pow10(3) == 1000;
    Pow10Add(3, 3);
    Pow10Add(6, 6);
    Pow10Add(12, 6);
    Pow10Add(18, 1);
  }

  /** A digit string is worth at least its leading digit times the place
      value of that digit. */
  lemma {:induction false} LeadingDigitBound(p: string)
    requires AllDigits(p) && p != []
    ensures DigitsValue(p) >= (p[0] as int - '0' as int) * Pow10(|p| - 1)
  {
    if |p| > 1 {
      var q := p[..|p| - 1];
      LeadingDigitBound(q);
      var d := p[0] as int - '0' as int;
      assert q[0] == p[0];
      calc {
        DigitsValue(p);
      >= DigitsValue(q) * 10;
      >= d * Pow10(|q| - 1) * 10;
      == d * Pow10(|p| - 1);
      }
    }
  }

  /** A digit run followed by a non-digit (or nothing) is the leading
      run of the whole. */
  lemma {:induction false} LeadingDigitsOfRun(p: string, rest: string)
    requires AllDigits(p)
    requires rest == [] || !IsDigit(rest[0])
    ensures LeadingDigits(p + rest) == p
  {
    if p != [] {
      assert (p + rest)[1..] == p[1..] + rest;
      LeadingDigitsOfRun(p[1..], rest);
    }
  }

  /** Overflow is reported where it happens: twenty digits led by 2 or
      more exceed 2^64-1, so whatever non-digit follows them is never
      reached and the error is ErrRange, not ErrSyntax (for instance
      "99999999999999999999x"). */
  lemma AtoiOverflowBeforeSyntax(p: string, rest: string)
    requires AllDigits(p) && |p| == 20 && '2' <= p[0]
    requires rest != [] && !IsDigit(rest[0])
    ensures Atoi(p + rest) == Err(NumError("Atoi", p + rest, ErrRange))
  {
    var s := p + rest;
    assert s[0] == p[0];
    assert Unsigned(s) == s;
    LeadingDigitsOfRun(p, rest);
    LeadingDigitBound(p);
    Pow10Nineteen();
    assert DigitsValue(LeadingDigits(Unsigned(s))) > MaxUint64;
  }

  /** A non-digit met before the digits overflow is ErrSyntax. */
  lemma AtoiSyntaxBeforeOverflow(c: char, rest: string)
    requires IsDigit(c)
    requires rest != [] && !IsDigit(rest[0])
    ensures Atoi([c] + rest) == Err(NumError("Atoi", [c] + rest, ErrSyntax))
  {
    var s := [c] + rest;
    LeadingDigitsOfRun([c], rest);
    assert Unsigned(s) == s;
    assert DigitsValue(LeadingDigits(s)) <= 9;
    assert !AllDigits(s) by { assert !IsDigit(s[1]); }
  }
}
