/**
 * mobile/services/calculatorService.ts: parsing of display numbers (`,` decimal separator,
 * `.` thousands separator), the COP-by-thousand scaling, and the trailing-zero trimming that
 * `formatNumberForDisplay` applies to the locale-formatted string.
 */
module CalculatorService {
  import opened Wrappers
  import opened Types
  import opened Strings

  // ---------------------------------------------------------------------------------------
  // parseFloat and parseDisplayNumber

  predicate AllDigits(d: string) {
    forall i :: 0 <= i < |d| ==> IsDigit(d[i])
  }

  /** The value of a string of decimal digits read as an integer. */
  function DigitsValue(d: string): (v: real)
    requires AllDigits(d)
    ensures v >= 0.0
  {
    if |d| == 0 then 0.0 else DigitsValue(d[..|d| - 1]) * 10.0 + DigitValue(d[|d| - 1]) as real
  }

  /** The value of a string of decimal digits read as the digits after a decimal point. */
  function FractionValue(d: string): (v: real)
    requires AllDigits(d)
    ensures 0.0 <= v <= 1.0
  {
    if |d| == 0 then 0.0 else (DigitValue(d[0]) as real + FractionValue(d[1..])) / 10.0
  }

  /**
   * The unsigned part of `parseFloat`: the longest prefix of the form digits [ '.' digits ]
   * holding at least one digit; NaN when there is none.
   */
  function ParseUnsigned(u: string): (n: Num)
  {
    var i := DigitRun(u, 0);
    var f := if i < |u| && u[i] == '.' then DigitRun(u, i + 1) else 0;
    DigitRunDigits(u, 0);
    if i == 0 && f == 0 then NaN
    else Finite(DigitsValue(u[..i]) + (if f > 0 then DigitRunDigits(u, i + 1); FractionValue(u[i + 1..i + 1 + f]) else 0.0))
  }

  function Negate(n: Num): Num {
    match n
    case NaN => NaN
    case Finite(x) => Finite(-x)
  }

  /** `parseFloat`: skip leading white space, read an optional sign, then the unsigned number. */
  function ParseFloat(s: string): (n: Num)
  {
    var t := s[SpaceRun(s, 0)..];
    if |t| > 0 && t[0] == '-' then Negate(ParseUnsigned(t[1..]))
    else if |t| > 0 && t[0] == '+' then ParseUnsigned(t[1..])
    else ParseUnsigned(t)
  }

  /** `parseDisplayNumber`: drop every `.`, turn the first `,` into `.`, then `parseFloat`. */
  function ParseDisplayNumber(displayNum: string): (n: Num)
  {
    ParseFloat(ReplaceFirst(RemoveAll(displayNum, '.'), ',', '.'))
  }

  /** A string that starts with a digit is read by `parseFloat` without white space or sign. */
  lemma ParseFloatFromDigit(s: string)
    requires |s| > 0 && IsDigit(s[0])
    ensures ParseFloat(s) == ParseUnsigned(s)
  {
    assert !IsSpace(s[0]);
    assert s[0..] == s;
  }

  /** A non-empty run of digits parses to its integer value. */
  lemma ParseFloatOfDigits(d: string)
    requires |d| > 0 && AllDigits(d)
    ensures ParseFloat(d) == Finite(DigitsValue(d))
  {
    ParseFloatFromDigit(d);
    DigitRunIs(d, 0, |d|);
    assert d[..|d|] == d;
  }

  /** `digits '.' digits` parses to the integer part plus the fraction. */
  lemma ParseFloatOfDecimal(s: string, p: nat)
    requires 0 < p < |s| && s[p] == '.'
    requires forall k :: 0 <= k < |s| && k != p ==> IsDigit(s[k])
    ensures AllDigits(s[..p]) && AllDigits(s[p + 1..])
    ensures ParseFloat(s) == Finite(DigitsValue(s[..p]) + FractionValue(s[p + 1..]))
  {
    ParseFloatFromDigit(s);
    DigitRunIs(s, 0, p);
    var f := DigitRun(s, p + 1);
    DigitRunIs(s, p + 1, |s| - p - 1);
    assert s[p + 1..p + 1 + f] == s[p + 1..];
    if f == 0 {
      assert s[p + 1..] == [];
    }
  }

  // ---------------------------------------------------------------------------------------
  // calculateEffectiveValue

  /** `calculateEffectiveValue`: COP amounts are scaled by 1000 when the setting is on. */
  function CalculateEffectiveValue(value: Num, currency: Currency, settings: AppSettings): (r: Num)
    ensures currency == COP && settings.copMultiplyByThousand ==>
      (value.NaN? ==> r.NaN?) && (value.Finite? ==> r == Finite(value.r * 1000.0))
    ensures !(currency == COP && settings.copMultiplyByThousand) ==> r == value
  {
    if currency == COP && settings.copMultiplyByThousand then
      match value
      case NaN => NaN
      case Finite(x) => Finite(x * 1000.0)
    else value
  }

  // ---------------------------------------------------------------------------------------
  // formatNumberForDisplay

  /** What `formatNumberForDisplay` may be called with. */
  datatype FormatArg = NullArg | UndefinedArg | NumberArg(n: Num) | StringArg(s: string)

  /** `toLocaleString('es-VE', {minimumFractionDigits, maximumFractionDigits})`, supplied by the caller. */
  type Locale = (real, nat, nat) -> string

  /** `s.split(c)`. */
  function Split(s: string, c: char): (parts: seq<string>)
    ensures |parts| >= 1
    ensures |parts| > 1 <==> c in s
    ensures IndexOf(s, c).None? ==> parts == [s]
    ensures IndexOf(s, c).Some? ==> parts[0] == s[..IndexOf(s, c).value]
    ensures forall k :: 0 <= k < |parts| ==> c !in parts[k]
    decreases |s|
  {
    match IndexOf(s, c)
    case None => [s]
    case Some(i) => [s[..i]] + Split(s[i + 1..], c)
  }

  /** The fraction string with trailing '0's removed while it is longer than `minDigits`. */
  function TrimTrailingZeros(fraction: string, minDigits: nat): (r: string)
    decreases |fraction|
  {
    if |fraction| > minDigits && fraction[|fraction| - 1] == '0' then
      TrimTrailingZeros(fraction[..|fraction| - 1], minDigits)
    else fraction
  }

  /** `s.padEnd(n, '0')`. */
  function PadEnd(s: string, n: nat): (r: string)
    ensures |r| == if |s| >= n then |s| else n
    ensures r[..|s|] == s
    ensures forall k :: |s| <= k < |r| ==> r[k] == '0'
    decreases n - |s|
  {
    if |s| >= n then s else PadEnd(s + "0", n)
  }

  function Max(a: nat, b: nat): nat {
    if a >= b then a else b
  }

  /** The string `formatNumberForDisplay` returns. */
  function FormatSpec(num: FormatArg, minFractionDigits: nat, keepTrailingZeros: bool, toLocale: Locale): string
  {
    if num.NullArg? || num.UndefinedArg? then "-.--"
    else
      var x := if num.NumberArg? then num.n else ParseDisplayNumber(num.s);
      if x.NaN? then "Error"
      else
        var maxFractionDigits := if keepTrailingZeros then minFractionDigits else Max(minFractionDigits, 6);
        var formatted := toLocale(x.r, minFractionDigits, maxFractionDigits);
        if !keepTrailingZeros && minFractionDigits > 0 && ',' in formatted then
          var parts := Split(formatted, ',');
          var integerPart := parts[0];
          var fraction := TrimTrailingZeros(parts[1], minFractionDigits);
          if |fraction| == 0 then
            if minFractionDigits == 0 then integerPart
            else integerPart + "," + PadEnd(fraction, minFractionDigits)
          else integerPart + "," + fraction
        else formatted
  }

  /** `formatNumberForDisplay`, with its trimming loop. */
  method FormatNumberForDisplay(num: FormatArg, minFractionDigits: nat, keepTrailingZeros: bool, toLocale: Locale)
    returns (formatted: string)
    ensures formatted == FormatSpec(num, minFractionDigits, keepTrailingZeros, toLocale)
  {
    if num.NullArg? || num.UndefinedArg? {
      return "-.--";
    }
    var numberToFormat: Num;
    if num.StringArg? {
      numberToFormat := ParseDisplayNumber(num.s);
    } else {
      numberToFormat := num.n;
    }
    if numberToFormat.NaN? {
      return "Error";
    }
    var maxFractionDigits := if keepTrailingZeros then minFractionDigits else Max(minFractionDigits, 6);
    formatted := toLocale(numberToFormat.r, minFractionDigits, maxFractionDigits);
    if !keepTrailingZeros && minFractionDigits > 0 && ',' in formatted {
      var parts := Split(formatted, ',');
      if |parts| > 1 {
        var integerPart := parts[0];
        var fraction := parts[1];
        while |fraction| > minFractionDigits && fraction[|fraction| - 1] == '0'
          invariant TrimTrailingZeros(fraction, minFractionDigits) == TrimTrailingZeros(parts[1], minFractionDigits)
          decreases |fraction|
        {
          fraction := fraction[..|fraction| - 1];
        }
        if |fraction| == 0 {
          if minFractionDigits == 0 {
            formatted := integerPart;
          } else {
            formatted := integerPart + "," + PadEnd(fraction, minFractionDigits);
          }
        } else {
          formatted := integerPart + "," + fraction;
        }
      }
    }
  }

  /**
   * The trimming loop only removes trailing '0's, never shortens the fraction below
   * `minDigits`, and stops at the first non-zero digit.
   */
  lemma {:induction false} TrimTrailingZerosSpec(fraction: string, minDigits: nat)
    ensures var r := TrimTrailingZeros(fraction, minDigits);
      && |r| <= |fraction| && r == fraction[..|r|]
      && (forall k :: |r| <= k < |fraction| ==> fraction[k] == '0')
      && (|r| >= minDigits || r == fraction)
      && (|r| > minDigits ==> r[|r| - 1] != '0')
    decreases |fraction|
  {
    if |fraction| > minDigits && fraction[|fraction| - 1] == '0' {
      var shorter := fraction[..|fraction| - 1];
      TrimTrailingZerosSpec(shorter, minDigits);
      var r := TrimTrailingZeros(shorter, minDigits);
      assert r == shorter[..|r|];
      assert forall k :: |r| <= k < |shorter| ==> shorter[k] == fraction[k];
    }
  }

  /** `null` and `undefined` show as '-.--'; NaN (also a string that does not parse) shows as 'Error'. */
  lemma FormatPlaceholders(minFractionDigits: nat, keep: bool, toLocale: Locale, s: string)
    ensures FormatSpec(NullArg, minFractionDigits, keep, toLocale) == "-.--"
    ensures FormatSpec(UndefinedArg, minFractionDigits, keep, toLocale) == "-.--"
    ensures FormatSpec(NumberArg(NaN), minFractionDigits, keep, toLocale) == "Error"
    ensures ParseDisplayNumber(s).NaN? ==> FormatSpec(StringArg(s), minFractionDigits, keep, toLocale) == "Error"
  {
  }

  /** With `keepTrailingZeros` the locale output is returned as is, with exactly `min` digits requested. */
  lemma FormatKeepIsLocale(x: real, minFractionDigits: nat, toLocale: Locale)
    ensures FormatSpec(NumberArg(Finite(x)), minFractionDigits, true, toLocale) == toLocale(x, minFractionDigits, minFractionDigits)
  {
  }

  /**
   * With a minimum of 0 digits nothing is trimmed at all: the branch that would return the
   * integer part alone is never reached, because trimming requires a positive minimum.
   */
  lemma FormatZeroMinimumIsLocale(x: real, toLocale: Locale)
    ensures FormatSpec(NumberArg(Finite(x)), 0, false, toLocale) == toLocale(x, 0, 6)
  {
  }

  /**
   * When trimming applies, the result is the integer part, a comma and a fraction that is
   * the locale's fraction with trailing zeros trimmed (never below the minimum), or the
   * minimum number of zeros when the locale wrote no fraction digits.
   */
  lemma {:induction false} FormatTrimmedFraction(x: real, minFractionDigits: nat, toLocale: Locale)
    requires minFractionDigits > 0
    requires ',' in toLocale(x, minFractionDigits, Max(minFractionDigits, 6))
    ensures var formatted := toLocale(x, minFractionDigits, Max(minFractionDigits, 6));
      var parts := Split(formatted, ',');
      exists g :: FormatSpec(NumberArg(Finite(x)), minFractionDigits, false, toLocale) == parts[0] + "," + g
        && |g| > 0 && (|g| >= minFractionDigits || g == parts[1])
        && (parts[1] == "" ==> g == PadEnd("", minFractionDigits))
        && (parts[1] != "" ==> |g| <= |parts[1]| && g == parts[1][..|g|] && forall k :: |g| <= k < |parts[1]| ==> parts[1][k] == '0')
  {
    var formatted := toLocale(x, minFractionDigits, Max(minFractionDigits, 6));
    var parts := Split(formatted, ',');
    var fraction := TrimTrailingZeros(parts[1], minFractionDigits);
    TrimTrailingZerosSpec(parts[1], minFractionDigits);
    if |fraction| == 0 {
      var g := PadEnd(fraction, minFractionDigits);
      assert FormatSpec(NumberArg(Finite(x)), minFractionDigits, false, toLocale) == parts[0] + "," + g;
    } else {
      assert FormatSpec(NumberArg(Finite(x)), minFractionDigits, false, toLocale) == parts[0] + "," + fraction;
    }
  }

  /**
   * A display number written as digits, one comma and digits (the form the rate editors
   * build) parses to the integer part plus the fraction.
   */
  lemma ParseDisplayNumberOfCommaDecimal(s: string, p: nat)
    requires 0 < p < |s| && s[p] == ','
    requires forall k :: 0 <= k < |s| && k != p ==> IsDigit(s[k])
    ensures AllDigits(s[..p]) && AllDigits(s[p + 1..])
    ensures ParseDisplayNumber(s) == Finite(DigitsValue(s[..p]) + FractionValue(s[p + 1..]))
  {
    assert '.' !in s by {
      assert forall k :: 0 <= k < |s| ==> s[k] != '.';
    }
    assert RemoveAll(s, '.') == s;
    assert ',' !in s[..p] by {
      assert forall k :: 0 <= k < p ==> s[..p][k] != ',';
    }
    assert IndexOf(s, ',') == Some(p);
    var r := ReplaceFirst(s, ',', '.');
    assert r == s[..p] + ['.'] + s[p + 1..];
    assert forall k :: 0 <= k < |r| && k != p ==> r[k] == s[k];
    ParseFloatOfDecimal(r, p);
    assert r[..p] == s[..p] && r[p + 1..] == s[p + 1..];
  }

  /** A display number of digits only parses to its integer value. */
  lemma ParseDisplayNumberOfDigits(s: string)
    requires |s| > 0 && AllDigits(s)
    ensures ParseDisplayNumber(s) == Finite(DigitsValue(s))
  {
    assert '.' !in s by {
      assert forall k :: 0 <= k < |s| ==> s[k] != '.';
    }
    assert ',' !in s by {
      assert forall k :: 0 <= k < |s| ==> s[k] != ',';
    }
    ParseFloatOfDigits(s);
  }

  /** Thousands dots are ignored: removing them first does not change the value. */
  lemma ParseDisplayNumberIgnoresDots(s: string)
    ensures ParseDisplayNumber(RemoveAll(s, '.')) == ParseDisplayNumber(s)
  {
    assert RemoveAll(RemoveAll(s, '.'), '.') == RemoveAll(s, '.');
  }
}
