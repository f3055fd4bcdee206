/**
 * The expression text of the calculator (App.tsx): the percentage rewrite applied before
 * evaluation, the sanitising of display separators, and the scanners the keypad rules use
 * to look at the buffer (its last number segment, its operators).
 */
module Expression {
  import opened Wrappers
  import opened Strings

  /** `operators` of `handleKeypadPress`. */
  predicate IsOperator(c: char) {
    c == '+' || c == '-' || c == '*' || c == '/' || c == '%'
  }

  /** The characters the comma rule splits the buffer on: the five operators and both parentheses. */
  predicate IsSegmentBreak(c: char) {
    IsOperator(c) || c == '(' || c == ')'
  }

  /**
   * The last piece of the buffer split on operators and parentheses (or "" when there is
   * none): the text after the last break character, i.e. the number being typed.
   */
  function LastSegment(s: string): (r: string)
    ensures |r| <= |s| && r == s[|s| - |r|..]
    ensures forall k :: 0 <= k < |r| ==> !IsSegmentBreak(r[k])
    ensures |r| < |s| ==> IsSegmentBreak(s[|s| - |r| - 1])
  {
    if |s| == 0 then ""
    else if IsSegmentBreak(s[|s| - 1]) then ""
    else
      var rest := LastSegment(s[..|s| - 1]);
      assert s[..|s| - 1][|s| - 1 - |rest|..] == s[|s| - 1 - |rest|..|s| - 1];
      rest + [s[|s| - 1]]
  }

  /** Appending a character that is not a break extends the last segment by it. */
  lemma LastSegmentAppend(s: string, x: char)
    ensures IsSegmentBreak(x) ==> LastSegment(s + [x]) == ""
    ensures !IsSegmentBreak(x) ==> LastSegment(s + [x]) == LastSegment(s) + [x]
  {
    assert (s + [x])[..|s|] == s;
  }

  // ---------------------------------------------------------------------------------------
  // preprocessPercentageExpression

  /** A string `\d+(?:\.\d+)?` matches: digits with at most one '.', which has digits on both sides. */
  predicate IsNumeral(a: string) {
    && |a| > 0 && IsDigit(a[0]) && IsDigit(a[|a| - 1])
    && (forall k :: 0 <= k < |a| ==> IsDigit(a[k]) || a[k] == '.')
    && (forall i, j :: 0 <= i < j < |a| && a[i] == '.' ==> a[j] != '.')
  }

  /** A string `\s*` matches. */
  predicate IsSpaces(w: string) {
    forall k :: 0 <= k < |w| ==> IsSpace(w[k])
  }

  /** The end of the match of `\d+(?:\.\d+)?` that starts at `i` (greedy). */
  function NumberEnd(s: string, i: nat): (j: nat)
    requires i < |s| && IsDigit(s[i])
    ensures i < j <= |s| && IsDigit(s[j - 1])
  {
    var d := i + DigitRun(s, i);
    if d + 1 < |s| && s[d] == '.' && IsDigit(s[d + 1]) then
      d + 1 + DigitRun(s, d + 1)
    else d
  }

  /** The number read from `i` consists of digits and '.'. */
  lemma NumberEndChars(s: string, i: nat)
    requires i < |s| && IsDigit(s[i])
    ensures forall k :: i <= k < NumberEnd(s, i) ==> IsDigit(s[k]) || s[k] == '.'
  {
    var d := i + DigitRun(s, i);
    DigitRunDigits(s, i);
    if d + 1 < |s| && s[d] == '.' && IsDigit(s[d + 1]) {
      DigitRunDigits(s, d + 1);
    }
  }

  /** A numeral slice, stated on the positions of the whole string. */
  lemma NumeralSlice(s: string, i: nat, j: nat)
    requires i < j <= |s| && IsNumeral(s[i..j])
    ensures IsDigit(s[i]) && IsDigit(s[j - 1])
    ensures forall k :: i <= k < j ==> IsDigit(s[k]) || s[k] == '.'
    ensures forall k, l :: i <= k < l < j && s[k] == '.' ==> s[l] != '.'
  {
    var a := s[i..j];
    assert forall k :: i <= k < j ==> s[k] == a[k - i];
  }

  /**
   * The greedy scan reads a whole numeral when what follows cannot extend it: neither a digit
   * nor a '.' followed by a digit.
   */
  lemma NumberEndAt(s: string, i: nat, j: nat)
    requires i < j <= |s| && IsNumeral(s[i..j])
    requires j < |s| ==> !IsDigit(s[j]) && !(s[j] == '.' && j + 1 < |s| && IsDigit(s[j + 1]))
    ensures IsDigit(s[i]) && NumberEnd(s, i) == j
  {
    NumeralSlice(s, i, j);
    var d := i + DigitRun(s, i);
    DigitRunDigits(s, i);
    if d < j {
      assert s[d] == '.' && d + 1 < j;
      forall k | d + 1 <= k < j
        ensures IsDigit(s[k])
      {
      }
      DigitRunIs(s, d + 1, j - d - 1);
    }
  }

  /** A match of `(\d+(?:\.\d+)?)\s*%\s*(\d+(?:\.\d+)?)` at `i`: the two numbers' bounds. */
  datatype PercentMatch = PercentMatch(leftEnd: nat, rightStart: nat, rightEnd: nat)

  /**
   * The match of the percentage pattern that starts exactly at `i`, if any. Greedy reading
   * is exact here: a shorter first number is followed by a digit or '.', never by `\s` or '%'.
   */
  function MatchPercentAt(s: string, i: nat): (m: Option<PercentMatch>)
    requires i <= |s|
    ensures m.Some? ==> i < m.value.leftEnd < m.value.rightStart < m.value.rightEnd <= |s|
    ensures m.Some? ==> IsDigit(s[i]) && IsDigit(s[m.value.rightStart]) && IsDigit(s[m.value.rightEnd - 1])
    ensures m.Some? ==>
      var p := m.value.leftEnd + SpaceRun(s, m.value.leftEnd);
      p < m.value.rightStart && s[p] == '%'
  {
    if i < |s| && IsDigit(s[i]) then
      var a := NumberEnd(s, i);
      var p := a + SpaceRun(s, a);
      if p < |s| && s[p] == '%' then
        var q := p + 1 + SpaceRun(s, p + 1);
        if q < |s| && IsDigit(s[q]) then
          Some(PercentMatch(a, q, NumberEnd(s, q)))
        else None
      else None
    else None
  }

  /** The replacement `(($1)/100*($2))`. */
  function PercentReplacement(a: string, b: string): string {
    "((" + a + ")/100*(" + b + "))"
  }

  /** The global replace from position `i` on: at each position, a match or the character itself. */
  function PreprocessFrom(s: string, i: nat): (r: string)
    requires i <= |s|
    ensures '%' !in s[i..] ==> r == s[i..]
    decreases |s| - i
  {
    if i == |s| then ""
    else
      match MatchPercentAt(s, i)
      case Some(m) =>
        PercentReplacement(s[i..m.leftEnd], s[m.rightStart..m.rightEnd]) + PreprocessFrom(s, m.rightEnd)
      case None =>
        assert s[i..] == [s[i]] + s[i + 1..];
        [s[i]] + PreprocessFrom(s, i + 1)
  }

  /** `preprocessPercentageExpression`. */
  function PreprocessPercentageExpression(expression: string): (r: string)
    ensures '%' !in expression ==> r == expression
  {
    assert expression[0..] == expression;
    PreprocessFrom(expression, 0)
  }

  /**
   * The text handed to the evaluator: thousands dots dropped, every decimal comma turned
   * into '.', then the percentage rewrite.
   */
  function Sanitize(input: string): (r: string)
    ensures '%' !in input ==> ',' !in r && r == ReplaceAll(RemoveAll(input, '.'), ',', '.')
  {
    var standard := ReplaceAll(RemoveAll(input, '.'), ',', '.');
    assert '%' !in input ==> '%' !in standard;
    PreprocessPercentageExpression(standard)
  }

  /** `a%b` for digit strings a and b is rewritten to `((a)/100*(b))`: a percent of b. */
  lemma PercentOfIntegers(s: string, p: nat)
    requires 0 < p < |s| - 1 && s[p] == '%'
    requires forall k :: 0 <= k < |s| && k != p ==> IsDigit(s[k])
    ensures PreprocessPercentageExpression(s) == PercentReplacement(s[..p], s[p + 1..])
  {
    PercentMatchOfIntegers(s, p);
    assert s[0..p] == s[..p];
    assert PreprocessFrom(s, |s|) == "";
  }

  /** The match in `a%b` spans the whole text: `a` ends at the '%', `b` starts right after it. */
  lemma PercentMatchOfIntegers(s: string, p: nat)
    requires 0 < p < |s| - 1 && s[p] == '%'
    requires forall k :: 0 <= k < |s| && k != p ==> IsDigit(s[k])
    ensures MatchPercentAt(s, 0) == Some(PercentMatch(p, p + 1, |s|))
  {
    assert !IsDigit(s[p]) && !IsSpace(s[p]) && !IsSpace(s[p + 1]);
    DigitRunIs(s, 0, p);
    assert NumberEnd(s, 0) == p;
    assert SpaceRun(s, p) == 0;
    assert SpaceRun(s, p + 1) == 0;
    DigitRunIs(s, p + 1, |s| - p - 1);
  }

  /** The match at `i`, read off the scans it is made of. */
  lemma MatchPercentAtIs(s: string, i: nat, a: nat, p: nat, q: nat, e: nat)
    requires i < |s| && IsDigit(s[i]) && NumberEnd(s, i) == a && a + SpaceRun(s, a) == p
    requires p < |s| && s[p] == '%' && p + 1 + SpaceRun(s, p + 1) == q
    requires q < |s| && IsDigit(s[q]) && NumberEnd(s, q) == e
    ensures MatchPercentAt(s, i) == Some(PercentMatch(a, q, e))
  {
  }

  /** No match at `i` when the first number is not followed (after white space) by '%'. */
  lemma MatchPercentAtNoPercent(s: string, i: nat)
    requires i < |s| && IsDigit(s[i])
    requires var a := NumberEnd(s, i); a + SpaceRun(s, a) < |s| && s[a + SpaceRun(s, a)] != '%'
    ensures MatchPercentAt(s, i).None?
  {
  }

  /** No match starts inside a '%'-free text that ends in neither a digit nor '.'. */
  lemma NoMatchBefore(s: string, n: nat, i: nat)
    requires i < n < |s| && IsDigit(s[n]) && forall k :: 0 <= k < n ==> s[k] != '%'
    requires !IsDigit(s[n - 1]) && s[n - 1] != '.'
    ensures MatchPercentAt(s, i).None?
  {
    if IsDigit(s[i]) {
      var a := NumberEnd(s, i);
      NumberEndChars(s, i);
      assert a < n;
      var w := SpaceRun(s, a);
      SpaceRunSpaces(s, a);
      assert a + w <= n;
      MatchPercentAtNoPercent(s, i);
    }
  }

  /** Where no match starts, the global replace copies the character. */
  lemma PreprocessCopies(s: string, i: nat)
    requires i < |s| && MatchPercentAt(s, i).None?
    ensures PreprocessFrom(s, i) == [s[i]] + PreprocessFrom(s, i + 1)
  {
  }

  /** Where a match starts, the global replace rewrites it and goes on after it. */
  lemma PreprocessRewrites(s: string, i: nat, m: PercentMatch)
    requires i < |s| && MatchPercentAt(s, i) == Some(m)
    ensures PreprocessFrom(s, i) ==
      PercentReplacement(s[i..m.leftEnd], s[m.rightStart..m.rightEnd]) + PreprocessFrom(s, m.rightEnd)
  {
  }

  /** The global replace copies a stretch where no match starts. */
  lemma {:induction false} PreprocessCopiesPrefix(s: string, n: nat, i: nat)
    requires i <= n <= |s| && forall k :: i <= k < n ==> MatchPercentAt(s, k).None?
    ensures PreprocessFrom(s, i) == s[i..n] + PreprocessFrom(s, n)
    decreases n - i
  {
    if i < n {
      PreprocessCopies(s, i);
      PreprocessCopiesPrefix(s, n, i + 1);
      SliceCons(s, i, n, PreprocessFrom(s, n));
    }
  }

  /** The global replace keeps a '%'-free text that ends in neither a digit nor '.' and is followed by a digit. */
  lemma PreprocessKeepsPrefix(s: string, n: nat)
    requires n < |s| && IsDigit(s[n]) && forall k :: 0 <= k < n ==> s[k] != '%'
    requires n > 0 ==> !IsDigit(s[n - 1]) && s[n - 1] != '.'
    ensures PreprocessFrom(s, 0) == s[..n] + PreprocessFrom(s, n)
  {
    forall k | 0 <= k < n
      ensures MatchPercentAt(s, k).None?
    {
      NoMatchBefore(s, n, k);
    }
    PreprocessCopiesPrefix(s, n, 0);
    assert s[0..n] == s[..n];
  }

  /** Where the parts of `x a sp1 % sp2 b y` sit in the whole. */
  lemma PercentContextLayout(s: string, x: string, a: string, sp1: string, sp2: string, b: string, y: string)
    requires s == x + a + sp1 + "%" + sp2 + b + y
    requires '%' !in x && IsSpaces(sp1) && IsSpaces(sp2)
    ensures var i1 := |x| + |a|; var i2 := i1 + |sp1|; var i4 := i2 + 1 + |sp2|; var i5 := i4 + |b|;
      && |s| == i5 + |y| && |x + a + sp1 + "%" + sp2 + b| == i5
      && s[..|x|] == x && s[|x|..i1] == a && s[i4..i5] == b && s[i5..] == y && s[i2] == '%'
      && (forall k :: 0 <= k < |x| ==> s[k] == x[k] && s[k] != '%')
      && (forall k :: i1 <= k < i2 ==> IsSpace(s[k]))
      && (forall k :: i2 < k < i4 ==> IsSpace(s[k]))
      && (i5 < |s| ==> s[i5] == y[0] && (i5 + 1 < |s| ==> s[i5 + 1] == y[1]))
  {
    var i1 := |x| + |a|;
    var i2 := i1 + |sp1|;
    var i4 := i2 + 1 + |sp2|;
    forall k | 0 <= k < |x|
      ensures s[k] == x[k] && s[k] != '%'
    {
      assert x[k] in x;
    }
    assert forall k :: i1 <= k < i2 ==> s[k] == sp1[k - i1];
    assert forall k :: i2 < k < i4 ==> s[k] == sp2[k - i2 - 1];
  }

  /** The match at `i0` on positions: two numbers with a '%' at `i2` and white space around it. */
  lemma MatchAtPositions(s: string, i0: nat, i1: nat, i2: nat, i4: nat, i5: nat)
    requires i0 < i1 <= i2 < i4 < i5 <= |s| && s[i2] == '%'
    requires IsDigit(s[i0]) && NumberEnd(s, i0) == i1 && IsDigit(s[i4]) && NumberEnd(s, i4) == i5
    requires forall k :: i1 <= k < i2 ==> IsSpace(s[k])
    requires forall k :: i2 < k < i4 ==> IsSpace(s[k])
    ensures MatchPercentAt(s, i0) == Some(PercentMatch(i1, i4, i5))
  {
    SpaceRunIs(s, i1, i2 - i1);
    SpaceRunIs(s, i2 + 1, i4 - i2 - 1);
    MatchPercentAtIs(s, i0, i1, i2, i4, i5);
  }

  /**
   * The rewrite of `x a % b y` on positions: the numbers read from `i0` and `i4` end at `i1`
   * and `i5`, the '%' is at `i2` with white space around it, and the text before `i0` has no '%'.
   */
  lemma PercentAtPositions(s: string, i0: nat, i1: nat, i2: nat, i4: nat, i5: nat)
    requires i0 < i1 <= i2 < i4 < i5 <= |s| && s[i2] == '%'
    requires IsDigit(s[i0]) && NumberEnd(s, i0) == i1 && IsDigit(s[i4]) && NumberEnd(s, i4) == i5
    requires forall k :: i1 <= k < i2 ==> IsSpace(s[k])
    requires forall k :: i2 < k < i4 ==> IsSpace(s[k])
    requires forall k :: 0 <= k < i0 ==> s[k] != '%'
    requires i0 > 0 ==> !IsDigit(s[i0 - 1]) && s[i0 - 1] != '.'
    ensures PreprocessFrom(s, 0) == s[..i0] + PercentReplacement(s[i0..i1], s[i4..i5]) + PreprocessFrom(s, i5)
  {
    MatchAtPositions(s, i0, i1, i2, i4, i5);
    PreprocessKeepsPrefix(s, i0);
    PreprocessRewrites(s, i0, PercentMatch(i1, i4, i5));
    AppendAssoc(s[..i0], PercentReplacement(s[i0..i1], s[i4..i5]), PreprocessFrom(s, i5));
  }

  /**
   * `a % b` inside a larger expression, with decimal operands and white space around '%':
   * the text before it is kept, the match is rewritten to `((a)/100*(b))`, and the replace
   * goes on after `b`. The surrounding text must not glue onto the numbers: `x` has no '%'
   * and ends in neither a digit nor '.', and `y` starts with neither a digit nor '.' and a digit.
   */
  lemma PercentInContext(x: string, a: string, sp1: string, sp2: string, b: string, y: string)
    requires '%' !in x && (|x| > 0 ==> !IsDigit(x[|x| - 1]) && x[|x| - 1] != '.')
    requires IsNumeral(a) && IsNumeral(b) && IsSpaces(sp1) && IsSpaces(sp2)
    requires |y| > 0 ==> !IsDigit(y[0]) && !(y[0] == '.' && |y| > 1 && IsDigit(y[1]))
    ensures var s := x + a + sp1 + "%" + sp2 + b + y;
      var e := |x + a + sp1 + "%" + sp2 + b|;
      e <= |s| && PreprocessPercentageExpression(s) == x + PercentReplacement(a, b) + PreprocessFrom(s, e)
    ensures '%' !in y ==>
      PreprocessPercentageExpression(x + a + sp1 + "%" + sp2 + b + y) == x + PercentReplacement(a, b) + y
  {
    var s := x + a + sp1 + "%" + sp2 + b + y;
    var i0 := |x|;
    var i1 := i0 + |a|;
    var i2 := i1 + |sp1|;
    var i4 := i2 + 1 + |sp2|;
    var i5 := i4 + |b|;
    PercentContextLayout(s, x, a, sp1, sp2, b, y);
    NumberEndAt(s, i0, i1);
    NumberEndAt(s, i4, i5);
    PercentAtPositions(s, i0, i1, i2, i4, i5);
  }

  /** A '%' without a number on its left is left alone: `-%5` is unchanged. */
  lemma PercentUnmatchedExample()
    ensures PreprocessPercentageExpression("-%5") == "-%5"
  {
    var s := "-%5";
    assert MatchPercentAt(s, 0).None?;
    assert MatchPercentAt(s, 1).None?;
    assert DigitRun(s, 2) == 1;
    assert NumberEnd(s, 2) == 3;
    assert SpaceRun(s, 3) == 0;
    assert MatchPercentAt(s, 2).None?;
    assert PreprocessFrom(s, 3) == "";
  }
}
