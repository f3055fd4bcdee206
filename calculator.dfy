/**
 * The calculator keypad of App.tsx: one text buffer, the last valid result, the two
 * module-level flags `isValueEqual` and `isOperationNew`, and the history. `PressKey` is
 * `handleKeypadPress`, `Preview` the live-preview effect that runs whenever the buffer
 * changed, and `AddToHistory` the history row built on '='. The class `Calculator` holds
 * the same state as mutable fields.
 */
module Calculator {
  import opened Wrappers
  import opened Types
  import opened Constants
  import opened Strings
  import opened Expression
  import opened CalculatorService
  import opened ExchangeRateService

  /** A history row: the expression typed, its value in every currency, and the input currency. */
  datatype HistoryEntry = HistoryEntry(expression: string, results: map<Currency, Num>, inputCurrency: Currency)

  /** The state `handleKeypadPress` reads and writes. */
  datatype CalcState = CalcState(
    input: string, lastValidResult: Num, isValueEqual: bool, isOperationNew: bool, history: seq<HistoryEntry>)

  /** The state at start-up (an empty history; the stored one is not modelled). */
  const INITIAL_CALC_STATE: CalcState := CalcState("0", Finite(0.0), false, false, [])

  /** The most history rows kept. */
  const HISTORY_LIMIT: nat := 50

  /** `mathjs.evaluate`; `None` is a thrown error. */
  type Evaluator = string -> Option<Num>

  /** What the handler reads besides its own state. */
  datatype Env = Env(evaluate: Evaluator, toLocale: Locale, inputCurrency: Currency, settings: AppSettings, matrix: Matrix)

  const ERROR: string := "Error"

  /** `operators.includes(lastChar)`; an empty buffer has no last character. */
  predicate EndsWithOperator(s: string) {
    |s| > 0 && IsOperator(s[|s| - 1])
  }

  /** `/\d$/.test(lastChar)`. */
  predicate EndsWithDigit(s: string) {
    |s| > 0 && IsDigit(s[|s| - 1])
  }

  // ---------------------------------------------------------------------------------------
  // addToHistory

  /** The value shown for `currency` in a history row (`allResults[currency]`). */
  function HistoryResult(effectiveResult: Num, inputCurrency: Currency, matrix: Matrix, currency: Currency): Num {
    if currency == inputCurrency then effectiveResult
    else if inputCurrency in matrix && currency in matrix[inputCurrency] then
      var multiplier := matrix[inputCurrency][currency].value;
      if multiplier != 0.0 && effectiveResult.Finite? then Finite(effectiveResult.r * multiplier) else Finite(0.0)
    else Finite(0.0)
  }

  /** The row `addToHistory` records for a raw result. */
  function HistoryRow(expression: string, rawResult: Num, env: Env): (e: HistoryEntry)
    ensures e.expression == expression && e.inputCurrency == env.inputCurrency
    ensures forall c: Currency :: c in e.results
    ensures e.results[env.inputCurrency] == CalculateEffectiveValue(rawResult, env.inputCurrency, env.settings)
  {
    var effectiveResult := CalculateEffectiveValue(rawResult, env.inputCurrency, env.settings);
    HistoryEntry(expression,
      map c: Currency | true :: HistoryResult(effectiveResult, env.inputCurrency, env.matrix, c),
      env.inputCurrency)
  }

  /** `prev.slice(0, 49)`. */
  function KeepNewest(history: seq<HistoryEntry>): (r: seq<HistoryEntry>)
    ensures |r| == (if |history| <= HISTORY_LIMIT - 1 then |history| else HISTORY_LIMIT - 1)
    ensures r == history[..|r|]
    ensures |history| <= HISTORY_LIMIT - 1 ==> r == history
  {
    if |history| <= HISTORY_LIMIT - 1 then history else history[..HISTORY_LIMIT - 1]
  }

  /** The state after `addToHistory`: the row prepended, the list capped, both flags set. */
  function WithHistoryEntry(s: CalcState, expression: string, rawResult: Num, env: Env): CalcState {
    s.(history := [HistoryRow(expression, rawResult, env)] + KeepNewest(s.history),
       isValueEqual := true, isOperationNew := true)
  }

  // ---------------------------------------------------------------------------------------
  // handleKeypadPress

  /** The '=' key is refused (the buffer cannot be evaluated, or was just evaluated). */
  predicate EqualsRefused(s: CalcState) {
    s.input == ERROR || EndsWithOperator(s.input) || EndsWith(s.input, '(') || EndsWith(s.input, ',') || s.isValueEqual
  }

  /** '=': evaluate the sanitised buffer, show the result with two decimals, record it. */
  function PressEquals(s: CalcState, env: Env): CalcState {
    if EqualsRefused(s) then s
    else
      match env.evaluate(Sanitize(s.input))
      case None => s.(input := ERROR, lastValidResult := Finite(0.0))
      case Some(result) =>
        var formattedResult := FormatSpec(NumberArg(result), 2, true, env.toLocale);
        var newResultValue := ParseDisplayNumber(formattedResult);
        WithHistoryEntry(s.(input := formattedResult, lastValidResult := newResultValue), s.input, newResultValue, env)
  }

  /** An operator key. */
  function PressOperator(s: CalcState, key: char): CalcState
    requires IsOperator(key)
  {
    if s.input == "0" && key != '-' && key != '%' then s
    else if EndsWithOperator(s.input) then s.(input := s.input[..|s.input| - 1] + [key])
    else if !EndsWith(s.input, '(') && !EndsWith(s.input, ',') then s.(input := s.input + [key], isValueEqual := false)
    else s
  }

  /** The ',' key. */
  function PressComma(s: CalcState): CalcState {
    var currentNumberSegment := LastSegment(s.input);
    if ',' !in currentNumberSegment && (EndsWithDigit(s.input) || s.input == "0") then s.(input := s.input + ",")
    else if s.input == "" then s.(input := "0,")
    else s
  }

  /** The '(' key. */
  function PressOpenParen(s: CalcState): CalcState {
    if s.input == "0" then s.(input := "(", isOperationNew := false)
    else if EndsWithDigit(s.input) || EndsWith(s.input, ')') then s.(input := s.input + "*(", isOperationNew := false)
    else if EndsWithOperator(s.input) || EndsWith(s.input, '(') then s.(input := s.input + "(", isOperationNew := false)
    else s
  }

  /** The ')' key. */
  function PressCloseParen(s: CalcState): CalcState {
    if Count(s.input, '(') > Count(s.input, ')') && (EndsWithDigit(s.input) || EndsWith(s.input, ')')) then
      s.(input := s.input + ")")
    else s
  }

  /** Any other key (the digits). */
  function PressDigit(s: CalcState, key: char): CalcState {
    if s.input == "0" then s.(input := [key], isValueEqual := false)
    else if EndsWith(s.input, ')') then s.(input := s.input + "*" + [key])
    else if s.isValueEqual && s.isOperationNew then s.(input := [key], isOperationNew := false, isValueEqual := false)
    else s.(input := s.input + [key], isValueEqual := false)
  }

  /** `handleKeypadPress(key)`. */
  function PressKey(s: CalcState, key: char, env: Env): CalcState {
    if key == 'C' then s.(input := "0", lastValidResult := Finite(0.0))
    else if key == '=' then PressEquals(s, env)
    else if key == BACKSPACE then
      if |s.input| > 1 && s.input != ERROR then s.(input := s.input[..|s.input| - 1], isValueEqual := false)
      else s.(input := "0")
    else if s.input == ERROR then s.(input := if key == ',' then "0," else [key])
    else if IsOperator(key) then PressOperator(s, key)
    else if key == ',' then PressComma(s)
    else if key == '(' then PressOpenParen(s)
    else if key == ')' then PressCloseParen(s)
    else PressDigit(s, key)
  }

  // ---------------------------------------------------------------------------------------
  // The live-preview effect

  /** The characters after which the preview evaluates the buffer without its last character. */
  predicate IsPending(c: char) {
    IsOperator(c) || c == '('
  }

  /** Adopt an evaluation only when it succeeded with a finite number. */
  function Adopt(s: CalcState, result: Option<Num>): CalcState {
    if result.Some? && result.value.Finite? then s.(lastValidResult := result.value) else s
  }

  /** The live-preview effect: re-evaluate the buffer (or the buffer before a trailing operator). */
  function Preview(s: CalcState, env: Env): CalcState {
    if s.input == ERROR || s.input == "" || EndsWith(s.input, ',') then s
    else if IsPending(s.input[|s.input| - 1]) then
      var evalInputBeforeOperator := s.input[..|s.input| - 1];
      if evalInputBeforeOperator == "" || IsPending(evalInputBeforeOperator[|evalInputBeforeOperator| - 1]) then s
      else Adopt(s, env.evaluate(Sanitize(evalInputBeforeOperator)))
    else Adopt(s, env.evaluate(Sanitize(s.input)))
  }

  /** One key press as the user sees it: the handler, then the preview if the buffer changed. */
  function KeyEvent(s: CalcState, key: char, env: Env): CalcState {
    var t := PressKey(s, key, env);
    if t.input != s.input then Preview(t, env) else t
  }

  // ---------------------------------------------------------------------------------------
  // Properties

  /** 'C' always gives the buffer "0" and the last valid result 0, leaving flags and history. */
  lemma ClearResets(s: CalcState, env: Env)
    ensures var t := KeyEvent(s, 'C', env);
      t.input == "0" && t.isValueEqual == s.isValueEqual && t.isOperationNew == s.isOperationNew
      && t.history == s.history
      && (s.input != "0" ==> t.lastValidResult == Preview(s.(input := "0", lastValidResult := Finite(0.0)), env).lastValidResult)
      && (s.input == "0" ==> t.lastValidResult == Finite(0.0))
  {
  }

  /** A refused '=' changes nothing at all. */
  lemma EqualsRefusedIsNoOp(s: CalcState, env: Env)
    requires EqualsRefused(s)
    ensures KeyEvent(s, '=', env) == s
  {
  }

  /** A failing evaluation shows "Error" and resets the result, leaving flags and history. */
  lemma EqualsFailure(s: CalcState, env: Env)
    requires !EqualsRefused(s) && env.evaluate(Sanitize(s.input)).None?
    ensures PressKey(s, '=', env) == s.(input := ERROR, lastValidResult := Finite(0.0))
    ensures KeyEvent(s, '=', env) == PressKey(s, '=', env)
  {
  }

  /**
   * A successful '=' replaces the buffer by the formatted result, records the typed
   * expression as the newest history row (dropping rows beyond 50), and sets both flags,
   * so a second '=' is refused.
   */
  lemma EqualsSuccess(s: CalcState, env: Env, result: Num)
    requires !EqualsRefused(s) && env.evaluate(Sanitize(s.input)) == Some(result)
    ensures var t := PressKey(s, '=', env);
      && t.input == FormatSpec(NumberArg(result), 2, true, env.toLocale)
      && t.lastValidResult == ParseDisplayNumber(t.input)
      && |t.history| <= HISTORY_LIMIT && t.history[0].expression == s.input
      && t.history[1..] == KeepNewest(s.history)
      && t.isValueEqual && t.isOperationNew
      && EqualsRefused(t)
  {
  }

  /** The preview touches only the last valid result. */
  lemma PreviewOnlyResult(s: CalcState, env: Env)
    ensures Preview(s, env) == s.(lastValidResult := Preview(s, env).lastValidResult)
  {
  }

  /**
   * The preview skips "Error", an empty buffer, a trailing ',' and a trailing operator or '('
   * whose prefix is empty or itself ends in one.
   */
  lemma PreviewSkips(s: CalcState, env: Env)
    requires || s.input == ERROR || s.input == "" || EndsWith(s.input, ',')
             || (IsPending(s.input[|s.input| - 1]) &&
                 (|s.input| == 1 || IsPending(s.input[|s.input| - 2])))
    ensures Preview(s, env) == s
  {
    if s.input != ERROR && s.input != "" && !EndsWith(s.input, ',') && |s.input| > 1 {
      assert s.input[..|s.input| - 1][|s.input| - 2] == s.input[|s.input| - 2];
    }
  }

  /**
   * A changed result is the finite value the evaluator gave for the buffer, or for the buffer
   * without its trailing operator or '('; a failed or NaN evaluation keeps the prior result.
   */
  lemma PreviewAdopts(s: CalcState, env: Env)
    requires s.input != ""
    ensures var text := if IsPending(s.input[|s.input| - 1]) then s.input[..|s.input| - 1] else s.input;
      var t := Preview(s, env);
      && (t.lastValidResult != s.lastValidResult ==>
            t.lastValidResult.Finite? && env.evaluate(Sanitize(text)) == Some(t.lastValidResult))
      && (env.evaluate(Sanitize(text)).None? || env.evaluate(Sanitize(text)) == Some(NaN) ==> t == s)
  {
  }

  /**
   * Conversely, a buffer the preview does not skip adopts every finite value the evaluator gives
   * for it, or for it without its trailing operator or '('.
   */
  lemma PreviewAdoptsFinite(s: CalcState, env: Env, v: real)
    requires s.input != ERROR && s.input != "" && !EndsWith(s.input, ',')
    requires !(IsPending(s.input[|s.input| - 1]) && (|s.input| == 1 || IsPending(s.input[|s.input| - 2])))
    requires var text := if IsPending(s.input[|s.input| - 1]) then s.input[..|s.input| - 1] else s.input;
      env.evaluate(Sanitize(text)) == Some(Finite(v))
    ensures Preview(s, env).lastValidResult == Finite(v)
  {
    if IsPending(s.input[|s.input| - 1]) {
      assert s.input[..|s.input| - 1][|s.input| - 2] == s.input[|s.input| - 2];
    }
  }

  /** Pressing '=' twice is the same as pressing it once. */
  lemma {:induction false} EqualsIdempotent(s: CalcState, env: Env)
    ensures KeyEvent(KeyEvent(s, '=', env), '=', env) == KeyEvent(s, '=', env)
  {
    var t := PressKey(s, '=', env);
    var u := KeyEvent(s, '=', env);
    if EqualsRefused(s) {
      EqualsRefusedIsNoOp(s, env);
    } else {
      match env.evaluate(Sanitize(s.input))
      case None =>
        EqualsFailure(s, env);
      case Some(result) =>
        EqualsSuccess(s, env, result);
        PreviewOnlyResult(t, env);
    }
    assert EqualsRefused(u);
    EqualsRefusedIsNoOp(u, env);
  }

  /** The history never holds more than 50 rows once it starts within the limit. */
  lemma HistoryBounded(s: CalcState, key: char, env: Env)
    requires |s.history| <= HISTORY_LIMIT
    ensures |KeyEvent(s, key, env).history| <= HISTORY_LIMIT
  {
    var t := PressKey(s, key, env);
    if key == '=' {
      EqualsHistory(s, env);
    } else {
      OtherKeysKeepHistory(s, key, env);
    }
    PreviewOnlyResult(t, env);
  }

  /** '=' adds at most one row and caps the list at 50. */
  lemma EqualsHistory(s: CalcState, env: Env)
    ensures PressKey(s, '=', env).history == s.history ||
      PressKey(s, '=', env).history == [HistoryRow(s.input, PressKey(s, '=', env).lastValidResult, env)] + KeepNewest(s.history)
    ensures |PressKey(s, '=', env).history| <= HISTORY_LIMIT || PressKey(s, '=', env).history == s.history
  {
    assert PressKey(s, '=', env) == PressEquals(s, env);
  }

  /** Every key but '=' leaves the history alone. */
  lemma OtherKeysKeepHistory(s: CalcState, key: char, env: Env)
    requires key != '='
    ensures PressKey(s, key, env).history == s.history
  {
    var t := PressKey(s, key, env);
    if key == 'C' || key == BACKSPACE || s.input == ERROR {
    } else if IsOperator(key) {
      assert t == PressOperator(s, key);
    } else if key == ',' {
      assert t == PressComma(s);
    } else if key == '(' {
      assert t == PressOpenParen(s);
    } else if key == ')' {
      assert t == PressCloseParen(s);
    } else {
      assert t == PressDigit(s, key);
    }
  }

  /** ⌫ drops the last character (and clears `isValueEqual`), or resets a short or "Error" buffer to "0". */
  lemma BackspaceRule(s: CalcState, env: Env)
    ensures var t := PressKey(s, BACKSPACE, env);
      if |s.input| > 1 && s.input != ERROR then t.input == s.input[..|s.input| - 1] && !t.isValueEqual
      else t.input == "0" && t.isValueEqual == s.isValueEqual
  {
  }

  /**
   * Operators: ignored on "0" except '-' and '%'; a trailing operator is replaced; otherwise
   * appended unless the buffer ends in '(' or ','.
   */
  lemma OperatorRule(s: CalcState, key: char, env: Env)
    requires IsOperator(key) && s.input != ERROR
    ensures var t := PressKey(s, key, env);
      && (s.input == "0" && key != '-' && key != '%' ==> t == s)
      && (s.input != "0" || key == '-' || key == '%' ==>
           if EndsWithOperator(s.input) then t.input == s.input[..|s.input| - 1] + [key]
           else if EndsWith(s.input, '(') || EndsWith(s.input, ',') then t == s
           else t.input == s.input + [key] && !t.isValueEqual)
  {
  }

  /**
   * Digits, in order: on "0" the digit replaces the buffer; after ')' an implicit '*' joins
   * it; right after '=' (both flags set) it starts a new buffer and clears both flags;
   * otherwise it is appended. Every case but the ')' one clears `isValueEqual`.
   */
  lemma DigitRule(s: CalcState, d: char, env: Env)
    requires IsDigit(d) && s.input != ERROR
    ensures var t := PressKey(s, d, env);
      && t.lastValidResult == s.lastValidResult && t.history == s.history
      && if s.input == "0" then t.input == [d] && !t.isValueEqual && t.isOperationNew == s.isOperationNew
         else if EndsWith(s.input, ')') then t.input == s.input + "*" + [d] && t.isValueEqual == s.isValueEqual
         else if s.isValueEqual && s.isOperationNew then t.input == [d] && !t.isValueEqual && !t.isOperationNew
         else t.input == s.input + [d] && !t.isValueEqual && t.isOperationNew == s.isOperationNew
  {
    assert PressKey(s, d, env) == PressDigit(s, d) by {
      assert d != 'C' && d != '=' && d != BACKSPACE && !IsOperator(d) && d != ',' && d != '(' && d != ')';
    }
  }

  /**
   * '(' on "0" gives "("; after a digit or ')' an implicit '*' precedes it; after an operator
   * or '(' it is appended; each clears `isOperationNew`. After ',' it is ignored.
   */
  lemma OpenParenRule(s: CalcState, env: Env)
    requires s.input != ERROR
    ensures var t := PressKey(s, '(', env);
      if s.input == "0" then t.input == "(" && !t.isOperationNew
      else if EndsWithDigit(s.input) || EndsWith(s.input, ')') then t.input == s.input + "*(" && !t.isOperationNew
      else if EndsWithOperator(s.input) || EndsWith(s.input, '(') then t.input == s.input + "(" && !t.isOperationNew
      else t == s
  {
    assert PressKey(s, '(', env) == PressOpenParen(s) by {
      assert !IsOperator('(') && '(' != BACKSPACE;
    }
  }

  /** After "Error" any key other than C, = and ⌫ starts over with that key ("0," for ','). */
  lemma KeyAfterError(s: CalcState, key: char, env: Env)
    requires s.input == ERROR && key != 'C' && key != '=' && key != BACKSPACE
    ensures PressKey(s, key, env).input == if key == ',' then "0," else [key]
  {
  }

  /** The comma is added only to a segment without one, after a digit or on "0". */
  lemma CommaGuard(s: CalcState, env: Env)
    requires s.input != ERROR
    ensures PressKey(s, ',', env).input == s.input + "," <==>
      ',' !in LastSegment(s.input) && (EndsWithDigit(s.input) || s.input == "0")
  {
    assert PressKey(s, ',', env).input == PressComma(s).input by {
      assert !IsOperator(',') && ',' != BACKSPACE;
    }
    CommaAppendRule(s);
  }

  /** `PressComma` appends exactly when its first branch is taken. */
  lemma CommaAppendRule(s: CalcState)
    ensures PressComma(s).input == s.input + "," <==>
      ',' !in LastSegment(s.input) && (EndsWithDigit(s.input) || s.input == "0")
  {
    if !(',' !in LastSegment(s.input) && (EndsWithDigit(s.input) || s.input == "0")) {
      CommaRefused(s);
    }
  }

  /** When the first branch of `PressComma` is not taken, the buffer does not grow by ','. */
  lemma CommaRefused(s: CalcState)
    requires !(',' !in LastSegment(s.input) && (EndsWithDigit(s.input) || s.input == "0"))
    ensures PressComma(s).input != s.input + ","
  {
    var t := PressComma(s).input;
    if s.input == "" {
      assert t == "0,";
    } else {
      assert t == s.input;
    }
    assert |s.input + ","| == |s.input| + 1;
  }

  /** ')' is added only when it closes an open parenthesis, after a digit or another ')'. */
  lemma CloseParenGuard(s: CalcState, env: Env)
    requires s.input != ERROR
    ensures PressKey(s, ')', env).input == s.input + ")" <==>
      Count(s.input, '(') > Count(s.input, ')') && (EndsWithDigit(s.input) || EndsWith(s.input, ')'))
  {
    assert PressKey(s, ')', env) == PressCloseParen(s);
    assert |s.input + ")"| != |s.input|;
  }

  /**
   * A history row for a finite result: the input currency gets the effective result (x1000 for
   * COP when that setting is on), every other currency that result times the matrix cell from
   * the input currency, or 0 when that cell is unavailable.
   */
  lemma HistoryRowConverts(expression: string, x: real, env: Env, active: Rates, official: Rates, c: Currency)
    requires IsMatrixOf(env.matrix, active, official)
    ensures var eff := CalculateEffectiveValue(Finite(x), env.inputCurrency, env.settings);
      var cell := MatrixCell(active, official, env.inputCurrency, c);
      && eff.Finite?
      && HistoryRow(expression, Finite(x), env).results[c] ==
           if c == env.inputCurrency then eff
           else if cell.source == NoDisponible then Finite(0.0)
           else Finite(eff.r * cell.value)
  {
    var effectiveResult := CalculateEffectiveValue(Finite(x), env.inputCurrency, env.settings);
    assert HistoryRow(expression, Finite(x), env).results[c] == HistoryResult(effectiveResult, env.inputCurrency, env.matrix, c);
    var cell := MatrixCell(active, official, env.inputCurrency, c);
    assert env.inputCurrency in env.matrix && c in env.matrix[env.inputCurrency] && env.matrix[env.inputCurrency][c] == cell;
    MatrixCellSign(active, official, env.inputCurrency, c);
  }

  // ---------------------------------------------------------------------------------------
  // The component state

  /** The calculator screen's mutable state. */
  class Calculator {
    var input: string
    var lastValidResult: Num
    var isValueEqual: bool
    var isOperationNew: bool
    var history: seq<HistoryEntry>

    function State(): CalcState
      reads this
    {
      CalcState(input, lastValidResult, isValueEqual, isOperationNew, history)
    }

    constructor ()
      ensures State() == INITIAL_CALC_STATE
    {
      input := "0";
      lastValidResult := Finite(0.0);
      isValueEqual := false;
      isOperationNew := false;
      history := [];
    }

    /** `addToHistory`, filling `allResults` currency by currency. */
    method AddToHistory(expression: string, rawResult: Num, env: Env)
      modifies this
      ensures State() == WithHistoryEntry(old(State()), expression, rawResult, env)
    {
      var effectiveResult := CalculateEffectiveValue(rawResult, env.inputCurrency, env.settings);
      var allResults: map<Currency, Num> := map[];
      for i := 0 to |CURRENCIES|
        invariant forall k :: 0 <= k < i ==> CURRENCIES[k] in allResults
        invariant forall c :: c in allResults ==> allResults[c] == HistoryResult(effectiveResult, env.inputCurrency, env.matrix, c)
      {
        var currency := CURRENCIES[i];
        if currency == env.inputCurrency {
          allResults := allResults[currency := effectiveResult];
        } else if env.inputCurrency in env.matrix && currency in env.matrix[env.inputCurrency] {
          var multiplier := env.matrix[env.inputCurrency][currency].value;
          if multiplier != 0.0 && effectiveResult.Finite? {
            allResults := allResults[currency := Finite(effectiveResult.r * multiplier)];
          } else {
            allResults := allResults[currency := Finite(0.0)];
          }
        } else {
          allResults := allResults[currency := Finite(0.0)];
        }
      }
      forall c: Currency ensures c in allResults {
        assert CURRENCIES[CurrencyIndex(c)] == c;
      }
      var newEntry := HistoryEntry(expression, allResults, env.inputCurrency);
      assert newEntry == HistoryRow(expression, rawResult, env);
      history := [newEntry] + (if |history| <= HISTORY_LIMIT - 1 then history else history[..HISTORY_LIMIT - 1]);
      isValueEqual := true;
      isOperationNew := true;
    }

    /** `handleKeypadPress`. */
    method HandleKeypadPress(key: char, env: Env)
      modifies this
      ensures State() == PressKey(old(State()), key, env)
    {
      if key == 'C' {
        input := "0";
        lastValidResult := Finite(0.0);
      } else if key == '=' {
        if input == ERROR || EndsWithOperator(input) || EndsWith(input, '(') || EndsWith(input, ',') || isValueEqual {
          return;
        }
        var sanitizedInput := Sanitize(input);
        var result := env.evaluate(sanitizedInput);
        if result.None? {
          input := ERROR;
          lastValidResult := Finite(0.0);
        } else {
          var formattedResult := FormatNumberForDisplay(NumberArg(result.value), 2, true, env.toLocale);
          var expression := input;
          input := formattedResult;
          var newResultValue := ParseDisplayNumber(formattedResult);
          lastValidResult := newResultValue;
          AddToHistory(expression, newResultValue, env);
        }
      } else if key == BACKSPACE {
        if |input| > 1 && input != ERROR {
          input := input[..|input| - 1];
          isValueEqual := false;
        } else {
          input := "0";
        }
      } else if input == ERROR {
        input := if key == ',' then "0," else [key];
      } else if IsOperator(key) {
        if input == "0" && key != '-' && key != '%' {
          return;
        }
        if EndsWithOperator(input) {
          input := input[..|input| - 1] + [key];
        } else if !EndsWith(input, '(') && !EndsWith(input, ',') {
          input := input + [key];
          isValueEqual := false;
        }
      } else if key == ',' {
        var currentNumberSegment := LastSegment(input);
        if ',' !in currentNumberSegment && (EndsWithDigit(input) || input == "0") {
          input := input + ",";
        } else if input == "" {
          input := "0,";
        }
      } else if key == '(' {
        if input == "0" {
          input := "(";
          isOperationNew := false;
        } else if EndsWithDigit(input) || EndsWith(input, ')') {
          input := input + "*(";
          isOperationNew := false;
        } else if EndsWithOperator(input) || EndsWith(input, '(') {
          input := input + "(";
          isOperationNew := false;
        }
      } else if key == ')' {
        var openParenCount := Count(input, '(');
        var closeParenCount := Count(input, ')');
        if openParenCount > closeParenCount && (EndsWithDigit(input) || EndsWith(input, ')')) {
          input := input + ")";
        }
      } else {
        if input == "0" {
          input := [key];
          isValueEqual := false;
        } else if EndsWith(input, ')') {
          input := input + "*" + [key];
        } else if isValueEqual && isOperationNew {
          input := [key];
          isOperationNew := false;
          isValueEqual := false;
        } else {
          input := input + [key];
          isValueEqual := false;
        }
      }
    }

    /** The live-preview effect, run after a render in which `input` changed. */
    method LivePreview(env: Env)
      modifies this
      ensures State() == Preview(old(State()), env)
    {
      if input == ERROR || input == "" || EndsWith(input, ',') {
        return;
      }
      var lastChar := input[|input| - 1];
      var toEvaluate := input;
      if IsPending(lastChar) {
        var evalInputBeforeOperator := input[..|input| - 1];
        if evalInputBeforeOperator == "" || IsPending(evalInputBeforeOperator[|evalInputBeforeOperator| - 1]) {
          return;
        }
        toEvaluate := evalInputBeforeOperator;
      }
      var result := env.evaluate(Sanitize(toEvaluate));
      assert Preview(State(), env) == Adopt(State(), result);
      if result.Some? && result.value.Finite? {
        lastValidResult := result.value;
      }
    }

    /** A key press followed by the effect, which React runs only when the buffer changed. */
    method OnKey(key: char, env: Env)
      modifies this
      ensures State() == KeyEvent(old(State()), key, env)
    {
      var before := input;
      HandleKeypadPress(key, env);
      if input != before {
        LivePreview(env);
      }
    }
  }
}
