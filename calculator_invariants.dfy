/**
 * Invariants of the keypad buffer across key presses: every prefix of the buffer closes
 * no more parentheses than it opened, and the buffer is never empty. Both hold as long as
 * the locale formatter behaves (it never returns an empty string or a ')'), except for one
 * path that breaks balance: ')' typed while the buffer shows "Error".
 */
module CalculatorInvariants {
  import opened Wrappers
  import opened Types
  import opened Constants
  import opened Strings
  import opened Expression
  import opened CalculatorService
  import opened Calculator

  /** No prefix of `s` has more ')' than '('. */
  predicate Balanced(s: string) {
    forall i :: 0 <= i <= |s| ==> Count(s[..i], ')') <= Count(s[..i], '(')
  }

  /** The locale formatter yields a non-empty string without ')'. */
  ghost predicate SaneLocale(toLocale: Locale) {
    forall x: real, minDigits: nat, maxDigits: nat ::
      |toLocale(x, minDigits, maxDigits)| > 0 && ')' !in toLocale(x, minDigits, maxDigits)
  }

  /** A string without ')' is balanced. */
  lemma BalancedWithoutClose(s: string)
    requires ')' !in s
    ensures Balanced(s)
  {
    forall i | 0 <= i <= |s| ensures Count(s[..i], ')') <= Count(s[..i], '(') {
      assert ')' !in s[..i];
    }
  }

  /** Every prefix of a balanced string is balanced. */
  lemma BalancedPrefix(s: string, n: nat)
    requires Balanced(s) && n <= |s|
    ensures Balanced(s[..n])
  {
    forall i | 0 <= i <= n ensures Count(s[..n][..i], ')') <= Count(s[..n][..i], '(') {
      assert s[..n][..i] == s[..i];
    }
  }

  /** Appending keeps balance unless it is a ')' with no '(' left to close. */
  lemma BalancedAppend(s: string, c: char)
    requires Balanced(s)
    requires c == ')' ==> Count(s, '(') > Count(s, ')')
    ensures Balanced(s + [c])
  {
    var t := s + [c];
    forall i | 0 <= i <= |t| ensures Count(t[..i], ')') <= Count(t[..i], '(') {
      if i <= |s| {
        assert t[..i] == s[..i];
      } else {
        assert t[..i] == s + [c];
        assert s[..|s|] == s;
        CountAppend(s, c, ')');
        CountAppend(s, c, '(');
      }
    }
  }

  /** Appending a string without ')' keeps balance. */
  lemma BalancedAppendOpen(s: string, u: string)
    requires Balanced(s) && ')' !in u
    ensures Balanced(s + u)
    decreases |u|
  {
    if |u| == 0 {
      assert s + u == s;
    } else {
      BalancedAppendOpen(s, u[..|u| - 1]);
      BalancedAppend(s + u[..|u| - 1], u[|u| - 1]);
      assert s + u[..|u| - 1] + [u[|u| - 1]] == s + u;
    }
  }

  /** An operator key keeps the buffer balanced. */
  lemma OperatorKeepsBalance(s: CalcState, key: char)
    requires IsOperator(key) && Balanced(s.input)
    ensures Balanced(PressOperator(s, key).input)
  {
    if s.input == "0" && key != '-' && key != '%' {
    } else if EndsWithOperator(s.input) {
      BalancedPrefix(s.input, |s.input| - 1);
      BalancedAppend(s.input[..|s.input| - 1], key);
    } else {
      BalancedAppend(s.input, key);
    }
  }

  /** The ',' key keeps the buffer balanced. */
  lemma CommaKeepsBalance(s: CalcState)
    requires Balanced(s.input)
    ensures Balanced(PressComma(s).input)
  {
    if ',' !in LastSegment(s.input) && (EndsWithDigit(s.input) || s.input == "0") {
      BalancedAppend(s.input, ',');
    } else if s.input == "" {
      BalancedWithoutClose("0,");
    }
  }

  /** The '(' key keeps the buffer balanced. */
  lemma OpenParenKeepsBalance(s: CalcState)
    requires Balanced(s.input)
    ensures Balanced(PressOpenParen(s).input)
  {
    if s.input == "0" {
      BalancedWithoutClose("(");
    } else if EndsWithDigit(s.input) || EndsWith(s.input, ')') {
      BalancedAppendOpen(s.input, "*(");
    } else if EndsWithOperator(s.input) || EndsWith(s.input, '(') {
      BalancedAppend(s.input, '(');
    }
  }

  /** The ')' key keeps the buffer balanced: it only closes a parenthesis still open. */
  lemma CloseParenKeepsBalance(s: CalcState)
    requires Balanced(s.input)
    ensures Balanced(PressCloseParen(s).input)
  {
    if Count(s.input, '(') > Count(s.input, ')') && (EndsWithDigit(s.input) || EndsWith(s.input, ')')) {
      BalancedAppend(s.input, ')');
    }
  }

  /** A digit (or any other key reaching the default branch) keeps the buffer balanced. */
  lemma DigitKeepsBalance(s: CalcState, key: char)
    requires Balanced(s.input) && key != ')'
    ensures Balanced(PressDigit(s, key).input)
  {
    if s.input == "0" || (!EndsWith(s.input, ')') && s.isValueEqual && s.isOperationNew) {
      BalancedWithoutClose([key]);
    } else if EndsWith(s.input, ')') {
      BalancedAppendOpen(s.input, "*" + [key]);
      assert s.input + "*" + [key] == s.input + ("*" + [key]);
    } else {
      BalancedAppend(s.input, key);
    }
  }

  /** '=' keeps the buffer balanced when the locale formatter never writes ')'. */
  lemma EqualsKeepsBalance(s: CalcState, env: Env)
    requires Balanced(s.input) && SaneLocale(env.toLocale)
    ensures Balanced(PressEquals(s, env).input)
  {
    if !EqualsRefused(s) {
      match env.evaluate(Sanitize(s.input))
      case None =>
        BalancedWithoutClose(ERROR);
      case Some(result) =>
        var formatted := FormatSpec(NumberArg(result), 2, true, env.toLocale);
        assert PressEquals(s, env).input == formatted;
        if result.NaN? {
          FormatPlaceholders(2, true, env.toLocale, "");
          BalancedWithoutClose(formatted);
        } else {
          FormatKeepIsLocale(result.r, 2, env.toLocale);
          BalancedWithoutClose(formatted);
        }
    }
  }

  /**
   * Every key press keeps the parentheses balanced, given a sane locale formatter and no
   * ')' typed over "Error".
   */
  lemma PressKeyKeepsBalance(s: CalcState, key: char, env: Env)
    requires Balanced(s.input) && SaneLocale(env.toLocale)
    requires !(s.input == ERROR && key == ')')
    ensures Balanced(PressKey(s, key, env).input)
    ensures Balanced(KeyEvent(s, key, env).input)
  {
    var t := PressKey(s, key, env);
    if key == 'C' {
      BalancedWithoutClose("0");
    } else if key == '=' {
      EqualsKeepsBalance(s, env);
    } else if key == BACKSPACE {
      BalancedWithoutClose("0");
      if |s.input| > 1 && s.input != ERROR {
        BalancedPrefix(s.input, |s.input| - 1);
      }
    } else if s.input == ERROR {
      BalancedWithoutClose("0,");
      BalancedWithoutClose([key]);
    } else if IsOperator(key) {
      OperatorKeepsBalance(s, key);
    } else if key == ',' {
      CommaKeepsBalance(s);
    } else if key == '(' {
      OpenParenKeepsBalance(s);
    } else if key == ')' {
      CloseParenKeepsBalance(s);
    } else {
      DigitKeepsBalance(s, key);
    }
    PreviewOnlyResult(t, env);
  }

  /** ')' typed over "Error" leaves the unbalanced buffer ")". */
  lemma CloseParenOverErrorUnbalances(s: CalcState, env: Env)
    requires s.input == ERROR
    ensures PressKey(s, ')', env).input == ")"
    ensures !Balanced(")")
  {
    assert ")"[..1] == ")";
    assert Count(")", '(') == 0;
  }

  /** The buffer is never empty, given a locale formatter that never returns "". */
  lemma PressKeyKeepsNonEmpty(s: CalcState, key: char, env: Env)
    requires |s.input| > 0 && SaneLocale(env.toLocale)
    ensures |PressKey(s, key, env).input| > 0
    ensures |KeyEvent(s, key, env).input| > 0
  {
    var t := PressKey(s, key, env);
    if key == '=' {
      if !EqualsRefused(s) && env.evaluate(Sanitize(s.input)).Some? {
        var result := env.evaluate(Sanitize(s.input)).value;
        if result.Finite? {
          assert t.input == env.toLocale(result.r, 2, 2);
        }
      }
    } else if key == 'C' || key == BACKSPACE || s.input == ERROR {
    } else if IsOperator(key) {
      assert t == PressOperator(s, key);
    } else if key == ',' {
      assert t == PressComma(s);
    } else if key == '(' {
      assert t == PressOpenParen(s);
    } else if key == ')' {
      assert t == PressCloseParen(s);
    } else {
      assert t == PressDigit(s, key);
    }
    PreviewOnlyResult(t, env);
  }

  /** The state after a sequence of key presses. */
  function Run(s: CalcState, keys: seq<char>, env: Env): CalcState
    decreases |keys|
  {
    if |keys| == 0 then s else Run(KeyEvent(s, keys[0], env), keys[1..], env)
  }

  /** No ')' is pressed while the buffer shows "Error". */
  predicate AvoidsCloseOverError(s: CalcState, keys: seq<char>, env: Env)
    decreases |keys|
  {
    |keys| == 0 ||
    (!(s.input == ERROR && keys[0] == ')') && AvoidsCloseOverError(KeyEvent(s, keys[0], env), keys[1..], env))
  }

  /** From any balanced, non-empty buffer, every run keeps it balanced and non-empty. */
  lemma {:induction false} RunKeepsInvariants(s: CalcState, keys: seq<char>, env: Env)
    requires Balanced(s.input) && |s.input| > 0 && SaneLocale(env.toLocale)
    requires AvoidsCloseOverError(s, keys, env)
    ensures Balanced(Run(s, keys, env).input) && |Run(s, keys, env).input| > 0
    decreases |keys|
  {
    if |keys| > 0 {
      PressKeyKeepsBalance(s, keys[0], env);
      PressKeyKeepsNonEmpty(s, keys[0], env);
      RunKeepsInvariants(KeyEvent(s, keys[0], env), keys[1..], env);
    }
  }

  /** In particular from start-up, the history also staying within 50 rows. */
  lemma {:induction false} InitialRunInvariants(keys: seq<char>, env: Env)
    requires SaneLocale(env.toLocale) && AvoidsCloseOverError(INITIAL_CALC_STATE, keys, env)
    ensures Balanced(Run(INITIAL_CALC_STATE, keys, env).input)
    ensures |Run(INITIAL_CALC_STATE, keys, env).input| > 0
    ensures |Run(INITIAL_CALC_STATE, keys, env).history| <= HISTORY_LIMIT
  {
    BalancedWithoutClose("0");
    RunKeepsInvariants(INITIAL_CALC_STATE, keys, env);
    RunKeepsHistoryBound(INITIAL_CALC_STATE, keys, env);
  }

  /** Every run keeps the history within 50 rows. */
  lemma {:induction false} RunKeepsHistoryBound(s: CalcState, keys: seq<char>, env: Env)
    requires |s.history| <= HISTORY_LIMIT
    ensures |Run(s, keys, env).history| <= HISTORY_LIMIT
    decreases |keys|
  {
    if |keys| > 0 {
      HistoryBounded(s, keys[0], env);
      RunKeepsHistoryBound(KeyEvent(s, keys[0], env), keys[1..], env);
    }
  }
}
