# Currency calculator core, modelled in Dafny

This project models the logic of a currency calculator for Venezuelan bolívars (VES), Colombian
pesos (COP), US dollars (USD) and euros (EUR). The model is stated and proved in Dafny.

- **Rate store.** A rate is stored once per unordered pair, under a key such as `USD_VES`. The
  key always names the higher-valued currency first, and the stored value is "one unit of the
  key's first currency in the second". Official rates come from a fetch payload (BCV, BanRep,
  BCE). Manual rates are typed by the user. A per-pair preference chooses which of the two is
  active.
- **Rate matrix.** This is the full conversion table. A cell is 1 on the diagonal. Otherwise it
  comes from an active pair, read in either direction, or is derived through USD from two
  official legs. When neither is possible it is "No Disponible".
- **Display info.** This is the rate shown for a pair of currencies.
- **Keypad calculator.** It has a text buffer, a live preview of the last valid result, a
  history of at most 50 rows, two module-level flags (`isValueEqual`, `isOperationNew`), and
  evaluation of `a%b` as `(a)/100*(b)`.
- **Display helpers.** `formatNumberForDisplay` and `parseDisplayNumber` convert between numbers
  and the Spanish display format: `.` groups thousands and `,` is the decimal separator.
- **Rate editor.** This is the modal that edits one pair's rate, in its web version and in its
  mobile version. The modal prefills the stored rate, edits the buffer with its own keypad,
  saves a manual rate in the key's orientation, and computes when the save button is disabled.

Modules follow the source files:

| module | file |
|---|---|
| `Types` | `types.ts` |
| `Constants` | `constants.ts` |
| `ExchangeRateService` | `services/exchangeRateService.ts` |
| `RateStore` | the `activeRateData` and save handlers of `App.tsx` and `mobile/app/settings.tsx` |
| `Expression` | the percentage preprocessing and the number-segment scanner of `App.tsx` |
| `Calculator` | the keypad, preview and history of `App.tsx`, pure and as the class `Calculator` |
| `CalculatorInvariants` | invariants over sequences of key presses |
| `CalculatorService` | `mobile/services/calculatorService.ts` |
| `WebSettingsModal` | `components/SettingsModal.tsx` |
| `MobileSettingsModal` | `mobile/components/SettingsModal.tsx` |

Two helper modules have no source file of their own. `Wrappers` holds `Option`. `Strings`
holds the character classes and the regular-expression rewrites, written as scanners.

The pure code is modelled as functions with lemmas. Code that updates state is modelled too:

- The loops of `getFullRateMatrix`, `activeRateData`, `formatNumberForDisplay` and
  `addToHistory` are methods with loop invariants. `parseAndApplyFetchedRates` has no loop: it
  is a method that updates its copy of the rates field by field.
- Each such method is proved equal to a specification function, and the properties are proved
  as lemmas about that function.
- The calculator and both rate modals are classes whose methods update their fields.

Notable behaviours of the code, which the model keeps:

- Any key other than C, = and ⌫ replaces an "Error" buffer, not only a digit. So ')' typed
  over "Error" gives the unbalanced buffer ")" (`CalculatorInvariants.CloseParenOverErrorUnbalances`).
- The `minFractionDigits === 0` branch of `formatNumberForDisplay`'s trimming cannot be
  reached (`CalculatorService.FormatZeroMinimumIsLocale`).
- `isNewRate` of the mobile modal is one module-level variable (mobile/components/SettingsModal.tsx:10),
  shared by every modal the screen mounts. mobile/app/settings.tsx:66-80 mounts one modal, for the
  pair in its route parameters, each time the screen opens; the variable outlives it. Only a
  save that is not rejected sets it back to true, so it survives closing and reopening, and a digit
  typed in one pair's modal also ends the fresh entry of the next pair's modal
  (`MobileSettingsModal.TypeDigitInOtherPair`). The model holds it in one shared `NewRateFlag`
  object.
- The web modal clears its error message when a rate type is chosen, and choosing Manual refills its
  buffer from the stored rate. The mobile modal does neither.
- An Oficial save leaves the error message as it was.
- The manual editor appends ',' even at the 15-character limit, reaching 16 characters.
- A buffer that parses to NaN leaves the save button enabled (`NaN <= 0` is false). Saving it is
  then rejected.
- The prefill of the rate modal computes the reciprocal only when the stored entry is read from
  its lower-ranked side. Entries are always keyed from the higher-ranked side, so that branch
  cannot be reached (`WebSettingsModal.PrefillIsStoredValue`).

## Model

| member | source | states |
|---|---|---|
| Constants.CurrencyIndex | constants.ts:4 | every currency occurs in `CURRENCIES`, at the returned index |
| Constants.CurrenciesListEachOnce | constants.ts:4 | `CURRENCIES` lists the four currencies, each exactly once |
| Constants.Rank | constants.ts:27-32 | a currency's value rank lies between 1 and 4 |
| Constants.RanksStrictlyOrdered | constants.ts:27-32 | EUR > USD > VES > COP, and no two currencies share a rank |
| Constants.InitialStateShape | constants.ts:37-50 | the initial state has no manual rates and no preferences, and four official seed rates, each of type oficial and direct |
| ExchangeRateService.CreateOrderedPairKey | services/exchangeRateService.ts:19-26 | it fails (the source throws) exactly when both currencies are equal; otherwise it gives the canonical key |
| ExchangeRateService.PairKeyCanonical | services/exchangeRateService.ts:19-26 | the key does not depend on argument order; it parses back to the higher-ranked currency, then the lower, of the same two |
| ExchangeRateService.PairKeyParts | services/exchangeRateService.ts:98-101 | splitting a key at '_' gives the higher-ranked currency first and the lower second |
| ExchangeRateService.PairKeyInjective | services/exchangeRateService.ts:19-26 | two pairs share a key if and only if they are the same pair of currencies |
| ExchangeRateService.PairKeyExample | services/exchangeRateService.ts:17 | VES and USD give the key "USD_VES" |
| ExchangeRateService.SeedRatesCanonical | constants.ts:37-42 | the seed official rates are stored under the canonical keys of USD/VES, EUR/VES, USD/COP and EUR/USD |
| ExchangeRateService.RateFromStore | services/exchangeRateService.ts:34-47 | for different currencies a rate exists exactly when their key is stored, and it is positive |
| ExchangeRateService.OrientedReciprocal | services/exchangeRateService.ts:40-44 | read from the key's first currency, the stored value is returned as is; from the other side, its reciprocal; the two readings multiply to 1 |
| ExchangeRateService.RateFromStoreOrientation | services/exchangeRateService.ts:34-47 | a stored entry gives both directions with the entry's source, and the two directions multiply to 1 |
| ExchangeRateService.GetFullRateMatrix | services/exchangeRateService.ts:30-82 | the matrix has a row and a cell for every pair of currencies, each the cell the rules define |
| ExchangeRateService.FillRow | services/exchangeRateService.ts:50-79 | one row holds, for every target currency, the cell the rules define |
| ExchangeRateService.MatrixDiagonal | services/exchangeRateService.ts:52-55 | a currency converts to itself at 1, from source System |
| ExchangeRateService.MatrixDirect | services/exchangeRateService.ts:57-60 | an active pair gives its stored value, oriented, with the entry's source |
| ExchangeRateService.MatrixDerived | services/exchangeRateService.ts:62-71 | without an active pair and away from USD, two official legs give their product with source Derived |
| ExchangeRateService.MatrixUnavailable | services/exchangeRateService.ts:72-77 | with neither an active pair nor both official legs, the cell is 0 and "No Disponible" |
| ExchangeRateService.MatrixIgnoresOtherActivePairs | services/exchangeRateService.ts:57-71 | a cell without an active entry of its own does not depend on the active rates |
| ExchangeRateService.MatrixCellSign | services/exchangeRateService.ts:52-77 | a cell is 0 exactly when it is "No Disponible"; every other cell is positive |
| ExchangeRateService.DirectReciprocal | services/exchangeRateService.ts:57-60 | the two directions of an active pair have the same source and multiply to 1 |
| ExchangeRateService.DerivedReciprocal | services/exchangeRateService.ts:62-71 | the two directions of a derived rate are both Derived and multiply to 1 |
| ExchangeRateService.MatrixReciprocal | services/exchangeRateService.ts:30-82 | for every pair, the opposite cells have the same source and are reciprocal, or both are "No Disponible" |
| ExchangeRateService.ApplyRateUpdate | services/exchangeRateService.ts:85-127 | equal currencies or a non-positive value change nothing; otherwise exactly the pair's key is added or overwritten, and all other entries keep their values |
| ExchangeRateService.ApplyRateUpdateRoundTrip | services/exchangeRateService.ts:98-126 | after an update, the pair reads back as the value given, with its source; the reverse reads back as 1/value; the entry is direct, and its type is manual for a Manual source, oficial for BCV, BanRep and BCE, and derived otherwise |
| ExchangeRateService.ParseAndApplyFetchedRates | services/exchangeRateService.ts:129-147 | the loop-free merge of the payload equals the specification `MergedRates` |
| ExchangeRateService.MergeFieldSpec | services/exchangeRateService.ts:135-144 | merging one payload field writes its key exactly when the field is present and positive, and keeps every other key |
| ExchangeRateService.MergedRatesSpec | services/exchangeRateService.ts:129-147 | the merge writes only USD_VES, EUR_VES (BCV), USD_COP (BanRep) and EUR_USD (BCE), each exactly when its field is present and positive, as oficial and direct; every other key is unchanged |
| ExchangeRateService.GetRateDisplayInfo | services/exchangeRateService.ts:154-209 | for different currencies the label always names the higher-ranked currency first |
| ExchangeRateService.DisplaySameCurrency | services/exchangeRateService.ts:160-163 | the same currency displays as rate 1 from System, direct |
| ExchangeRateService.DisplayDirectEntry | services/exchangeRateService.ts:169-178 | a stored pair displays its stored value, source, and the direct flag |
| ExchangeRateService.DisplayFromMatrix | services/exchangeRateService.ts:180-208 | without a stored pair, the display exists exactly when the matrix cell from the higher-ranked currency is available, and then shows that cell, not direct |
| ExchangeRateService.DisplayMatrixBranch | services/exchangeRateService.ts:180-206 | the matrix fallback shows the cell, inverted when read from the lower-ranked side, and is null for an unavailable or zero cell |
| ExchangeRateService.DisplaySymmetric | services/exchangeRateService.ts:154-209 | the display of (a, b) exists exactly when the display of (b, a) does, and then the two are equal |
| RateStore.ResolveRate | App.tsx:64-82 | an active rate is always one of the stored manual or official entries of its pair |
| RateStore.ResolveRateCases | mobile/app/settings.tsx:30-40 | a manual preference with a manual rate selects it; an oficial preference selects the official entry; no manual rate means the official entry; no preference with a manual rate means the manual one |
| RateStore.ActiveRatesKeys | App.tsx:59-82 | a pair is active exactly when it has an official rate, or a manual rate not overridden by an oficial preference; unknown pairs never appear; each value is a stored entry |
| RateStore.ActiveRateData | App.tsx:57-84 | the loop over the union of stored pairs builds exactly the resolved map `ActiveRatesOf` |
| RateStore.SaveManualRate | mobile/app/settings.tsx:47-52 | saving a manual rate leaves the official rates and the preferences unchanged |
| RateStore.SetPreferredRateType | App.tsx:339-347 | the pair's preference becomes the one given, every other preference is kept, and both rate maps are unchanged |
| RateStore.ManualSaveBecomesActive | mobile/app/settings.tsx:47-62 | a manual save followed by a manual preference makes the typed value the active rate and the matrix cell of the pair, with source Manual |
| CalculatorService.DigitsValue | mobile/services/calculatorService.ts:66 | the value of a digit string is non-negative |
| CalculatorService.FractionValue | mobile/services/calculatorService.ts:66 | the value of a fraction's digits lies in [0, 1] |
| CalculatorService.ParseFloatFromDigit | mobile/services/calculatorService.ts:66 | a string starting with a digit parses as an unsigned number |
| CalculatorService.ParseFloatOfDigits | mobile/services/calculatorService.ts:66 | a digit string parses to its decimal value |
| CalculatorService.ParseFloatOfDecimal | mobile/services/calculatorService.ts:66 | digits, a point, then digits parse to the integer part plus the fraction |
| CalculatorService.ParseDisplayNumberOfCommaDecimal | mobile/services/calculatorService.ts:63-67 | a display string of digits with a decimal comma parses to its value |
| CalculatorService.ParseDisplayNumberOfDigits | mobile/services/calculatorService.ts:63-67 | a display string of digits parses to its value |
| CalculatorService.ParseDisplayNumberIgnoresDots | mobile/services/calculatorService.ts:65 | thousands points do not change the parsed value |
| CalculatorService.CalculateEffectiveValue | mobile/services/calculatorService.ts:77-82 | COP with the setting enabled multiplies by 1000 (NaN stays NaN); every other case returns the value unchanged |
| CalculatorService.Split | mobile/services/calculatorService.ts:32 | `split(',')` yields more than one part exactly when a comma occurs; the first part is the text before the first comma; no part holds a comma |
| CalculatorService.PadEnd | mobile/services/calculatorService.ts:48 | padding keeps the string as a prefix and fills with '0' up to the length asked for |
| CalculatorService.FormatNumberForDisplay | mobile/services/calculatorService.ts:11-55 | the method computes exactly the specification `FormatSpec` |
| CalculatorService.TrimTrailingZerosSpec | mobile/services/calculatorService.ts:36-38 | trimming removes only trailing '0's, never below the minimum length, and stops at a non-zero digit |
| CalculatorService.FormatPlaceholders | mobile/services/calculatorService.ts:12-20 | null and undefined show "-.--"; NaN, and a string that does not parse, show "Error" |
| CalculatorService.FormatKeepIsLocale | mobile/services/calculatorService.ts:22-29 | keeping trailing zeros shows the locale string with exactly the minimum number of fraction digits |
| CalculatorService.FormatZeroMinimumIsLocale | mobile/services/calculatorService.ts:31-47 | with minimum 0 the locale string (up to 6 digits) is shown unchanged |
| CalculatorService.FormatTrimmedFraction | mobile/services/calculatorService.ts:31-53 | the integer part is kept; the fraction is never empty, and is either padded to the minimum or the locale fraction with only trailing '0's trimmed |
| Expression.LastSegment | App.tsx:254-255 | the current number segment is the longest suffix without an operator or parenthesis |
| Expression.LastSegmentAppend | App.tsx:254-255 | appending an operator or parenthesis starts an empty segment; anything else extends the segment |
| Expression.MatchPercentAt | App.tsx:20 | a match starts at a digit, ends on a digit, its second number starts with a digit, and its '%' comes right after the white space that follows the first number |
| Expression.NumberEndAt | App.tsx:20 | the greedy scan of `\d+(?:\.\d+)?` stops exactly at the end of a well-formed numeral that no digit, nor '.' followed by a digit, continues |
| Expression.PercentAtPositions | App.tsx:19-21 | a match found after a '%'-free prefix that no earlier match can cover rewrites it as `((a)/100*(b))` and keeps the prefix |
| Expression.PreprocessFrom | App.tsx:20 | text without '%' is left unchanged |
| Expression.PreprocessPercentageExpression | App.tsx:19-21 | an expression without '%' is left unchanged |
| Expression.PercentOfIntegers | App.tsx:19-21 | `a%b` of two integers becomes `((a)/100*(b))` |
| Expression.PercentInContext | App.tsx:19-21 | in `x + a + s1 + "%" + s2 + b + y`, with numerals a and b, white space s1 and s2, and x and y not extending the numerals, the prefix x is kept, `a%b` becomes `((a)/100*(b))`, and a '%'-free y is kept as is |
| Expression.PercentUnmatchedExample | App.tsx:20 | a '%' without a number on its left is left as typed |
| Expression.Sanitize | App.tsx:222-223 | without '%', the evaluated text drops every thousands point and turns each decimal comma into a point, leaving no comma |
| Calculator.HistoryRow | App.tsx:128-146 | a history row records the typed expression and the input currency, holds a value for every currency, and holds the effective result (COP setting applied) for the input currency |
| Calculator.HistoryRowConverts | App.tsx:129-146 | a row's value in another currency is the result times the matrix cell, or 0 when that cell is unavailable |
| Calculator.KeepNewest | App.tsx:155 | it keeps exactly the newest 49 rows, in order (all of them when there are fewer), and drops only older ones |
| Calculator.ClearResets | App.tsx:214-216 | C shows "0" and resets the result to 0 (the preview then re-evaluates "0"); flags and history are kept |
| Calculator.EqualsRefusedIsNoOp | App.tsx:217-220 | '=' on "Error", after an operator, '(' or ',', or right after '=', changes nothing |
| Calculator.EqualsFailure | App.tsx:230-233 | a failed evaluation shows "Error" and resets the result; nothing else changes and no preview runs |
| Calculator.EqualsSuccess | App.tsx:221-229 | a successful '=' shows the result with two decimals, records the typed expression as the newest row of at most 50, sets both flags, and refuses a second '=' |
| Calculator.EqualsIdempotent | App.tsx:217-233 | pressing '=' twice is the same as pressing it once |
| Calculator.EqualsHistory | App.tsx:221-233 | '=' adds at most one row, in front, and caps the list |
| Calculator.HistoryBounded | App.tsx:155 | a key press never takes the history above 50 rows |
| Calculator.OtherKeysKeepHistory | App.tsx:234-292 | every key but '=' leaves the history unchanged |
| Calculator.BackspaceRule | App.tsx:234-240 | ⌫ drops the last character and clears `isValueEqual`, or resets a one-character or "Error" buffer to "0" |
| Calculator.KeyAfterError | App.tsx:241-242 | after "Error", any key but C, = and ⌫ starts over with that key ("0," for ',') |
| Calculator.OperatorRule | App.tsx:243-252 | on "0" only '-' and '%' are taken; a trailing operator is replaced; otherwise the operator is appended, unless after '(' or ',' |
| Calculator.CommaGuard | App.tsx:253-260 | ',' is appended if and only if the current segment has none and the buffer ends in a digit or is "0" |
| Calculator.OpenParenRule | App.tsx:261-271 | '(' replaces "0"; after a digit or ')' it is preceded by '*'; after an operator or '(' it is appended; otherwise it is ignored |
| Calculator.CloseParenGuard | App.tsx:272-277 | ')' is appended if and only if a parenthesis is open and the buffer ends in a digit or ')' |
| Calculator.DigitRule | App.tsx:278-292 | a digit replaces "0"; after ')' an implicit '*' joins it; right after '=' it starts a new buffer and clears both flags; otherwise it is appended |
| Calculator.PreviewOnlyResult | App.tsx:296-325 | the preview changes only the last valid result |
| Calculator.PreviewSkips | App.tsx:297-305 | the preview skips "Error", the empty buffer, a trailing ',', and a trailing operator or '(' whose prefix is empty or ends in one |
| Calculator.PreviewAdopts | App.tsx:300-324 | a changed result is the finite value of the buffer, or of the buffer without its trailing operator or '('; a failed or NaN evaluation keeps the prior result |
| Calculator.PreviewAdoptsFinite | App.tsx:300-324 | conversely, for a buffer the preview does not skip, a finite value evaluated from the buffer (or from the buffer without its trailing operator or '(') becomes the last valid result |
| Calculator.Calculator.constructor | App.tsx:22-26 | the calculator starts with "0", result 0, both flags false, an empty history |
| Calculator.Calculator.AddToHistory | App.tsx:128-158 | the new row is prepended to the newest 49 rows, and both flags are set |
| Calculator.Calculator.HandleKeypadPress | App.tsx:209-293 | the new fields are exactly the function `PressKey` of the old ones |
| Calculator.Calculator.LivePreview | App.tsx:296-325 | the new fields are exactly the function `Preview` of the old ones |
| Calculator.Calculator.OnKey | App.tsx:209-325 | a key press followed by the preview (when the buffer changed) is the function `KeyEvent` |
| CalculatorInvariants.OperatorKeepsBalance | App.tsx:243-252 | operators keep every prefix closing no more parentheses than it opens |
| CalculatorInvariants.CommaKeepsBalance | App.tsx:253-260 | ',' keeps the parentheses balanced |
| CalculatorInvariants.OpenParenKeepsBalance | App.tsx:261-271 | '(' keeps the parentheses balanced |
| CalculatorInvariants.CloseParenKeepsBalance | App.tsx:272-277 | ')' is appended only when it keeps the parentheses balanced |
| CalculatorInvariants.DigitKeepsBalance | App.tsx:278-292 | digits keep the parentheses balanced |
| CalculatorInvariants.EqualsKeepsBalance | App.tsx:221-233 | '=' leaves a balanced buffer (a formatted number or "Error") |
| CalculatorInvariants.PressKeyKeepsBalance | App.tsx:209-293 | every key except ')' over "Error" keeps the buffer balanced, also after the preview |
| CalculatorInvariants.CloseParenOverErrorUnbalances | App.tsx:241-242 | ')' over "Error" gives the unbalanced buffer ")" |
| CalculatorInvariants.PressKeyKeepsNonEmpty | App.tsx:209-293 | no key press empties the buffer |
| CalculatorInvariants.RunKeepsInvariants | App.tsx:209-325 | any sequence of keys that avoids ')' over "Error" keeps the buffer balanced and non-empty |
| CalculatorInvariants.InitialRunInvariants | App.tsx:209-325 | from start-up, such a sequence keeps the buffer balanced and non-empty and the history within 50 rows |
| CalculatorInvariants.RunKeepsHistoryBound | App.tsx:155 | any sequence of keys keeps the history within 50 rows |
| WebSettingsModal.DisplayBase | components/SettingsModal.tsx:39-46 | the display base is the higher-ranked currency of the two |
| WebSettingsModal.DisplayQuote | components/SettingsModal.tsx:39-46 | the display quote is the other currency of the pair |
| WebSettingsModal.DisplayBaseIsKeyHead | components/SettingsModal.tsx:39-48 | display base and quote are the first and second currencies of the storage key |
| WebSettingsModal.InitialSelection | components/SettingsModal.tsx:56-67 | Manual is preselected if and only if it is preferred, or there is no preference and a manual rate exists |
| WebSettingsModal.PrefillEntry | components/SettingsModal.tsx:69-71 | an entry to prefill exists exactly when the pair has a manual or an official rate |
| WebSettingsModal.PrefillIsStoredValue | components/SettingsModal.tsx:72-79 | the prefilled value is always the stored value |
| WebSettingsModal.InitialInputShowsRate | components/SettingsModal.tsx:69-82 | the editor opens with the manual rate, else the official one, with two decimals, else the placeholder |
| WebSettingsModal.ClearKeyTypedAsCharacter | components/SettingsModal.tsx:91-105 | as written, 'C' is typed as a character: "0" becomes "C", which parses to NaN, and other buffers get a trailing "C" |
| WebSettingsModal.EditKey | components/SettingsModal.tsx:87-106 | corrected: 'C' resets the buffer to "0"; every other key behaves as written |
| WebSettingsModal.EditRules | components/SettingsModal.tsx:91-105 | ⌫ drops the last character or gives "0"; ',' is added once; a digit replaces "0" or is appended below 15 characters |
| WebSettingsModal.RateBufferParses | components/SettingsModal.tsx:110-111 | a buffer of digits with at most one comma parses to a finite non-negative number |
| WebSettingsModal.EditKeepsRateBuffer | components/SettingsModal.tsx:91-105 | with 'C' handled, keypad keys keep the buffer a well-formed number |
| WebSettingsModal.EditKeepsLength | components/SettingsModal.tsx:98-104 | the buffer never exceeds 16 characters: 15 digits plus the comma |
| WebSettingsModal.Save | components/SettingsModal.tsx:108-129 | a save is rejected if and only if Manual is chosen and the buffer is not a positive number |
| WebSettingsModal.RateToStoreOrientation | components/SettingsModal.tsx:117-122 | the stored value is positive, and it is the reciprocal of the typed value when the input currency is not the display base |
| WebSettingsModal.ManualSaveOutcome | components/SettingsModal.tsx:115-124 | a positive manual rate is stored in key orientation and then made the preference |
| WebSettingsModal.TypedRateInDisplayDirection | components/SettingsModal.tsx:117-123 | the stored value converts the display base to the display quote at exactly the typed rate |
| WebSettingsModal.ManualSaveReadsAsTyped | components/SettingsModal.tsx:108-124 | after a manual save, official rates are unchanged, Manual is preferred, and the matrix converts base to quote at the typed rate |
| WebSettingsModal.OficialSaveOnlyPreference | components/SettingsModal.tsx:125-127 | an Oficial save only sets the pair's preference, and the pair then resolves to its official rate |
| WebSettingsModal.OficialDisabledMeansNoChange | components/SettingsModal.tsx:160-165 | with Oficial selected, the button is disabled only when saving would not change the pair's active rate |
| WebSettingsModal.ManualDisabledIffRejected | components/SettingsModal.tsx:166-170 | for a buffer that parses to a number (every keypad-typed buffer does, by `RateBufferParses`, and thousands points do not change that, by `ParseDisplayNumberIgnoresDots`), the Manual save button is disabled if and only if saving would be rejected |
| WebSettingsModal.RateModal.constructor | components/SettingsModal.tsx:35-37 | the modal starts with "0,00", Oficial selected and no error |
| WebSettingsModal.RateModal.Open | components/SettingsModal.tsx:52-84 | opening sets the preselection and the prefilled buffer and clears the error |
| WebSettingsModal.RateModal.SelectRateType | components/SettingsModal.tsx:197-215 | choosing a rate type clears the error; choosing Manual refills the buffer with the stored manual rate, else the official one, in display direction with two decimals, else "0,00"; choosing Oficial keeps the buffer |
| WebSettingsModal.RateModal.HandleNumericKeypadPress | components/SettingsModal.tsx:87-106 | corrected: keys edit the buffer only with Manual selected and clear the error when they do |
| WebSettingsModal.RateModal.HandleSave | components/SettingsModal.tsx:108-129 | a rejected save shows the error and keeps the modal open; otherwise it returns the new state of `Save` and closes |
| MobileSettingsModal.SameInitialSelection | mobile/components/SettingsModal.tsx:79 | the mobile preselection is the web one |
| MobileSettingsModal.SecondDigitReplacesFirst | mobile/components/SettingsModal.tsx:102-105 | as written, typing 1 then 2 into a fresh "0" gives "2" |
| MobileSettingsModal.EditorKey | mobile/components/SettingsModal.tsx:93-110 | corrected: buffers as written, but any digit clears the fresh-entry flag |
| MobileSettingsModal.AppendDigits | mobile/components/SettingsModal.tsx:107 | digits after a non-zero prefix are appended in order up to 15 characters |
| MobileSettingsModal.TypedFromScratch | mobile/components/SettingsModal.tsx:102-108 | corrected: a fresh editor shows exactly the digits typed |
| MobileSettingsModal.EditorKeepsRateBuffer | mobile/components/SettingsModal.tsx:97-108 | keys keep the buffer a well-formed number, and agree with the web editor except for the first digit of a fresh entry |
| MobileSettingsModal.NewRateFlag.constructor | mobile/components/SettingsModal.tsx:10 | the module-level flag starts true: the first entry is fresh |
| MobileSettingsModal.RateModal.constructor | mobile/components/SettingsModal.tsx:57-59 | the modal starts with "0,00", Oficial selected and no error, sharing the module-level flag of line 10, which it leaves as it was |
| MobileSettingsModal.RateModal.Open | mobile/components/SettingsModal.tsx:74-91 | opening sets the preselection and the prefill (placeholder "0"), clears the error, and keeps `isNewRate` |
| MobileSettingsModal.RateModal.SelectRateType | mobile/components/SettingsModal.tsx:178 | choosing a rate type keeps the error and the editor |
| MobileSettingsModal.RateModal.HandleNumericKeypadPress | mobile/components/SettingsModal.tsx:93-110 | corrected: keys edit the buffer and the fresh-entry flag only with Manual selected, and clear the error when they do |
| MobileSettingsModal.RateModal.HandleSave | mobile/components/SettingsModal.tsx:112-128 | like the web save, and a save that is not rejected makes the next entry fresh |
| MobileSettingsModal.TypeDigitInOtherPair | mobile/components/SettingsModal.tsx:102-106 | through the module-level flag of line 10, a digit typed in one pair's modal ends the fresh entry of every other pair's modal, whose buffer is unchanged |

## Left out

- The expression evaluator (mathjs) is a parameter, `Env.evaluate`, that returns an optional number (none when it throws). Results that are not numbers are not modelled.
- `toLocaleString('es-VE', …)` is a parameter, `Locale`. Invariants that need it assume only that it returns a non-empty string without ')'.
- IEEE-754 arithmetic is not modelled. Numbers are exact reals or NaN; Infinity, rounding, and the exponent and "Infinity" forms of `parseFloat` are left out.
- Network fetches, the service worker, local storage, record ids and timestamps are left out, because they are I/O. The stored history that the calculator starts from is replaced by an empty one.
- React rendering, effect scheduling, the preview run at mount, JSX and keyboard shortcuts are left out. A key press is modelled as the handler followed by the preview when the buffer changed.
- `formatVenezuelanDate` and `automaticRateDisplayString` are left out, because they only format text for display.
- The non-string guard of `parseDisplayNumber` is left out: every caller passes a string.
- Stored rates are positive by type (`PosReal`). Persisted data holding a non-positive rate is not modelled.
- The web copy of the calculator service is not part of this model; the mobile copy is modelled.
- Keys are single characters: ⌫ is U+232B, as the keypad sends it.
- The rate modals are modelled for two different currencies only, because their pair key throws for equal ones.
- WebSettingsModal.RateModal.HandleNumericKeypadPress: edits with the corrected `EditKey` (C resets to "0"), not the as-written editor that types 'C' as a character; see Findings.
- MobileSettingsModal.RateModal.HandleNumericKeypadPress: edits with the corrected `EditorKey` (any digit ends the fresh entry), not the as-written editor whose second digit replaces the first; see Findings.
- ExchangeRateService.GetRateDisplayInfo: its own contract states only the label. Its values are stated by `DisplaySameCurrency`, `DisplayDirectEntry`, `DisplayFromMatrix` and `DisplaySymmetric`.

## Findings

| source | as written | input that shows it | evidently intended | confidence | as-written member | corrected member |
|---|---|---|---|---|---|---|
| components/SettingsModal.tsx:91-105 | the rate editor has no branch for 'C', although its keypad has a C key (components/NumericInputKeypad.tsx:13), so 'C' is appended as a character | buffer "0", key C gives "C", which parses to NaN; "36,50" gives "36,50C" | C resets the buffer to "0" | not executed | WebSettingsModal.EditKeyAsWritten | WebSettingsModal.EditKey |
| mobile/components/SettingsModal.tsx:102-105 | a digit that replaces "0" leaves `isNewRate` true, so the next digit replaces it again | editor "0" marked fresh, keys 1 then 2 give "2" instead of "12" | only the first digit of a fresh entry replaces the buffer | not executed | MobileSettingsModal.EditorKeyAsWritten | MobileSettingsModal.EditorKey |
