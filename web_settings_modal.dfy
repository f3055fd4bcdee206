/**
 * The rate-editing modal of the web app (components/SettingsModal.tsx): which way round the
 * rate is shown, the initial choice between the official and a manual rate, the numeric
 * editor for a manual rate, the save handler and the rule that disables the save button.
 *
 * The editor as written has no branch for the keypad's 'C' key, so 'C' is typed into the
 * rate like a digit. `EditKeyAsWritten` is that code; `EditKey` clears the buffer on 'C',
 * as the mobile editor does, and is what the rest of the model uses.
 */
module WebSettingsModal {
  import opened Wrappers
  import opened Types
  import opened Constants
  import opened Strings
  import opened CalculatorService
  import opened ExchangeRateService
  import opened RateStore

  /** The two radio choices. */
  datatype RateTypeSelection = OficialSelection | ManualSelection

  /** The message shown when a manual rate is rejected. */
  const INVALID_RATE_MESSAGE: string := "Por favor ingrese una tasa de cambio v\U{00E1}lida y positiva."

  /** The editor accepts a digit only while the buffer is shorter than this. */
  const MAX_INPUT_LENGTH: nat := 15

  // ---------------------------------------------------------------------------------------
  // Orientation

  /** The currency the rate is quoted per ("1 base = x quote"): the higher-or-equal-ranked one. */
  function DisplayBase(inputCurrency: Currency, outputCurrency: Currency): (b: Currency)
    ensures b == inputCurrency || b == outputCurrency
    ensures Rank(b) >= Rank(inputCurrency) && Rank(b) >= Rank(outputCurrency)
  {
    if Rank(inputCurrency) >= Rank(outputCurrency) then inputCurrency else outputCurrency
  }

  /** The other currency of the modal. */
  function DisplayQuote(inputCurrency: Currency, outputCurrency: Currency): (q: Currency)
    ensures q == inputCurrency || q == outputCurrency
    ensures inputCurrency != outputCurrency ==> q != DisplayBase(inputCurrency, outputCurrency)
  {
    if Rank(inputCurrency) >= Rank(outputCurrency) then outputCurrency else inputCurrency
  }

  /** For two distinct currencies the display base is the head of the pair key, the quote its tail. */
  lemma DisplayBaseIsKeyHead(inputCurrency: Currency, outputCurrency: Currency)
    requires inputCurrency != outputCurrency
    ensures DisplayBase(inputCurrency, outputCurrency) == HigherRanked(inputCurrency, outputCurrency)
    ensures DisplayQuote(inputCurrency, outputCurrency) == LowerRanked(inputCurrency, outputCurrency)
    ensures Rank(DisplayBase(inputCurrency, outputCurrency)) > Rank(DisplayQuote(inputCurrency, outputCurrency))
  {
    RanksStrictlyOrdered();
  }

  // ---------------------------------------------------------------------------------------
  // Opening the modal

  /** The radio choice on opening: the stored preference, else Manual iff a manual rate exists. */
  function InitialSelection(preference: Option<Preference>, manualRateExists: bool): (r: RateTypeSelection)
    ensures r == ManualSelection <==> preference == Some(PreferManual) || (preference.None? && manualRateExists)
  {
    match preference
    case Some(PreferManual) => ManualSelection
    case Some(PreferOficial) => OficialSelection
    case None => if manualRateExists then ManualSelection else OficialSelection
  }

  /** The entry the editor is pre-filled from: the manual one, else the official one. */
  function PrefillEntry(st: RateState, pairKey: string): (r: Option<RateEntry>)
    ensures r.Some? <==> pairKey in st.manualRates || pairKey in st.officialRates
  {
    if pairKey in st.manualRates then Some(st.manualRates[pairKey])
    else Lookup(st.officialRates, pairKey)
  }

  /**
   * The pre-filled number: the stored value when the display base heads the pair key
   * (the key's head is its higher-ranked currency), its reciprocal otherwise.
   */
  function PrefillValue(e: RateEntry, inputCurrency: Currency, outputCurrency: Currency): real
    requires inputCurrency != outputCurrency
  {
    if DisplayBase(inputCurrency, outputCurrency) == HigherRanked(inputCurrency, outputCurrency) then e.value
    else Reciprocal(e.value)
  }

  /**
   * The reciprocal branch of the pre-fill is never taken: the value shown is the stored one,
   * which is the entry read from the display base to the display quote.
   */
  lemma PrefillIsStoredValue(e: RateEntry, inputCurrency: Currency, outputCurrency: Currency)
    requires inputCurrency != outputCurrency
    ensures PrefillValue(e, inputCurrency, outputCurrency) == e.value
    ensures PrefillValue(e, inputCurrency, outputCurrency) ==
      Oriented(e, DisplayBase(inputCurrency, outputCurrency), DisplayQuote(inputCurrency, outputCurrency))
  {
    DisplayBaseIsKeyHead(inputCurrency, outputCurrency);
  }

  /** The editor's text on opening: the pre-fill value with two decimals, or `placeholder`. */
  function InitialInput(st: RateState, inputCurrency: Currency, outputCurrency: Currency, toLocale: Locale, placeholder: string): string
    requires inputCurrency != outputCurrency
  {
    match PrefillEntry(st, PairKey(inputCurrency, outputCurrency))
    case None => placeholder
    case Some(e) => FormatSpec(NumberArg(Finite(PrefillValue(e, inputCurrency, outputCurrency))), 2, true, toLocale)
  }

  /** Opening shows the stored rate in the display direction, or the placeholder without any rate. */
  lemma InitialInputShowsRate(st: RateState, inputCurrency: Currency, outputCurrency: Currency, toLocale: Locale, placeholder: string)
    requires inputCurrency != outputCurrency
    ensures var k := PairKey(inputCurrency, outputCurrency);
      && (k !in st.manualRates && k !in st.officialRates ==>
            InitialInput(st, inputCurrency, outputCurrency, toLocale, placeholder) == placeholder)
      && (k in st.manualRates ==>
            InitialInput(st, inputCurrency, outputCurrency, toLocale, placeholder) == toLocale(st.manualRates[k].value, 2, 2))
      && (k !in st.manualRates && k in st.officialRates ==>
            InitialInput(st, inputCurrency, outputCurrency, toLocale, placeholder) == toLocale(st.officialRates[k].value, 2, 2))
  {
    var k := PairKey(inputCurrency, outputCurrency);
    match PrefillEntry(st, k)
    case None =>
    case Some(e) =>
      PrefillIsStoredValue(e, inputCurrency, outputCurrency);
      FormatKeepIsLocale(e.value, 2, toLocale);
  }

  // ---------------------------------------------------------------------------------------
  // The editor

  /** `handleNumericKeypadPress` past its guard, as written: no branch for 'C'. */
  function EditKeyAsWritten(buffer: string, key: char): string {
    if key == BACKSPACE then (if |buffer| > 1 then buffer[..|buffer| - 1] else "0")
    else if key == ',' then (if ',' in buffer then buffer else buffer + ",")
    else if buffer == "0" then [key]
    else if |buffer| < MAX_INPUT_LENGTH then buffer + [key]
    else buffer
  }

  /** 'C' is typed as a character: on "0" the buffer becomes "C", which parses to NaN. */
  lemma ClearKeyTypedAsCharacter(buffer: string)
    requires buffer != "0" && 0 < |buffer| < MAX_INPUT_LENGTH
    ensures EditKeyAsWritten("0", 'C') == "C"
    ensures ParseDisplayNumber("C").NaN?
    ensures EditKeyAsWritten(buffer, 'C') == buffer + "C"
  {
    assert RemoveAll("C", '.') == "C" by {
      assert "C"[1..] == "";
    }
    assert IndexOf("C", ',').None?;
    assert SpaceRun("C", 0) == 0;
    assert DigitRun("C", 0) == 0;
  }

  /** The editor with 'C' clearing the buffer to "0". */
  function EditKey(buffer: string, key: char): (r: string)
    ensures key == 'C' ==> r == "0"
    ensures key != 'C' ==> r == EditKeyAsWritten(buffer, key)
  {
    if key == 'C' then "0" else EditKeyAsWritten(buffer, key)
  }

  /**
   * The editing rules: ⌫ drops a character (or leaves "0"), ',' is added only once, a digit
   * replaces "0" and is otherwise appended only below 15 characters.
   */
  lemma EditRules(buffer: string, d: char)
    requires IsDigit(d)
    ensures EditKey(buffer, BACKSPACE) == if |buffer| > 1 then buffer[..|buffer| - 1] else "0"
    ensures EditKey(buffer, ',') == if ',' in buffer then buffer else buffer + ","
    ensures buffer == "0" ==> EditKey(buffer, d) == [d]
    ensures buffer != "0" ==> EditKey(buffer, d) == if |buffer| < MAX_INPUT_LENGTH then buffer + [d] else buffer
  {
  }

  /** The keys of the numeric keypad. */
  predicate IsRateKey(key: char) {
    IsDigit(key) || key == ',' || key == BACKSPACE || key == 'C'
  }

  /** A rate being typed: digits with at most one comma, starting with a digit. */
  predicate RateBuffer(b: string) {
    && |b| > 0 && IsDigit(b[0])
    && (forall k :: 0 <= k < |b| ==> IsDigit(b[k]) || b[k] == ',')
    && (forall i, j :: 0 <= i < j < |b| && b[i] == ',' ==> b[j] != ',')
  }

  /** A rate buffer always parses to a finite, non-negative number: comma-decimal notation. */
  lemma RateBufferParses(b: string)
    requires RateBuffer(b)
    ensures ParseDisplayNumber(b).Finite? && ParseDisplayNumber(b).r >= 0.0
  {
    if ',' in b {
      var p := IndexOf(b, ',').value;
      assert forall k :: 0 <= k < |b| && k != p ==> IsDigit(b[k]);
      ParseDisplayNumberOfCommaDecimal(b, p);
    } else {
      ParseDisplayNumberOfDigits(b);
    }
  }

  /** The editor keeps a rate buffer a rate buffer. */
  lemma EditKeepsRateBuffer(b: string, key: char)
    requires RateBuffer(b) && IsRateKey(key)
    ensures RateBuffer(EditKey(b, key))
  {
    var r := EditKey(b, key);
    if key == BACKSPACE && |b| > 1 {
      assert r == b[..|b| - 1];
    } else if key == ',' && ',' !in b {
      assert r == b + ",";
    } else if IsDigit(key) && b != "0" && |b| < MAX_INPUT_LENGTH {
      assert r == b + [key];
    }
  }

  /** The buffer stays within 15 characters, or 16 when a comma was added to 15 digits. */
  predicate WithinLength(b: string) {
    |b| <= MAX_INPUT_LENGTH || (|b| == MAX_INPUT_LENGTH + 1 && b[MAX_INPUT_LENGTH] == ',')
  }

  /** The editor keeps the buffer within that length. */
  lemma EditKeepsLength(b: string, key: char)
    requires WithinLength(b) && RateBuffer(b) && IsRateKey(key)
    ensures WithinLength(EditKey(b, key))
  {
  }

  // ---------------------------------------------------------------------------------------
  // Saving

  /** The outcome of `handleSave`: a rejected rate, or the new rate state (the modal then closes). */
  datatype SaveOutcome = Rejected | Saved(newState: RateState)

  /** The value that is stored for the pair: the typed rate, inverted when it was typed for the other direction. */
  function RateToStore(userInputRate: real, inputCurrency: Currency, outputCurrency: Currency): real
    requires userInputRate > 0.0
  {
    if DisplayBase(inputCurrency, outputCurrency) == inputCurrency then userInputRate else 1.0 / userInputRate
  }

  /** `handleSave`: reject a NaN or non-positive manual rate, else store it and prefer it; Oficial only sets the preference. */
  function Save(st: RateState, inputCurrency: Currency, outputCurrency: Currency, selection: RateTypeSelection, buffer: string): (r: SaveOutcome)
    requires inputCurrency != outputCurrency
    ensures r.Rejected? <==>
      selection == ManualSelection && !(ParseDisplayNumber(buffer).Finite? && ParseDisplayNumber(buffer).r > 0.0)
  {
    var pairKey := PairKey(inputCurrency, outputCurrency);
    if selection == ManualSelection then
      var userInputRate := ParseDisplayNumber(buffer);
      if userInputRate.NaN? || userInputRate.r <= 0.0 then Rejected
      else
        var rateToStore := RateToStore(userInputRate.r, inputCurrency, outputCurrency);
        Saved(SetPreferredRateType(SaveManualRate(st, inputCurrency, outputCurrency, rateToStore), pairKey, PreferManual))
    else Saved(SetPreferredRateType(st, pairKey, PreferOficial))
  }

  /** The stored value is positive and, read from the display base, is the rate that was typed. */
  lemma RateToStoreOrientation(x: real, inputCurrency: Currency, outputCurrency: Currency)
    requires inputCurrency != outputCurrency && x > 0.0
    ensures RateToStore(x, inputCurrency, outputCurrency) > 0.0
    ensures DisplayBase(inputCurrency, outputCurrency) != inputCurrency ==>
      RateToStore(x, inputCurrency, outputCurrency) * x == 1.0
  {
    if DisplayBase(inputCurrency, outputCurrency) != inputCurrency {
      assert (1.0 / x) * x == 1.0;
    }
  }

  /** When `a * b == 1` and `a * x == 1`, then `b == x`. */
  lemma ReciprocalUnique(a: real, b: real, x: real)
    requires a * b == 1.0 && a * x == 1.0
    ensures b == x
  {
    assert a != 0.0;
    assert a * (b - x) == 0.0;
  }

  /** A positive parsed Manual rate is saved: stored oriented, then preferred. */
  lemma ManualSaveOutcome(st: RateState, inputCurrency: Currency, outputCurrency: Currency, buffer: string, x: real)
    requires inputCurrency != outputCurrency
    requires ParseDisplayNumber(buffer) == Finite(x) && x > 0.0
    ensures Save(st, inputCurrency, outputCurrency, ManualSelection, buffer) ==
      Saved(SetPreferredRateType(SaveManualRate(st, inputCurrency, outputCurrency, RateToStore(x, inputCurrency, outputCurrency)),
        PairKey(inputCurrency, outputCurrency), PreferManual))
  {
  }

  /** If the pair converts `input -> output` at the stored value, it converts display base -> quote at the typed one. */
  lemma TypedRateInDisplayDirection(active: Rates, official: Rates, inputCurrency: Currency, outputCurrency: Currency, x: real)
    requires inputCurrency != outputCurrency && x > 0.0
    requires RateFromStore(active, inputCurrency, outputCurrency) ==
      Some(Conversion(RateToStore(x, inputCurrency, outputCurrency), Manual))
    ensures MatrixCell(active, official, DisplayBase(inputCurrency, outputCurrency), DisplayQuote(inputCurrency, outputCurrency)) ==
      Cell(x, From(Manual))
  {
    var v := RateToStore(x, inputCurrency, outputCurrency);
    RateToStoreOrientation(x, inputCurrency, outputCurrency);
    if DisplayBase(inputCurrency, outputCurrency) == inputCurrency {
      MatrixDirect(active, official, inputCurrency, outputCurrency);
    } else {
      assert PairKey(outputCurrency, inputCurrency) == PairKey(inputCurrency, outputCurrency);
      RateFromStoreOrientation(active, inputCurrency, outputCurrency);
      var back := RateFromStore(active, outputCurrency, inputCurrency).value;
      ReciprocalUnique(v, back.value, x);
      MatrixDirect(active, official, outputCurrency, inputCurrency);
    }
  }

  /**
   * A valid manual save makes the typed rate the active one for the pair: the matrix then
   * converts one unit of the display base into exactly the typed amount of the display
   * quote, with source Manual, and the official table is untouched.
   */
  lemma ManualSaveReadsAsTyped(st: RateState, inputCurrency: Currency, outputCurrency: Currency, buffer: string, x: real)
    requires inputCurrency != outputCurrency
    requires ParseDisplayNumber(buffer) == Finite(x) && x > 0.0
    ensures var outcome := Save(st, inputCurrency, outputCurrency, ManualSelection, buffer);
      && outcome.Saved?
      && outcome.newState.officialRates == st.officialRates
      && PreferenceOf(outcome.newState.preferredRateTypes, PairKey(inputCurrency, outputCurrency)) == Some(PreferManual)
      && MatrixCell(ActiveRatesOf(outcome.newState), outcome.newState.officialRates,
           DisplayBase(inputCurrency, outputCurrency), DisplayQuote(inputCurrency, outputCurrency)) == Cell(x, From(Manual))
  {
    var v := RateToStore(x, inputCurrency, outputCurrency);
    RateToStoreOrientation(x, inputCurrency, outputCurrency);
    ManualSaveOutcome(st, inputCurrency, outputCurrency, buffer, x);
    var st' := SetPreferredRateType(SaveManualRate(st, inputCurrency, outputCurrency, v), PairKey(inputCurrency, outputCurrency), PreferManual);
    ManualSaveBecomesActive(st, inputCurrency, outputCurrency, v);
    TypedRateInDisplayDirection(ActiveRatesOf(st'), st'.officialRates, inputCurrency, outputCurrency, x);
  }

  /** Saving with Oficial changes only that pair's preference, and the pair then resolves to the official entry. */
  lemma OficialSaveOnlyPreference(st: RateState, inputCurrency: Currency, outputCurrency: Currency, buffer: string)
    requires inputCurrency != outputCurrency
    ensures var k := PairKey(inputCurrency, outputCurrency);
      var outcome := Save(st, inputCurrency, outputCurrency, OficialSelection, buffer);
      && outcome.Saved?
      && outcome.newState.officialRates == st.officialRates && outcome.newState.manualRates == st.manualRates
      && PreferenceOf(outcome.newState.preferredRateTypes, k) == Some(PreferOficial)
      && (forall j :: j != k ==> PreferenceOf(outcome.newState.preferredRateTypes, j) == PreferenceOf(st.preferredRateTypes, j))
      && ResolveRate(outcome.newState, k) == Lookup(st.officialRates, k)
  {
    var k := PairKey(inputCurrency, outputCurrency);
    ResolveRateCases(Save(st, inputCurrency, outputCurrency, OficialSelection, buffer).newState, k);
  }

  // ---------------------------------------------------------------------------------------
  // The save button

  /** The save button is disabled: an error is shown, Oficial is already in effect, or the manual rate is not positive. */
  predicate SaveDisabled(errorShown: bool, selection: RateTypeSelection, preference: Option<Preference>, manualRateExists: bool, buffer: string) {
    if errorShown then true
    else if selection == OficialSelection then preference == Some(PreferOficial) || (preference.None? && !manualRateExists)
    else
      // `NaN <= 0` is false, so a buffer that does not parse leaves the button enabled.
      var v := ParseDisplayNumber(buffer);
      v.Finite? && v.r <= 0.0
  }

  /** With Oficial selected, the button is disabled only when saving would not change which rate the pair resolves to. */
  lemma OficialDisabledMeansNoChange(st: RateState, inputCurrency: Currency, outputCurrency: Currency, buffer: string)
    requires inputCurrency != outputCurrency
    requires var k := PairKey(inputCurrency, outputCurrency);
      SaveDisabled(false, OficialSelection, PreferenceOf(st.preferredRateTypes, k), k in st.manualRates, buffer)
    ensures var k := PairKey(inputCurrency, outputCurrency);
      ResolveRate(Save(st, inputCurrency, outputCurrency, OficialSelection, buffer).newState, k) == ResolveRate(st, k)
  {
    var k := PairKey(inputCurrency, outputCurrency);
    OficialSaveOnlyPreference(st, inputCurrency, outputCurrency, buffer);
    ResolveRateCases(st, k);
  }

  /** For a buffer that parses to a number, a Manual save is refused exactly when the button is disabled. */
  lemma ManualDisabledIffRejected(st: RateState, inputCurrency: Currency, outputCurrency: Currency, preference: Option<Preference>, manualRateExists: bool, buffer: string)
    requires inputCurrency != outputCurrency && ParseDisplayNumber(buffer).Finite?
    ensures SaveDisabled(false, ManualSelection, preference, manualRateExists, buffer) <==>
      Save(st, inputCurrency, outputCurrency, ManualSelection, buffer).Rejected?
  {
  }

  // ---------------------------------------------------------------------------------------
  // The component state

  /** The modal for one pair of currencies. */
  class RateModal {
    const inputCurrency: Currency
    const outputCurrency: Currency
    var manualRateInput: string
    var rateTypeSelection: RateTypeSelection
    var errorMessage: Option<string>

    /** A modal for `inputCurrency` -> `outputCurrency` (`createOrderedPairKey` throws for equal ones). */
    constructor (inputCurrency: Currency, outputCurrency: Currency)
      requires inputCurrency != outputCurrency
      ensures this.inputCurrency == inputCurrency && this.outputCurrency == outputCurrency
      ensures manualRateInput == "0,00" && rateTypeSelection == OficialSelection && errorMessage.None?
    {
      this.inputCurrency := inputCurrency;
      this.outputCurrency := outputCurrency;
      manualRateInput := "0,00";
      rateTypeSelection := OficialSelection;
      errorMessage := None;
    }

    /** The effect that runs when the modal opens. */
    method Open(st: RateState, toLocale: Locale)
      requires inputCurrency != outputCurrency
      modifies this
      ensures errorMessage.None?
      ensures var k := PairKey(inputCurrency, outputCurrency);
        rateTypeSelection == InitialSelection(PreferenceOf(st.preferredRateTypes, k), k in st.manualRates)
      ensures manualRateInput == InitialInput(st, inputCurrency, outputCurrency, toLocale, "0,00")
    {
      errorMessage := None;
      var orderedPairKeyForStorage := PairKey(inputCurrency, outputCurrency);
      var currentPreference := PreferenceOf(st.preferredRateTypes, orderedPairKeyForStorage);
      var manualRateExists := orderedPairKeyForStorage in st.manualRates;
      var initialSelection := OficialSelection;
      if currentPreference == Some(PreferManual) {
        initialSelection := ManualSelection;
      } else if currentPreference == Some(PreferOficial) {
        initialSelection := OficialSelection;
      } else {
        initialSelection := if manualRateExists then ManualSelection else OficialSelection;
      }
      rateTypeSelection := initialSelection;
      var initialManualInputValue := "0,00";
      var rateEntryToUseForManualField := PrefillEntry(st, orderedPairKeyForStorage);
      if rateEntryToUseForManualField.Some? {
        var e := rateEntryToUseForManualField.value;
        var valueForDisplay := PrefillValue(e, inputCurrency, outputCurrency);
        initialManualInputValue := FormatNumberForDisplay(NumberArg(Finite(valueForDisplay)), 2, true, toLocale);
      }
      manualRateInput := initialManualInputValue;
    }

    /**
     * A radio click: select the type and clear the error; choosing Manual refills the input
     * with the stored rate (manual, else automatic) in the display direction, or "0,00".
     */
    method SelectRateType(selection: RateTypeSelection, st: RateState, toLocale: Locale)
      requires inputCurrency != outputCurrency
      modifies this
      ensures rateTypeSelection == selection && errorMessage.None?
      ensures manualRateInput ==
        if selection == ManualSelection then InitialInput(st, inputCurrency, outputCurrency, toLocale, "0,00")
        else old(manualRateInput)
    {
      rateTypeSelection := selection;
      errorMessage := None;
      if selection == ManualSelection {
        var valToSet := "0,00";
        var rateEntryForManualField := PrefillEntry(st, PairKey(inputCurrency, outputCurrency));
        if rateEntryForManualField.Some? {
          var valueForDisplay := PrefillValue(rateEntryForManualField.value, inputCurrency, outputCurrency);
          valToSet := FormatNumberForDisplay(NumberArg(Finite(valueForDisplay)), 2, true, toLocale);
        }
        manualRateInput := valToSet;
      }
    }

    /** `handleNumericKeypadPress`: ignored unless Manual is selected; clears the error. */
    method HandleNumericKeypadPress(key: char)
      modifies this
      ensures rateTypeSelection == old(rateTypeSelection)
      ensures old(rateTypeSelection) != ManualSelection ==>
        manualRateInput == old(manualRateInput) && errorMessage == old(errorMessage)
      ensures old(rateTypeSelection) == ManualSelection ==>
        manualRateInput == EditKey(old(manualRateInput), key) && errorMessage.None?
    {
      if rateTypeSelection != ManualSelection {
        return;
      }
      errorMessage := None;
      if key == 'C' {
        manualRateInput := "0";
      } else if key == BACKSPACE {
        manualRateInput := if |manualRateInput| > 1 then manualRateInput[..|manualRateInput| - 1] else "0";
      } else if key == ',' {
        if ',' !in manualRateInput {
          manualRateInput := manualRateInput + ",";
        }
      } else if manualRateInput == "0" {
        manualRateInput := [key];
      } else if |manualRateInput| < MAX_INPUT_LENGTH {
        manualRateInput := manualRateInput + [key];
      }
    }

    /** `handleSave`: the new rate state, and whether the modal closes. */
    method HandleSave(st: RateState) returns (newState: RateState, closed: bool)
      requires inputCurrency != outputCurrency
      modifies this
      ensures manualRateInput == old(manualRateInput) && rateTypeSelection == old(rateTypeSelection)
      ensures match Save(st, inputCurrency, outputCurrency, rateTypeSelection, manualRateInput)
        case Rejected => newState == st && !closed && errorMessage == Some(INVALID_RATE_MESSAGE)
        case Saved(s) =>
          (newState == s && closed &&
           errorMessage == (if rateTypeSelection == ManualSelection then None else old(errorMessage)))
    {
      var orderedPairKeyForStorage := PairKey(inputCurrency, outputCurrency);
      if rateTypeSelection == ManualSelection {
        var userInputRate := ParseDisplayNumber(manualRateInput);
        if userInputRate.NaN? || userInputRate.r <= 0.0 {
          errorMessage := Some(INVALID_RATE_MESSAGE);
          return st, false;
        }
        errorMessage := None;
        var rateToStoreForActualPair: real;
        if DisplayBase(inputCurrency, outputCurrency) == inputCurrency {
          rateToStoreForActualPair := userInputRate.r;
        } else {
          rateToStoreForActualPair := 1.0 / userInputRate.r;
        }
        newState := SaveManualRate(st, inputCurrency, outputCurrency, rateToStoreForActualPair);
        newState := SetPreferredRateType(newState, orderedPairKeyForStorage, PreferManual);
      } else {
        newState := SetPreferredRateType(st, orderedPairKeyForStorage, PreferOficial);
      }
      closed := true;
    }

    /** `saveButtonDisabled` for the current state. */
    predicate SaveButtonDisabled(st: RateState)
      reads this
      requires inputCurrency != outputCurrency
    {
      var k := PairKey(inputCurrency, outputCurrency);
      SaveDisabled(errorMessage.Some?, rateTypeSelection, PreferenceOf(st.preferredRateTypes, k), k in st.manualRates, manualRateInput)
    }
  }
}
