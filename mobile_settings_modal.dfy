/**
 * The rate-editing modal of the mobile app (mobile/components/SettingsModal.tsx). Display
 * base, pre-fill, the save outcome and the save-button rule are the web modal's; this
 * module adds what differs: the editor's 'C' key and the module-level `isNewRate` flag,
 * with which the first digit after opening replaces the pre-filled rate.
 *
 * As written, a digit typed over "0" leaves `isNewRate` set, so the next digit replaces the
 * buffer again. `EditorKeyAsWritten` is that code; `EditorKey` also clears the flag there, and
 * is what the rest of the model uses.
 */
module MobileSettingsModal {
  import opened Wrappers
  import opened Types
  import opened Constants
  import opened Strings
  import opened CalculatorService
  import opened ExchangeRateService
  import opened RateStore
  import opened WebSettingsModal

  /** The message shown when a manual rate is rejected. */
  const MOBILE_INVALID_RATE_MESSAGE: string := "Tasa inv\U{00E1}lida. Ingrese un valor positivo."

  /** The editor's text and the `isNewRate` flag. */
  datatype Editor = Editor(buffer: string, isNewRate: bool)

  /** The radio choice on opening, as the mobile one-line condition. */
  function InitialSelectionMobile(preference: Option<Preference>, manualRateExists: bool): RateTypeSelection {
    if preference == Some(PreferManual) || (preference.None? && manualRateExists) then ManualSelection else OficialSelection
  }

  /** Both modals open on the same radio choice. */
  lemma SameInitialSelection(preference: Option<Preference>, manualRateExists: bool)
    ensures InitialSelectionMobile(preference, manualRateExists) == InitialSelection(preference, manualRateExists)
  {
  }

  /** `handleNumericKeypadPress` past its guard, as written. */
  function EditorKeyAsWritten(e: Editor, key: char): Editor {
    if key == 'C' then e.(buffer := "0")
    else if key == BACKSPACE then e.(buffer := if |e.buffer| > 1 then e.buffer[..|e.buffer| - 1] else "0")
    else if key == ',' then e.(buffer := if ',' in e.buffer then e.buffer else e.buffer + ",")
    else if e.buffer == "0" then e.(buffer := [key])
    else if e.isNewRate then Editor([key], false)
    else if |e.buffer| < MAX_INPUT_LENGTH then e.(buffer := e.buffer + [key])
    else e
  }

  /** As written, on a fresh "0" buffer the digits 1 and 2 leave "2": the second digit replaces the first. */
  lemma SecondDigitReplacesFirst()
    ensures EditorKeyAsWritten(EditorKeyAsWritten(Editor("0", true), '1'), '2') == Editor("2", false)
  {
  }

  /** The editor with the flag also cleared when a digit replaces "0". */
  function EditorKey(e: Editor, key: char): (r: Editor)
    ensures r.buffer == EditorKeyAsWritten(e, key).buffer
    ensures r.isNewRate == (e.isNewRate && (key == 'C' || key == BACKSPACE || key == ','))
  {
    if key != 'C' && key != BACKSPACE && key != ',' && e.buffer == "0" then Editor([key], false)
    else EditorKeyAsWritten(e, key)
  }

  /** The state after typing `keys` one by one. */
  function TypeKeys(e: Editor, keys: string): Editor
    decreases |keys|
  {
    if |keys| == 0 then e else TypeKeys(EditorKey(e, keys[0]), keys[1..])
  }

  /** Once the flag is clear, digits are appended to a buffer that is not "0", up to 15 characters. */
  lemma {:induction false} AppendDigits(prefix: string, ds: string)
    requires |prefix| > 0 && prefix != "0" && |prefix| + |ds| <= MAX_INPUT_LENGTH
    requires forall k :: 0 <= k < |ds| ==> IsDigit(ds[k])
    ensures TypeKeys(Editor(prefix, false), ds) == Editor(prefix + ds, false)
    decreases |ds|
  {
    if |ds| == 0 {
      assert prefix + ds == prefix;
    } else {
      assert |prefix + [ds[0]]| > 1;
      assert EditorKey(Editor(prefix, false), ds[0]) == Editor(prefix + [ds[0]], false);
      AppendDigits(prefix + [ds[0]], ds[1..]);
      assert prefix + [ds[0]] + ds[1..] == prefix + ds;
    }
  }

  /**
   * Typing a number from scratch (right after opening, or on "0") gives exactly that number,
   * up to 15 digits.
   */
  lemma {:induction false} TypedFromScratch(e: Editor, ds: string)
    requires e.buffer == "0" || e.isNewRate
    requires 0 < |ds| <= MAX_INPUT_LENGTH && ds[0] != '0'
    requires forall k :: 0 <= k < |ds| ==> IsDigit(ds[k])
    ensures TypeKeys(e, ds) == Editor(ds, false)
  {
    assert EditorKey(e, ds[0]) == Editor([ds[0]], false);
    AppendDigits([ds[0]], ds[1..]);
    assert [ds[0]] + ds[1..] == ds;
  }

  /** The editor keeps a rate buffer a rate buffer, and agrees with the web one except for the first digit. */
  lemma EditorKeepsRateBuffer(e: Editor, key: char)
    requires RateBuffer(e.buffer) && IsRateKey(key)
    ensures RateBuffer(EditorKey(e, key).buffer)
    ensures !(e.isNewRate && IsDigit(key)) ==> EditorKey(e, key).buffer == WebSettingsModal.EditKey(e.buffer, key)
  {
    WebSettingsModal.EditKeepsRateBuffer(e.buffer, key);
  }

  /**
   * The module-level `isNewRate` variable: one cell shared by the modals of every pair, created
   * true when the module loads; opening or closing a modal does not reset it.
   */
  class NewRateFlag {
    var isNewRate: bool

    constructor ()
      ensures isNewRate
    {
      isNewRate := true;
    }
  }

  /** The modal for one pair; it reads and writes the shared `flag`. */
  class RateModal {
    const inputCurrency: Currency
    const outputCurrency: Currency
    const flag: NewRateFlag
    var manualRateInput: string
    var rateTypeSelection: RateTypeSelection
    var errorMessage: Option<string>

    function EditorState(): Editor
      reads this, flag
    {
      Editor(manualRateInput, flag.isNewRate)
    }

    /** A modal for a pair, mounted beside the shared flag, whose value it leaves as it is. */
    constructor (inputCurrency: Currency, outputCurrency: Currency, flag: NewRateFlag)
      requires inputCurrency != outputCurrency
      ensures this.inputCurrency == inputCurrency && this.outputCurrency == outputCurrency && this.flag == flag
      ensures manualRateInput == "0,00" && rateTypeSelection == OficialSelection && errorMessage.None?
    {
      this.inputCurrency := inputCurrency;
      this.outputCurrency := outputCurrency;
      this.flag := flag;
      manualRateInput := "0,00";
      rateTypeSelection := OficialSelection;
      errorMessage := None;
    }

    /** The effect that runs when the modal opens; it leaves `isNewRate` alone. */
    method Open(st: RateState, toLocale: Locale)
      requires inputCurrency != outputCurrency
      modifies this
      ensures errorMessage.None? && flag.isNewRate == old(flag.isNewRate)
      ensures var k := PairKey(inputCurrency, outputCurrency);
        rateTypeSelection == InitialSelectionMobile(PreferenceOf(st.preferredRateTypes, k), k in st.manualRates)
      ensures manualRateInput == InitialInput(st, inputCurrency, outputCurrency, toLocale, "0")
    {
      errorMessage := None;
      var orderedPairKeyForStorage := PairKey(inputCurrency, outputCurrency);
      var currentPreference := PreferenceOf(st.preferredRateTypes, orderedPairKeyForStorage);
      var manualRateExists := orderedPairKeyForStorage in st.manualRates;
      rateTypeSelection := if currentPreference == Some(PreferManual) || (currentPreference.None? && manualRateExists)
        then ManualSelection else OficialSelection;
      var rateEntryToUse := PrefillEntry(st, orderedPairKeyForStorage);
      var initialManualInputValue := "0";
      if rateEntryToUse.Some? {
        var e := rateEntryToUse.value;
        var valueForDisplay := PrefillValue(e, inputCurrency, outputCurrency);
        initialManualInputValue := FormatNumberForDisplay(NumberArg(Finite(valueForDisplay)), 2, true, toLocale);
      }
      manualRateInput := initialManualInputValue;
    }

    /** A radio press: only the selection changes (the error stays). */
    method SelectRateType(selection: RateTypeSelection)
      modifies this
      ensures rateTypeSelection == selection && errorMessage == old(errorMessage) && EditorState() == old(EditorState())
    {
      rateTypeSelection := selection;
    }

    /** `handleNumericKeypadPress`: ignored unless Manual is selected; clears the error. */
    method HandleNumericKeypadPress(key: char)
      modifies this, flag
      ensures rateTypeSelection == old(rateTypeSelection)
      ensures old(rateTypeSelection) != ManualSelection ==>
        EditorState() == old(EditorState()) && errorMessage == old(errorMessage)
      ensures old(rateTypeSelection) == ManualSelection ==>
        EditorState() == EditorKey(old(EditorState()), key) && errorMessage.None?
    {
      if rateTypeSelection != ManualSelection {
        return;
      }
      errorMessage := None;
      if key == 'C' {
        manualRateInput := "0";
      } else if key == BACKSPACE {
        manualRateInput := if |manualRateInput| > 1 then manualRateInput[..|manualRateInput| - 1] else "0";
      } else if key == ',' {
        if ',' !in manualRateInput {
          manualRateInput := manualRateInput + ",";
        }
      } else if manualRateInput == "0" {
        manualRateInput := [key];
        flag.isNewRate := false;
      } else if flag.isNewRate {
        manualRateInput := [key];
        flag.isNewRate := false;
      } else if |manualRateInput| < MAX_INPUT_LENGTH {
        manualRateInput := manualRateInput + [key];
      }
    }

    /** `handleSave`: the web modal's outcome; every save that is not rejected sets `isNewRate` again. */
    method HandleSave(st: RateState) returns (newState: RateState, closed: bool)
      requires inputCurrency != outputCurrency
      modifies this, flag
      ensures manualRateInput == old(manualRateInput) && rateTypeSelection == old(rateTypeSelection)
      ensures match Save(st, inputCurrency, outputCurrency, rateTypeSelection, manualRateInput)
        case Rejected =>
          (newState == st && !closed && errorMessage == Some(MOBILE_INVALID_RATE_MESSAGE) && flag.isNewRate == old(flag.isNewRate))
        case Saved(s) =>
          (newState == s && closed && flag.isNewRate &&
           errorMessage == (if rateTypeSelection == ManualSelection then None else old(errorMessage)))
    {
      var orderedPairKeyForStorage := PairKey(inputCurrency, outputCurrency);
      if rateTypeSelection == ManualSelection {
        var userInputRate := ParseDisplayNumber(manualRateInput);
        if userInputRate.NaN? || userInputRate.r <= 0.0 {
          errorMessage := Some(MOBILE_INVALID_RATE_MESSAGE);
          return st, false;
        }
        errorMessage := None;
        var rateToStore := if DisplayBase(inputCurrency, outputCurrency) == inputCurrency then userInputRate.r else 1.0 / userInputRate.r;
        newState := SaveManualRate(st, inputCurrency, outputCurrency, rateToStore);
        newState := SetPreferredRateType(newState, orderedPairKeyForStorage, PreferManual);
      } else {
        newState := SetPreferredRateType(st, orderedPairKeyForStorage, PreferOficial);
      }
      flag.isNewRate := true;
      closed := true;
    }

    /** `isSaveDisabled`, the same rule as the web modal's. */
    predicate IsSaveDisabled(st: RateState)
      reads this
      requires inputCurrency != outputCurrency
    {
      var k := PairKey(inputCurrency, outputCurrency);
      SaveDisabled(errorMessage.Some?, rateTypeSelection, PreferenceOf(st.preferredRateTypes, k), k in st.manualRates, manualRateInput)
    }
  }

  /**
   * The flag is shared between pairs: once a digit has replaced the pre-filled rate in one
   * pair's modal, the modal of another pair no longer treats its next digit as a fresh rate.
   */
  method TypeDigitInOtherPair(a: RateModal, b: RateModal, key: char)
    requires a != b && a.flag == b.flag && a.rateTypeSelection == ManualSelection && IsDigit(key)
    modifies a, a.flag
    ensures !b.EditorState().isNewRate
    ensures b.manualRateInput == old(b.manualRateInput)
    ensures old(a.flag.isNewRate) ==> a.manualRateInput == [key]
  {
    a.HandleNumericKeypadPress(key);
  }
}
