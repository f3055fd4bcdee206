/** The constant tables of constants.ts and the facts the rest of the model relies on. */
module Constants {
  import opened Wrappers
  import opened Types

  /** The backspace key '⌫' every keypad sends. */
  const BACKSPACE: char := '\U{232B}'

  /** `CURRENCIES`, in the source's order. */
  const CURRENCIES: seq<Currency> := [VES, COP, USD, EUR]

  /** The position of a currency in `CURRENCIES`. */
  function CurrencyIndex(c: Currency): (i: nat)
    ensures i < |CURRENCIES| && CURRENCIES[i] == c
  {
    match c
    case VES => 0
    case COP => 1
    case USD => 2
    case EUR => 3
  }

  /** `CURRENCY_VALUE_RANK`. */
  function Rank(c: Currency): (r: nat)
    ensures 1 <= r <= 4
  {
    match c
    case EUR => 4
    case USD => 3
    case VES => 2
    case COP => 1
  }

  /** `initialOfficialExchangeRates`: the fallback official rates used before the first fetch. */
  const INITIAL_OFFICIAL_RATES: Rates := map[
    "USD_VES" := RateEntry(36.50, BCV, OficialKind, Some(true)),
    "EUR_VES" := RateEntry(39.80, BCV, OficialKind, Some(true)),
    "USD_COP" := RateEntry(4000.00, BANREP, OficialKind, Some(true)),
    "EUR_USD" := RateEntry(1.08, BCE, OficialKind, Some(true))
  ]

  /** `initialExchangeRateState` (without the fetch date). */
  const INITIAL_RATE_STATE: RateState := RateState(INITIAL_OFFICIAL_RATES, map[], map[])

  /** `initialAppSettings`. */
  const INITIAL_APP_SETTINGS: AppSettings := AppSettings(false, false)

  /** `CURRENCIES` lists each of the four currencies exactly once. */
  lemma CurrenciesListEachOnce()
    ensures |CURRENCIES| == 4
    ensures forall c: Currency :: c in CURRENCIES
    ensures forall i, j :: 0 <= i < j < |CURRENCIES| ==> CURRENCIES[i] != CURRENCIES[j]
  {
    forall c: Currency ensures c in CURRENCIES {
      match c
      case VES => assert CURRENCIES[0] == c;
      case COP => assert CURRENCIES[1] == c;
      case USD => assert CURRENCIES[2] == c;
      case EUR => assert CURRENCIES[3] == c;
    }
  }

  /** The ranks order the currencies strictly: EUR > USD > VES > COP. */
  lemma RanksStrictlyOrdered()
    ensures Rank(EUR) > Rank(USD) > Rank(VES) > Rank(COP)
    ensures forall a: Currency, b: Currency :: Rank(a) == Rank(b) ==> a == b
  {
  }

  /** The seed state has no manual rates and no preferences; every seed rate is official. */
  lemma InitialStateShape()
    ensures INITIAL_RATE_STATE.manualRates == map[]
    ensures INITIAL_RATE_STATE.preferredRateTypes == map[]
    ensures |INITIAL_OFFICIAL_RATES| == 4
    ensures forall k :: k in INITIAL_OFFICIAL_RATES ==>
      INITIAL_OFFICIAL_RATES[k].rateType == OficialKind && INITIAL_OFFICIAL_RATES[k].isDirect == Some(true)
  {
    assert INITIAL_OFFICIAL_RATES.Keys == {"USD_VES", "EUR_VES", "USD_COP", "EUR_USD"};
  }
}
