/**
 * The exchange-rate state as the calculator screens use it (App.tsx and the identical code in
 * mobile/app/settings.tsx): resolving the active rate of each pair from the official and
 * manual tables and the per-pair preference, saving a manual rate, and setting a preference.
 */
module RateStore {
  import opened Wrappers
  import opened Types
  import opened ExchangeRateService

  /** `preferredRateTypes[pairKey]`, undefined when no preference was ever set. */
  function PreferenceOf(prefs: Preferences, pairKey: string): Option<Preference> {
    if pairKey in prefs then Some(prefs[pairKey]) else None
  }

  function Lookup(rates: Rates, pairKey: string): Option<RateEntry> {
    if pairKey in rates then Some(rates[pairKey]) else None
  }

  /**
   * The entry `activeRateData` keeps for one pair: the manual entry when 'manual' is preferred
   * and one exists; the official entry (possibly none) when 'oficial' is preferred; otherwise
   * the manual entry if any, else the official one.
   */
  function ResolveRate(st: RateState, pairKey: string): (r: Option<RateEntry>)
    ensures r.Some? ==> r == Lookup(st.manualRates, pairKey) || r == Lookup(st.officialRates, pairKey)
  {
    var preferredType := PreferenceOf(st.preferredRateTypes, pairKey);
    var manualRate := Lookup(st.manualRates, pairKey);
    var officialRate := Lookup(st.officialRates, pairKey);
    if preferredType == Some(PreferManual) && manualRate.Some? then manualRate
    else if preferredType == Some(PreferOficial) then officialRate
    else if manualRate.Some? then manualRate
    else officialRate
  }

  /** The table `activeRateData` computes: every known pair whose resolution yields an entry. */
  function ActiveRatesOf(st: RateState): Rates {
    map k | k in st.officialRates.Keys + st.manualRates.Keys && ResolveRate(st, k).Some? :: ResolveRate(st, k).value
  }

  /** `activeRateData`, with its loop over the set of known pair keys. */
  method ActiveRateData(st: RateState) returns (rates: Rates)
    ensures rates == ActiveRatesOf(st)
  {
    rates := map[];
    var allKnownPairs := st.officialRates.Keys + st.manualRates.Keys;
    var remaining := allKnownPairs;
    while remaining != {}
      invariant remaining <= allKnownPairs
      invariant forall k :: k in rates <==> k in allKnownPairs - remaining && ResolveRate(st, k).Some?
      invariant forall k :: k in rates ==> rates[k] == ResolveRate(st, k).value
      decreases remaining
    {
      var pairKey :| pairKey in remaining;
      var preferredType := PreferenceOf(st.preferredRateTypes, pairKey);
      var manualRate := Lookup(st.manualRates, pairKey);
      var officialRate := Lookup(st.officialRates, pairKey);
      var rateToUse: Option<RateEntry>;
      if preferredType == Some(PreferManual) && manualRate.Some? {
        rateToUse := manualRate;
      } else if preferredType == Some(PreferOficial) {
        rateToUse := officialRate;
      } else {
        rateToUse := if manualRate.Some? then manualRate else officialRate;
      }
      if rateToUse.Some? {
        rates := rates[pairKey := rateToUse.value];
      }
      remaining := remaining - {pairKey};
    }
  }

  /** The three cases of the resolution rule. */
  lemma ResolveRateCases(st: RateState, pairKey: string)
    ensures PreferenceOf(st.preferredRateTypes, pairKey) == Some(PreferManual) && pairKey in st.manualRates ==>
      ResolveRate(st, pairKey) == Some(st.manualRates[pairKey])
    ensures PreferenceOf(st.preferredRateTypes, pairKey) == Some(PreferOficial) ==>
      ResolveRate(st, pairKey) == Lookup(st.officialRates, pairKey)
    ensures PreferenceOf(st.preferredRateTypes, pairKey) != Some(PreferOficial) && pairKey !in st.manualRates ==>
      ResolveRate(st, pairKey) == Lookup(st.officialRates, pairKey)
    ensures PreferenceOf(st.preferredRateTypes, pairKey).None? && pairKey in st.manualRates ==>
      ResolveRate(st, pairKey) == Some(st.manualRates[pairKey])
  {
  }

  /**
   * A pair is active exactly when it has an official entry, or a manual entry without an
   * 'oficial' preference; pairs in neither table never appear, and every active entry is
   * one of the stored entries for that pair.
   */
  lemma ActiveRatesKeys(st: RateState)
    ensures forall k :: k in ActiveRatesOf(st) <==>
      k in st.officialRates || (k in st.manualRates && PreferenceOf(st.preferredRateTypes, k) != Some(PreferOficial))
    ensures forall k :: k !in st.officialRates && k !in st.manualRates ==> k !in ActiveRatesOf(st)
    ensures forall k :: k in ActiveRatesOf(st) ==>
      (k in st.manualRates && ActiveRatesOf(st)[k] == st.manualRates[k])
      || (k in st.officialRates && ActiveRatesOf(st)[k] == st.officialRates[k])
  {
  }

  /** `handleSaveManualRate`: only the manual table changes, through `applyRateUpdate`. */
  function SaveManualRate(st: RateState, from: Currency, to: Currency, newRateValue: real): (r: RateState)
    ensures r.officialRates == st.officialRates && r.preferredRateTypes == st.preferredRateTypes
  {
    st.(manualRates := ApplyRateUpdate(st.manualRates, from, to, newRateValue, Manual))
  }

  /** `handleSetPreferredRateType`: only that pair's preference changes. */
  function SetPreferredRateType(st: RateState, pairKey: string, t: Preference): (r: RateState)
    ensures r.officialRates == st.officialRates && r.manualRates == st.manualRates
    ensures PreferenceOf(r.preferredRateTypes, pairKey) == Some(t)
    ensures forall k :: k != pairKey ==> PreferenceOf(r.preferredRateTypes, k) == PreferenceOf(st.preferredRateTypes, k)
  {
    st.(preferredRateTypes := st.preferredRateTypes[pairKey := t])
  }

  /**
   * Saving a positive manual rate for a pair and preferring 'manual' for it makes the typed
   * rate the active one: the matrix then converts `from` -> `to` at exactly that rate, with
   * source Manual, whatever the official table holds.
   */
  lemma ManualSaveBecomesActive(st: RateState, from: Currency, to: Currency, v: real)
    requires from != to && v > 0.0
    ensures var st' := SetPreferredRateType(SaveManualRate(st, from, to, v), PairKey(from, to), PreferManual);
      && ResolveRate(st', PairKey(from, to)) == Some(SaveManualRate(st, from, to, v).manualRates[PairKey(from, to)])
      && RateFromStore(ActiveRatesOf(st'), from, to) == Some(Conversion(v, Manual))
      && MatrixCell(ActiveRatesOf(st'), st'.officialRates, from, to) == Cell(v, From(Manual))
  {
    var key := PairKey(from, to);
    var saved := SaveManualRate(st, from, to, v);
    var st' := SetPreferredRateType(saved, key, PreferManual);
    ApplyRateUpdateRoundTrip(st.manualRates, from, to, v, Manual);
    assert key in st'.manualRates;
    ActiveRatesKeys(st');
    assert ActiveRatesOf(st')[key] == saved.manualRates[key];
    assert RateFromStore(ActiveRatesOf(st'), from, to) == RateFromStore(saved.manualRates, from, to);
  }
}
