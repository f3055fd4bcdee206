/**
 * The data model of types.ts: currencies, rate entries and their sources, the three rate
 * tables of the exchange-rate state, application settings, the payload of the rate feed,
 * and a model of the JavaScript `number` values that parsing and evaluation produce.
 */
module Types {
  import opened Wrappers

  /** The four supported currencies. */
  datatype Currency = VES | COP | USD | EUR

  /** The ISO code a currency is written with inside pair keys and labels. */
  function Code(c: Currency): (s: string)
    ensures |s| == 3
  {
    match c
    case VES => "VES"
    case COP => "COP"
    case USD => "USD"
    case EUR => "EUR"
  }

  /** `RateEntrySource`: who produced a rate. */
  datatype Source = BCV | BANREP | BCE | Manual | Derived | System

  /** `RateEntry['type']`. */
  datatype RateKind = OficialKind | ManualKind | DerivedKind | IdentityKind

  /** Rates are positive reals ("1 unit of the higher-ranked currency = value lower-ranked units"). */
  type PosReal = r: real | r > 0.0 witness 1.0

  /** `1 / x` of a rate read in the opposite direction; it is a rate again. */
  function Reciprocal(x: PosReal): (r: PosReal)
    ensures x * r == 1.0
  {
    1.0 / x
  }

  /** `RateEntry`; `isDirect` is optional in the source. */
  datatype RateEntry = RateEntry(value: PosReal, source: Source, rateType: RateKind, isDirect: Option<bool>)

  /** `AllExchangeRates`: pair key -> entry. */
  type Rates = map<string, RateEntry>

  /** The values of `preferredRateTypes`: 'oficial' or 'manual'. */
  datatype Preference = PreferOficial | PreferManual

  type Preferences = map<string, Preference>

  /** `ExchangeRateState` without the fetch date, which only the network code writes. */
  datatype RateState = RateState(officialRates: Rates, manualRates: Rates, preferredRateTypes: Preferences)

  /** A JavaScript number as far as this model needs: NaN or a finite value. */
  datatype Num = NaN | Finite(r: real)

  /** `AppSettings`. */
  datatype AppSettings = AppSettings(darkMode: bool, copMultiplyByThousand: bool)

  /** `FetchedCloudRates`: every sub-object and every field may be missing from the payload. */
  datatype BcvRates = BcvRates(usdves: Option<real>, eurves: Option<real>)
  datatype BanRepRates = BanRepRates(usdcop: Option<real>)
  datatype BceRates = BceRates(eurusd: Option<real>)
  datatype FetchedCloudRates = FetchedCloudRates(
    date: string, bcv: Option<BcvRates>, banRep: Option<BanRepRates>, bce: Option<BceRates>)
}
