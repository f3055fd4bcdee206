/**
 * services/exchangeRateService.ts: canonical pair keys, the 4x4 conversion matrix, oriented
 * rate updates, merging of fetched official rates, and the "1 Higher = x Lower" display helper.
 */
module ExchangeRateService {
  import opened Wrappers
  import opened Types
  import opened Constants

  // ---------------------------------------------------------------------------------------
  // Pair keys

  /** The higher-ranked of two currencies. */
  function HigherRanked(a: Currency, b: Currency): (h: Currency)
    ensures h == a || h == b
    ensures Rank(h) >= Rank(a) && Rank(h) >= Rank(b)
  {
    if Rank(a) > Rank(b) then a else b
  }

  /** The lower-ranked of two currencies. */
  function LowerRanked(a: Currency, b: Currency): (l: Currency)
    ensures l == a || l == b
    ensures Rank(l) <= Rank(a) && Rank(l) <= Rank(b)
  {
    if Rank(a) > Rank(b) then b else a
  }

  /** The canonical key of a pair of distinct currencies: higher-ranked code, '_', lower-ranked code. */
  function PairKey(a: Currency, b: Currency): (k: string)
    requires a != b
    ensures |k| == 7
  {
    Code(HigherRanked(a, b)) + "_" + Code(LowerRanked(a, b))
  }

  /** `createOrderedPairKey`; `None` stands for the exception thrown for equal currencies. */
  function CreateOrderedPairKey(c1: Currency, c2: Currency): (r: Option<string>)
    ensures r.None? <==> c1 == c2
    ensures r.Some? ==> r.value == PairKey(c1, c2)
  {
    if c1 == c2 then None
    else if Rank(c1) > Rank(c2) then Some(Code(c1) + "_" + Code(c2))
    else Some(Code(c2) + "_" + Code(c1))
  }

  /** The currency written with a three-letter code, if any. */
  function CurrencyOfCode(s: string): (r: Option<Currency>)
    ensures r.Some? ==> Code(r.value) == s
  {
    if s == "VES" then Some(VES)
    else if s == "COP" then Some(COP)
    else if s == "USD" then Some(USD)
    else if s == "EUR" then Some(EUR)
    else None
  }

  /** `key.split('_')` read back as the two currencies of a pair key. */
  function ParsePairKey(k: string): (r: Option<(Currency, Currency)>)
  {
    if |k| == 7 && k[3] == '_' then
      match (CurrencyOfCode(k[..3]), CurrencyOfCode(k[4..]))
      case (Some(h), Some(l)) => Some((h, l))
      case _ => None
    else None
  }

  lemma CodeOfCurrency(c: Currency)
    ensures CurrencyOfCode(Code(c)) == Some(c)
  {
  }

  /**
   * The pair key is written higher-ranked first, names both currencies, and is the same
   * whichever order the currencies are given in; equal currencies have no key.
   */
  lemma PairKeyCanonical(a: Currency, b: Currency)
    ensures CreateOrderedPairKey(a, a).None?
    ensures a != b ==> CreateOrderedPairKey(a, b) == CreateOrderedPairKey(b, a)
    ensures a != b ==>
      var p := ParsePairKey(PairKey(a, b));
      p.Some? && Rank(p.value.0) > Rank(p.value.1) && {p.value.0, p.value.1} == {a, b}
  {
    if a != b {
      var k := PairKey(a, b);
      var h, l := HigherRanked(a, b), LowerRanked(a, b);
      assert k[..3] == Code(h) && k[4..] == Code(l);
      CodeOfCurrency(h);
      CodeOfCurrency(l);
    }
  }

  /** A pair key reads back as its higher- and its lower-ranked currency. */
  lemma PairKeyParts(a: Currency, b: Currency)
    requires a != b
    ensures ParsePairKey(PairKey(a, b)) == Some((HigherRanked(a, b), LowerRanked(a, b)))
  {
    var k := PairKey(a, b);
    assert k[..3] == Code(HigherRanked(a, b)) && k[4..] == Code(LowerRanked(a, b));
    CodeOfCurrency(HigherRanked(a, b));
    CodeOfCurrency(LowerRanked(a, b));
  }

  /** Two pairs share a key exactly when they hold the same two currencies. */
  lemma PairKeyInjective(a: Currency, b: Currency, c: Currency, d: Currency)
    requires a != b && c != d
    ensures PairKey(a, b) == PairKey(c, d) <==> {a, b} == {c, d}
  {
    if PairKey(a, b) == PairKey(c, d) {
      SameKeySameCurrencies(a, b, c, d);
    }
    if {a, b} == {c, d} {
      SameCurrenciesSameKey(a, b, c, d);
    }
  }

  lemma SameKeySameCurrencies(a: Currency, b: Currency, c: Currency, d: Currency)
    requires a != b && c != d
    requires PairKey(a, b) == PairKey(c, d)
    ensures {a, b} == {c, d}
  {
    PairKeyParts(a, b);
    PairKeyParts(c, d);
    assert HigherRanked(a, b) == HigherRanked(c, d) && LowerRanked(a, b) == LowerRanked(c, d);
  }

  lemma SameCurrenciesSameKey(a: Currency, b: Currency, c: Currency, d: Currency)
    requires a != b && c != d
    requires {a, b} == {c, d}
    ensures PairKey(a, b) == PairKey(c, d)
  {
    assert a in {c, d} && b in {c, d};
    if a != c {
      PairKeyCanonical(c, d);
      assert CreateOrderedPairKey(a, b) == CreateOrderedPairKey(c, d);
    }
  }

  /** `createOrderedPairKey('VES', 'USD')` is "USD_VES". */
  lemma PairKeyExample()
    ensures CreateOrderedPairKey(VES, USD) == Some("USD_VES")
  {
    PairKeyLiterals();
  }

  /** The four keys the rate feed and the seed use, written out. */
  lemma PairKeyLiterals()
    ensures PairKey(USD, VES) == "USD_VES"
    ensures PairKey(EUR, VES) == "EUR_VES"
    ensures PairKey(USD, COP) == "USD_COP"
    ensures PairKey(EUR, USD) == "EUR_USD"
  {
    assert Code(USD) == "USD" && Code(VES) == "VES" && Code(EUR) == "EUR" && Code(COP) == "COP";
    assert HigherRanked(USD, VES) == USD && HigherRanked(EUR, VES) == EUR;
    assert HigherRanked(USD, COP) == USD && HigherRanked(EUR, USD) == EUR;
  }

  /** The seed official rates are stored under canonical keys, each higher-ranked first. */
  lemma SeedRatesCanonical()
    ensures INITIAL_OFFICIAL_RATES.Keys == {PairKey(USD, VES), PairKey(EUR, VES), PairKey(USD, COP), PairKey(EUR, USD)}
    ensures Rank(USD) > Rank(VES) && Rank(EUR) > Rank(VES) && Rank(USD) > Rank(COP) && Rank(EUR) > Rank(USD)
  {
    PairKeyLiterals();
  }

  // ---------------------------------------------------------------------------------------
  // The conversion matrix

  /** A conversion multiplier looked up in a rate table: 1 unit of `from` = value units of `to`. */
  datatype Conversion = Conversion(value: real, source: Source)

  /** The source of a matrix cell: a rate source or the sentinel 'No Disponible'. */
  datatype CellSource = From(source: Source) | NoDisponible

  datatype Cell = Cell(value: real, source: CellSource)

  /** `RateMatrix`: from -> to -> cell. */
  type Matrix = map<Currency, map<Currency, Cell>>

  /** A stored entry (1 higher = value lower) read in the direction from -> to. */
  function Oriented(e: RateEntry, from: Currency, to: Currency): (v: real)
    ensures v > 0.0
  {
    if Rank(from) > Rank(to) then e.value else 1.0 / e.value
  }

  /** `getRateValueFromStore` (the empty object is `None`). */
  function RateFromStore(rates: Rates, from: Currency, to: Currency): (r: Option<Conversion>)
    ensures r.Some? ==> r.value.value > 0.0
    ensures from != to ==> (r.Some? <==> PairKey(from, to) in rates)
  {
    if from == to then Some(Conversion(1.0, System))
    else
      var k := PairKey(from, to);
      if k in rates then Some(Conversion(Oriented(rates[k], from, to), rates[k].source))
      else None
  }

  /** Reading one entry in the stored direction and in the other gives reciprocal values. */
  lemma OrientedReciprocal(e: RateEntry, from: Currency, to: Currency)
    requires from != to
    ensures Rank(from) > Rank(to) ==> Oriented(e, from, to) == e.value
    ensures Rank(from) < Rank(to) ==> Oriented(e, from, to) * e.value == 1.0
    ensures Oriented(e, from, to) * Oriented(e, to, from) == 1.0
  {
    RanksStrictlyOrdered();
    assert e.value * (1.0 / e.value) == 1.0;
  }

  /**
   * A direct lookup returns the stored value when `from` is the higher-ranked currency and
   * its reciprocal otherwise, so the two directions multiply to 1 and share the source.
   */
  lemma RateFromStoreOrientation(rates: Rates, from: Currency, to: Currency)
    requires from != to && PairKey(from, to) in rates
    ensures var e := rates[PairKey(from, to)];
      && RateFromStore(rates, from, to) == Some(Conversion(Oriented(e, from, to), e.source))
      && RateFromStore(rates, to, from) == Some(Conversion(Oriented(e, to, from), e.source))
      && (Rank(from) > Rank(to) ==> RateFromStore(rates, from, to).value.value == e.value)
      && (Rank(from) < Rank(to) ==> RateFromStore(rates, from, to).value.value * e.value == 1.0)
      && RateFromStore(rates, from, to).value.value * RateFromStore(rates, to, from).value.value == 1.0
  {
    assert PairKey(to, from) == PairKey(from, to);
    OrientedReciprocal(rates[PairKey(from, to)], from, to);
  }

  /** The cell `getFullRateMatrix` writes at `matrix[from][to]`. */
  function MatrixCell(active: Rates, official: Rates, from: Currency, to: Currency): (c: Cell)
  {
    if from == to then Cell(1.0, From(System))
    else
      match RateFromStore(active, from, to)
      case Some(d) => Cell(d.value, From(d.source))
      case None => DerivedCell(official, from, to)
  }

  /** The fallback when no active rate exists: through USD with official legs, or 'No Disponible'. */
  function DerivedCell(official: Rates, from: Currency, to: Currency): (c: Cell)
  {
    if from != USD && to != USD then
      match (RateFromStore(official, from, USD), RateFromStore(official, USD, to))
      case (Some(a), Some(b)) => Cell(a.value * b.value, From(Derived))
      case _ => Cell(0.0, NoDisponible)
    else Cell(0.0, NoDisponible)
  }

  /** `matrix` holds a cell for every pair of currencies, each the one `getFullRateMatrix` computes. */
  predicate IsMatrixOf(matrix: Matrix, active: Rates, official: Rates) {
    forall from: Currency, to: Currency ::
      from in matrix && to in matrix[from] && matrix[from][to] == MatrixCell(active, official, from, to)
  }

  /** `getFullRateMatrix`, with its two nested loops over `CURRENCIES`. */
  method GetFullRateMatrix(active: Rates, official: Rates) returns (matrix: Matrix)
    ensures IsMatrixOf(matrix, active, official)
  {
    matrix := map[];
    for i := 0 to |CURRENCIES|
      invariant forall k :: 0 <= k < i ==> CURRENCIES[k] in matrix
      invariant forall f :: f in matrix ==> IsRowOf(matrix[f], active, official, f)
    {
      var from := CURRENCIES[i];
      var row := FillRow(active, official, from);
      matrix := matrix[from := row];
    }
    forall from: Currency ensures from in matrix {
      assert CURRENCIES[CurrencyIndex(from)] == from;
    }
  }

  /** `row` holds, for every target currency, the cell `getFullRateMatrix` computes from `from`. */
  predicate IsRowOf(row: map<Currency, Cell>, active: Rates, official: Rates, from: Currency) {
    forall to: Currency :: to in row && row[to] == MatrixCell(active, official, from, to)
  }

  /** The inner loop of `getFullRateMatrix`: the row `matrix[from]`. */
  method FillRow(active: Rates, official: Rates, from: Currency) returns (row: map<Currency, Cell>)
    ensures IsRowOf(row, active, official, from)
  {
    row := map[];
    for j := 0 to |CURRENCIES|
      invariant forall k :: 0 <= k < j ==> CURRENCIES[k] in row
      invariant forall t :: t in row ==> row[t] == MatrixCell(active, official, from, t)
    {
      var to := CURRENCIES[j];
      var cell: Cell;
      if from == to {
        cell := Cell(1.0, From(System));
      } else {
        var directConversion := RateFromStore(active, from, to);
        if directConversion.Some? {
          cell := Cell(directConversion.value.value, From(directConversion.value.source));
        } else {
          if from != USD && to != USD {
            var fromToUsd := RateFromStore(official, from, USD);
            var usdToTo := RateFromStore(official, USD, to);
            if fromToUsd.Some? && usdToTo.Some? {
              cell := Cell(fromToUsd.value.value * usdToTo.value.value, From(Derived));
            } else {
              cell := Cell(0.0, NoDisponible);
            }
          } else {
            cell := Cell(0.0, NoDisponible);
          }
          assert cell == DerivedCell(official, from, to);
        }
      }
      assert cell == MatrixCell(active, official, from, to);
      row := row[to := cell];
    }
    forall to: Currency ensures to in row {
      assert CURRENCIES[CurrencyIndex(to)] == to;
    }
  }

  /** Every diagonal cell is 1 with source System, whatever the rate tables hold (even empty ones). */
  lemma MatrixDiagonal(active: Rates, official: Rates, c: Currency)
    ensures MatrixCell(active, official, c, c) == Cell(1.0, From(System))
    ensures MatrixCell(map[], map[], c, c) == Cell(1.0, From(System))
  {
  }

  /** An active rate for the pair is used directly, oriented to the query direction. */
  lemma MatrixDirect(active: Rates, official: Rates, from: Currency, to: Currency)
    requires from != to && PairKey(from, to) in active
    ensures var e := active[PairKey(from, to)];
      MatrixCell(active, official, from, to) == Cell(Oriented(e, from, to), From(e.source))
  {
  }

  /**
   * Without an active rate, two non-USD currencies with both official legs are converted
   * through USD: from -> USD times USD -> to, with source Derived.
   */
  lemma MatrixDerived(active: Rates, official: Rates, from: Currency, to: Currency)
    requires from != to && PairKey(from, to) !in active
    requires from != USD && to != USD && PairKey(from, USD) in official && PairKey(USD, to) in official
    ensures MatrixCell(active, official, from, to) ==
      Cell(Oriented(official[PairKey(from, USD)], from, USD) * Oriented(official[PairKey(USD, to)], USD, to), From(Derived))
  {
  }

  /**
   * Without an active rate and without a two-leg official path through USD (or when either
   * side is USD) the cell is the sentinel 0 / 'No Disponible'.
   */
  lemma MatrixUnavailable(active: Rates, official: Rates, from: Currency, to: Currency)
    requires from != to && PairKey(from, to) !in active
    requires from == USD || to == USD || PairKey(from, USD) !in official || PairKey(USD, to) !in official
    ensures MatrixCell(active, official, from, to) == Cell(0.0, NoDisponible)
  {
  }

  /** Manual rates are never legs of a derived cell: only the pair's own active entry matters. */
  lemma MatrixIgnoresOtherActivePairs(active1: Rates, active2: Rates, official: Rates, from: Currency, to: Currency)
    requires from != to && PairKey(from, to) !in active1 && PairKey(from, to) !in active2
    ensures MatrixCell(active1, official, from, to) == MatrixCell(active2, official, from, to)
  {
  }

  /** A cell is the sentinel exactly when its value is 0; available cells are positive. */
  lemma MatrixCellSign(active: Rates, official: Rates, from: Currency, to: Currency)
    ensures var c := MatrixCell(active, official, from, to);
      (c.source == NoDisponible <==> c.value == 0.0) && (c.source != NoDisponible ==> c.value > 0.0)
  {
  }

  /** Going from -> USD -> to and back to -> USD -> from multiplies to 1. */
  lemma LegsReciprocal(e1: RateEntry, e2: RateEntry, from: Currency, to: Currency, x: real, y: real)
    requires from != USD && to != USD
    requires x == Oriented(e1, from, USD) * Oriented(e2, USD, to)
    requires y == Oriented(e2, to, USD) * Oriented(e1, USD, from)
    ensures x * y == 1.0
  {
    var a, a' := Oriented(e1, from, USD), Oriented(e1, USD, from);
    var b, b' := Oriented(e2, USD, to), Oriented(e2, to, USD);
    OrientedReciprocal(e1, from, USD);
    OrientedReciprocal(e2, USD, to);
    ProductOfReciprocals(x, y, a, a', b, b');
  }

  /** Two conversions through the same pair of reciprocal legs, in opposite orders, are reciprocal. */
  lemma ProductOfReciprocals(x: real, y: real, a: real, a': real, b: real, b': real)
    requires a * a' == 1.0 && b * b' == 1.0 && x == a * b && y == b' * a'
    ensures x * y == 1.0
  {
    assert x * y == (a * a') * (b * b');
  }

  /**
   * Two cells are reciprocal: both available or both the sentinel, and when available they
   * multiply to 1 and have the same source.
   */
  predicate ReciprocalCells(c: Cell, d: Cell) {
    && (c.source == NoDisponible <==> d.source == NoDisponible)
    && (c.source != NoDisponible ==> c.value * d.value == 1.0 && c.source == d.source)
  }

  /** Cells read from the same active entry in the two directions are reciprocal. */
  lemma DirectReciprocal(active: Rates, official: Rates, from: Currency, to: Currency)
    requires from != to && PairKey(from, to) in active
    ensures var c, d := MatrixCell(active, official, from, to), MatrixCell(active, official, to, from);
      c.source == d.source != NoDisponible && c.value * d.value == 1.0
    ensures ReciprocalCells(MatrixCell(active, official, from, to), MatrixCell(active, official, to, from))
  {
    var e := active[PairKey(from, to)];
    assert PairKey(to, from) in active && active[PairKey(to, from)] == e by {
      assert PairKey(to, from) == PairKey(from, to);
    }
    MatrixDirect(active, official, from, to);
    MatrixDirect(active, official, to, from);
    OrientedReciprocal(e, from, to);
  }

  /** With no active rate, derived cells in the two directions are reciprocal. */
  lemma DerivedMatrixReciprocal(active: Rates, official: Rates, from: Currency, to: Currency)
    requires from != to && PairKey(from, to) !in active
    requires from != USD && to != USD && PairKey(from, USD) in official && PairKey(USD, to) in official
    ensures ReciprocalCells(MatrixCell(active, official, from, to), MatrixCell(active, official, to, from))
  {
    assert PairKey(to, from) !in active by {
      assert PairKey(to, from) == PairKey(from, to);
    }
    var c, d := MatrixCell(active, official, from, to), MatrixCell(active, official, to, from);
    assert c == DerivedCell(official, from, to) && d == DerivedCell(official, to, from);
    DerivedReciprocal(official, from, to);
  }

  /** Derived cells in the two directions are reciprocal. */
  lemma DerivedReciprocal(official: Rates, from: Currency, to: Currency)
    requires from != to && from != USD && to != USD
    requires PairKey(from, USD) in official && PairKey(USD, to) in official
    ensures var c, d := DerivedCell(official, from, to), DerivedCell(official, to, from);
      c.source == d.source == From(Derived) && c.value * d.value == 1.0
  {
    var e1, e2 := official[PairKey(from, USD)], official[PairKey(USD, to)];
    assert official[PairKey(to, USD)] == e2 && official[PairKey(USD, from)] == e1 by {
      assert PairKey(to, USD) == PairKey(USD, to) && PairKey(USD, from) == PairKey(from, USD);
    }
    DerivedCellValue(official, from, to, e1, e2);
    DerivedCellValue(official, to, from, e2, e1);
    LegsReciprocal(e1, e2, from, to, DerivedCell(official, from, to).value, DerivedCell(official, to, from).value);
  }

  /** A derived cell is the product of the two official legs through USD, read in its direction. */
  lemma DerivedCellValue(official: Rates, from: Currency, to: Currency, first: RateEntry, second: RateEntry)
    requires from != USD && to != USD
    requires PairKey(from, USD) in official && official[PairKey(from, USD)] == first
    requires PairKey(USD, to) in official && official[PairKey(USD, to)] == second
    ensures DerivedCell(official, from, to) == Cell(Oriented(first, from, USD) * Oriented(second, USD, to), From(Derived))
  {
  }

  /** Without an active rate and without a derivation either way, both cells are the sentinel. */
  lemma UnavailableSymmetric(active: Rates, official: Rates, from: Currency, to: Currency)
    requires from != to && PairKey(from, to) !in active
    requires !(from != USD && to != USD && PairKey(from, USD) in official && PairKey(USD, to) in official)
    ensures MatrixCell(active, official, from, to) == Cell(0.0, NoDisponible)
    ensures MatrixCell(active, official, to, from) == Cell(0.0, NoDisponible)
  {
    assert PairKey(to, from) == PairKey(from, to);
    if from != USD && to != USD {
      assert PairKey(to, USD) == PairKey(USD, to) && PairKey(USD, from) == PairKey(from, USD);
    }
    MatrixUnavailable(active, official, from, to);
    MatrixUnavailable(active, official, to, from);
  }

  /**
   * The matrix is reciprocal: a cell is available exactly when its transpose is, the two
   * multiply to 1, and they carry the same source.
   */
  lemma MatrixReciprocal(active: Rates, official: Rates, from: Currency, to: Currency)
    ensures ReciprocalCells(MatrixCell(active, official, from, to), MatrixCell(active, official, to, from))
  {
    if from != to {
      if PairKey(from, to) in active {
        DirectReciprocal(active, official, from, to);
      } else if from != USD && to != USD && PairKey(from, USD) in official && PairKey(USD, to) in official {
        DerivedMatrixReciprocal(active, official, from, to);
      } else {
        UnavailableSymmetric(active, official, from, to);
      }
    }
  }

  // ---------------------------------------------------------------------------------------
  // Rate updates

  /** The entry type `applyRateUpdate` derives from the source name. */
  function TypeForSource(source: Source): RateKind {
    if source == Manual then ManualKind
    else if source == BCV || source == BANREP || source == BCE then OficialKind
    else DerivedKind
  }

  /** `applyRateUpdate`: store "1 base = value quote" under the canonical key, oriented. */
  function ApplyRateUpdate(rates: Rates, base: Currency, quote: Currency, value: real, sourceName: Source): (r: Rates)
    ensures base == quote || value <= 0.0 ==> r == rates
    ensures base != quote && value > 0.0 ==>
      && r.Keys == rates.Keys + {PairKey(base, quote)}
      && forall k :: k in rates && k != PairKey(base, quote) ==> r[k] == rates[k]
  {
    if base == quote then rates
    else if value <= 0.0 then rates
    else
      var orderedKey := PairKey(base, quote);
      var higherRanked := HigherRanked(base, quote);
      var valueToStore: PosReal := if base == higherRanked then value else 1.0 / value;
      rates[orderedKey := RateEntry(valueToStore, sourceName, TypeForSource(sourceName), Some(true))]
  }

  /**
   * After a valid update, reading the table base -> quote gives back exactly the value and
   * source written (and the reciprocal quote -> base); the entry is direct and typed by source.
   */
  lemma ApplyRateUpdateRoundTrip(rates: Rates, base: Currency, quote: Currency, value: real, sourceName: Source)
    requires base != quote && value > 0.0
    ensures var r := ApplyRateUpdate(rates, base, quote, value, sourceName);
      && RateFromStore(r, base, quote) == Some(Conversion(value, sourceName))
      && RateFromStore(r, quote, base) == Some(Conversion(1.0 / value, sourceName))
      && r[PairKey(base, quote)].isDirect == Some(true)
      && r[PairKey(base, quote)].rateType ==
         (if sourceName == Manual then ManualKind
          else if sourceName in {BCV, BANREP, BCE} then OficialKind
          else DerivedKind)
  {
    assert PairKey(quote, base) == PairKey(base, quote);
    assert 1.0 / (1.0 / value) == value;
  }

  function UsdVes(f: FetchedCloudRates): Option<real> { if f.bcv.Some? then f.bcv.value.usdves else None }
  function EurVes(f: FetchedCloudRates): Option<real> { if f.bcv.Some? then f.bcv.value.eurves else None }
  function UsdCop(f: FetchedCloudRates): Option<real> { if f.banRep.Some? then f.banRep.value.usdcop else None }
  function EurUsd(f: FetchedCloudRates): Option<real> { if f.bce.Some? then f.bce.value.eurusd else None }

  /** One `if (field) updatedRates = applyRateUpdate(...)` step: a missing or zero field is skipped. */
  function MergeField(rates: Rates, base: Currency, quote: Currency, field: Option<real>, source: Source): Rates {
    if field.Some? && field.value != 0.0 then ApplyRateUpdate(rates, base, quote, field.value, source) else rates
  }

  /** The table `parseAndApplyFetchedRates` returns. */
  function MergedRates(fetchedData: FetchedCloudRates, current: Rates): Rates {
    var r1 := MergeField(current, USD, VES, UsdVes(fetchedData), BCV);
    var r2 := MergeField(r1, EUR, VES, EurVes(fetchedData), BCV);
    var r3 := MergeField(r2, USD, COP, UsdCop(fetchedData), BANREP);
    MergeField(r3, EUR, USD, EurUsd(fetchedData), BCE)
  }

  /** `parseAndApplyFetchedRates`, reassigning `updatedRates` field by field. */
  method ParseAndApplyFetchedRates(fetchedData: FetchedCloudRates, currentOfficialRates: Rates) returns (updatedRates: Rates)
    ensures updatedRates == MergedRates(fetchedData, currentOfficialRates)
  {
    updatedRates := currentOfficialRates;
    if fetchedData.bcv.Some? {
      var bcv := fetchedData.bcv.value;
      if bcv.usdves.Some? && bcv.usdves.value != 0.0 {
        updatedRates := ApplyRateUpdate(updatedRates, USD, VES, bcv.usdves.value, BCV);
      }
      assert updatedRates == MergeField(currentOfficialRates, USD, VES, UsdVes(fetchedData), BCV);
      if bcv.eurves.Some? && bcv.eurves.value != 0.0 {
        updatedRates := ApplyRateUpdate(updatedRates, EUR, VES, bcv.eurves.value, BCV);
      }
    }
    assert updatedRates == MergeField(MergeField(currentOfficialRates, USD, VES, UsdVes(fetchedData), BCV),
                                      EUR, VES, EurVes(fetchedData), BCV);
    ghost var afterBcv := updatedRates;
    if fetchedData.banRep.Some? {
      var banRep := fetchedData.banRep.value;
      if banRep.usdcop.Some? && banRep.usdcop.value != 0.0 {
        updatedRates := ApplyRateUpdate(updatedRates, USD, COP, banRep.usdcop.value, BANREP);
      }
    }
    assert updatedRates == MergeField(afterBcv, USD, COP, UsdCop(fetchedData), BANREP);
    ghost var afterBanRep := updatedRates;
    if fetchedData.bce.Some? {
      var bce := fetchedData.bce.value;
      if bce.eurusd.Some? && bce.eurusd.value != 0.0 {
        updatedRates := ApplyRateUpdate(updatedRates, EUR, USD, bce.eurusd.value, BCE);
      }
    }
    assert updatedRates == MergeField(afterBanRep, EUR, USD, EurUsd(fetchedData), BCE);
  }

  /**
   * What merging does to one fetched key: a present, positive field replaces the entry
   * with a direct official one; anything else leaves the key exactly as it was.
   */
  predicate MergedKey(updated: Rates, current: Rates, key: string, field: Option<real>, source: Source) {
    if field.Some? && field.value > 0.0 then
      key in updated && updated[key] == RateEntry(field.value, source, OficialKind, Some(true))
    else
      (key in updated <==> key in current) && (key in current ==> updated[key] == current[key])
  }

  /** Keys other than `key` are as they were. */
  ghost predicate SameOutside(updated: Rates, current: Rates, key: set<string>) {
    forall k :: k !in key ==> (k in updated <==> k in current) && (k in current ==> updated[k] == current[k])
  }

  /** One merge step with a base that is the higher-ranked currency touches only its own key. */
  lemma MergeFieldSpec(rates: Rates, base: Currency, quote: Currency, field: Option<real>, source: Source)
    requires Rank(base) > Rank(quote) && source in {BCV, BANREP, BCE}
    ensures MergedKey(MergeField(rates, base, quote, field, source), rates, PairKey(base, quote), field, source)
    ensures SameOutside(MergeField(rates, base, quote, field, source), rates, {PairKey(base, quote)})
  {
  }

  /**
   * Merging fetched rates writes only USD_VES, EUR_VES, USD_COP and EUR_USD, each exactly
   * when its payload field is present and positive; every other key is left as it was.
   */
  lemma {:induction false} MergedRatesSpec(fetchedData: FetchedCloudRates, current: Rates)
    ensures var updated := MergedRates(fetchedData, current);
      && SameOutside(updated, current, {"USD_VES", "EUR_VES", "USD_COP", "EUR_USD"})
      && MergedKey(updated, current, "USD_VES", UsdVes(fetchedData), BCV)
      && MergedKey(updated, current, "EUR_VES", EurVes(fetchedData), BCV)
      && MergedKey(updated, current, "USD_COP", UsdCop(fetchedData), BANREP)
      && MergedKey(updated, current, "EUR_USD", EurUsd(fetchedData), BCE)
  {
    PairKeyLiterals();
    var r1 := MergeField(current, USD, VES, UsdVes(fetchedData), BCV);
    var r2 := MergeField(r1, EUR, VES, EurVes(fetchedData), BCV);
    var r3 := MergeField(r2, USD, COP, UsdCop(fetchedData), BANREP);
    var r4 := MergeField(r3, EUR, USD, EurUsd(fetchedData), BCE);
    MergeFieldSpec(current, USD, VES, UsdVes(fetchedData), BCV);
    MergeFieldSpec(r1, EUR, VES, EurVes(fetchedData), BCV);
    MergeFieldSpec(r2, USD, COP, UsdCop(fetchedData), BANREP);
    MergeFieldSpec(r3, EUR, USD, EurUsd(fetchedData), BCE);
  }

  // ---------------------------------------------------------------------------------------
  // Display

  /** `ConversionRateInfo`. */
  datatype RateDisplayInfo = RateDisplayInfo(pair: string, value: real, source: Source, isDirect: bool)

  /** `getRateDisplayInfo`; `None` is `null`. */
  function GetRateDisplayInfo(inputCurrency: Currency, outputCurrency: Currency, allRates: Rates, rateMatrix: Matrix)
    : (r: Option<RateDisplayInfo>)
    ensures r.Some? && inputCurrency != outputCurrency ==>
      r.value.pair == Code(HigherRanked(inputCurrency, outputCurrency)) + "/" + Code(LowerRanked(inputCurrency, outputCurrency))
  {
    if inputCurrency == outputCurrency then
      Some(RateDisplayInfo(Code(inputCurrency) + "/" + Code(inputCurrency), 1.0, System, true))
    else
      var orderedKey := PairKey(inputCurrency, outputCurrency);
      var higherRanked := HigherRanked(inputCurrency, outputCurrency);
      var lowerRanked := LowerRanked(inputCurrency, outputCurrency);
      var displayPairString := Code(higherRanked) + "/" + Code(lowerRanked);
      if orderedKey in allRates then
        var e := allRates[orderedKey];
        Some(RateDisplayInfo(displayPairString, e.value, e.source, e.isDirect.GetOr(true)))
      else if inputCurrency in rateMatrix && outputCurrency in rateMatrix[inputCurrency]
        && rateMatrix[inputCurrency][outputCurrency].value != 0.0
        && rateMatrix[inputCurrency][outputCurrency].source != NoDisponible
      then
        var matrixEntry := rateMatrix[inputCurrency][outputCurrency];
        var displayValueForPair := if higherRanked == inputCurrency then matrixEntry.value else 1.0 / matrixEntry.value;
        var validSource := match matrixEntry.source
          case From(s) => s
          case NoDisponible => Derived;
        Some(RateDisplayInfo(displayPairString, displayValueForPair, validSource, false))
      else None
  }

  /** The same currency on both sides is shown as 1, System, direct. */
  lemma DisplaySameCurrency(c: Currency, allRates: Rates, rateMatrix: Matrix)
    ensures GetRateDisplayInfo(c, c, allRates, rateMatrix) == Some(RateDisplayInfo(Code(c) + "/" + Code(c), 1.0, System, true))
  {
  }

  /** A stored entry for the pair is shown as stored: its value is "1 Higher = value Lower". */
  lemma DisplayDirectEntry(inputCurrency: Currency, outputCurrency: Currency, allRates: Rates, rateMatrix: Matrix)
    requires inputCurrency != outputCurrency && PairKey(inputCurrency, outputCurrency) in allRates
    ensures var e := allRates[PairKey(inputCurrency, outputCurrency)];
      GetRateDisplayInfo(inputCurrency, outputCurrency, allRates, rateMatrix) ==
        Some(RateDisplayInfo(Code(HigherRanked(inputCurrency, outputCurrency)) + "/" + Code(LowerRanked(inputCurrency, outputCurrency)),
                             e.value, e.source, e.isDirect.GetOr(true)))
  {
  }

  /**
   * Over the matrix of the same active rates, a pair with no stored entry is shown exactly
   * when its cell is available, with the higher -> lower cell's value, not direct, whichever
   * way round the currencies are given.
   */
  lemma {:induction false} DisplayFromMatrix(inputCurrency: Currency, outputCurrency: Currency, active: Rates, official: Rates, rateMatrix: Matrix)
    requires IsMatrixOf(rateMatrix, active, official)
    requires inputCurrency != outputCurrency && PairKey(inputCurrency, outputCurrency) !in active
    ensures var r := GetRateDisplayInfo(inputCurrency, outputCurrency, active, rateMatrix);
      var h, l := HigherRanked(inputCurrency, outputCurrency), LowerRanked(inputCurrency, outputCurrency);
      && (r.Some? <==> MatrixCell(active, official, h, l).source != NoDisponible)
      && (r.Some? ==> r.value.value == MatrixCell(active, official, h, l).value && !r.value.isDirect
                      && From(r.value.source) == MatrixCell(active, official, h, l).source)
  {
    var h := HigherRanked(inputCurrency, outputCurrency);
    var c := MatrixCell(active, official, inputCurrency, outputCurrency);
    var d := MatrixCell(active, official, outputCurrency, inputCurrency);
    assert rateMatrix[inputCurrency][outputCurrency] == c;
    DisplayMatrixBranch(inputCurrency, outputCurrency, active, rateMatrix, c);
    MatrixCellSign(active, official, inputCurrency, outputCurrency);
    MatrixReciprocal(active, official, inputCurrency, outputCurrency);
    assert ReciprocalCells(c, d);
    if h != inputCurrency && c.source != NoDisponible {
      InverseOfReciprocal(c.value, d.value);
    }
  }

  /** The matrix branch of `getRateDisplayInfo`, for a given matrix entry. */
  lemma DisplayMatrixBranch(inputCurrency: Currency, outputCurrency: Currency, allRates: Rates, rateMatrix: Matrix, c: Cell)
    requires inputCurrency != outputCurrency && PairKey(inputCurrency, outputCurrency) !in allRates
    requires inputCurrency in rateMatrix && outputCurrency in rateMatrix[inputCurrency]
    requires rateMatrix[inputCurrency][outputCurrency] == c
    ensures var r := GetRateDisplayInfo(inputCurrency, outputCurrency, allRates, rateMatrix);
      && (r.Some? <==> c.value != 0.0 && c.source != NoDisponible)
      && (r.Some? ==>
           && r.value.value == (if HigherRanked(inputCurrency, outputCurrency) == inputCurrency then c.value else 1.0 / c.value)
           && !r.value.isDirect && From(r.value.source) == c.source)
  {
  }

  /** The reciprocal of `a` is the `b` with `a * b == 1`. */
  lemma InverseOfReciprocal(a: real, b: real)
    requires a * b == 1.0
    ensures a != 0.0 && 1.0 / a == b
  {
    assert a != 0.0;
    assert (1.0 / a) * (a * b) == b;
  }

  /** The display is the same whichever of the two currencies is the input. */
  lemma {:induction false} DisplaySymmetric(a: Currency, b: Currency, active: Rates, official: Rates, rateMatrix: Matrix)
    requires IsMatrixOf(rateMatrix, active, official)
    ensures GetRateDisplayInfo(a, b, active, rateMatrix).Some? <==> GetRateDisplayInfo(b, a, active, rateMatrix).Some?
    ensures a != b && GetRateDisplayInfo(a, b, active, rateMatrix).Some? ==>
      GetRateDisplayInfo(a, b, active, rateMatrix) == GetRateDisplayInfo(b, a, active, rateMatrix)
  {
    if a != b {
      assert PairKey(a, b) == PairKey(b, a);
      assert HigherRanked(a, b) == HigherRanked(b, a) && LowerRanked(a, b) == LowerRanked(b, a);
      if PairKey(a, b) !in active {
        DisplayFromMatrix(a, b, active, official, rateMatrix);
        DisplayFromMatrix(b, a, active, official, rateMatrix);
      }
    }
  }
}
