/**
 * The per-country step of `refresh_data` (src/db.rs:24-48): pick the first
 * listed currency, look its rate up, and estimate GDP as
 * population * multiplier / rate.  The random multiplier is an input here.
 */
module Enrichment {
  import opened Wrappers
  import opened Models

  const MIN_MULTIPLIER: real := 1000.0
  const MAX_MULTIPLIER: real := 2000.0

  /** What `gen_range(1000.0..=2000.0)` may return. */
  predicate ValidMultiplier(m: real)
  {
    MIN_MULTIPLIER <= m <= MAX_MULTIPLIER
  }

  /** Every rate can be divided by. */
  predicate PositiveRates(rates: Rates)
  {
    forall code :: code in rates ==> rates[code] > 0.0
  }

  /** `gdp` lies between population * 1000 / rate and population * 2000 / rate. */
  predicate WithinEstimateRange(gdp: real, population: int, rate: real)
    requires rate > 0.0
  {
    population as real * MIN_MULTIPLIER / rate <= gdp <= population as real * MAX_MULTIPLIER / rate
  }

  /** The three derived columns of a stored country. */
  datatype Enriched = Enriched(
    currencyCode: Option<string>,
    exchangeRate: Option<real>,
    estimatedGdp: Option<real>)

  /** The code of the first listed currency, if the list is present and non-empty. */
  function FirstCurrencyCode(currencies: Option<seq<Currency>>): (code: Option<string>)
    ensures code.Some? <==> currencies.Some? && |currencies.value| > 0
    ensures code.Some? ==> code.value == currencies.value[0].code
  {
    match currencies
    case Some(list) => if |list| > 0 then Some(list[0].code) else None
    case None => None
  }

  /**
   * The rate is present exactly when the code is present and known; GDP is
   * present exactly when there is a rate or there is no code at all.
   */
  function Enrich(country: RestCountry, rates: Rates, multiplier: real): (e: Enriched)
    requires PositiveRates(rates)
    ensures e.currencyCode == FirstCurrencyCode(country.currencies)
    ensures e.exchangeRate.Some? <==> e.currencyCode.Some? && e.currencyCode.value in rates
    ensures e.exchangeRate.Some? ==> e.exchangeRate.value == rates[e.currencyCode.value]
    ensures e.estimatedGdp.Some? <==> e.exchangeRate.Some? || e.currencyCode.None?
  {
    var code := FirstCurrencyCode(country.currencies);
    match code
    case Some(c) =>
      if c in rates then
        var rate := rates[c];
        Enriched(code, Some(rate), Some((country.population as real * multiplier) / rate))
      else
        Enriched(code, None, None)
    case None =>
      Enriched(None, None, Some(0.0))
  }

  /** A known currency: the stored rate is the looked-up one and GDP is population * m / rate. */
  lemma KnownCurrencyGdp(country: RestCountry, rates: Rates, multiplier: real)
    requires PositiveRates(rates)
    requires FirstCurrencyCode(country.currencies).Some?
    requires FirstCurrencyCode(country.currencies).value in rates
    ensures var rate := rates[FirstCurrencyCode(country.currencies).value];
      Enrich(country, rates, multiplier)
        == Enriched(FirstCurrencyCode(country.currencies), Some(rate),
                    Some(country.population as real * multiplier / rate))
  {
    var code := FirstCurrencyCode(country.currencies).value;
    var e := Enrich(country, rates, multiplier);
    assert e.estimatedGdp.Some?;
    assert e.estimatedGdp.value == country.population as real * multiplier / rates[code];
  }

  /**
   * For a non-negative population and a multiplier drawn from [1000, 2000],
   * the estimate lies between population * 1000 / rate and population * 2000 / rate.
   */
  lemma GdpWithinBounds(country: RestCountry, rates: Rates, multiplier: real)
    requires PositiveRates(rates) && ValidMultiplier(multiplier)
    requires country.population >= 0
    requires FirstCurrencyCode(country.currencies).Some?
    requires FirstCurrencyCode(country.currencies).value in rates
    ensures var rate := rates[FirstCurrencyCode(country.currencies).value];
      var gdp := Enrich(country, rates, multiplier).estimatedGdp;
      && gdp.Some?
      && WithinEstimateRange(gdp.value, country.population, rate)
  {
  }

  /** No currency list, or an empty one: no code, no rate, and GDP is exactly 0. */
  lemma NoCurrencyMeansZeroGdp(country: RestCountry, rates: Rates, multiplier: real)
    requires PositiveRates(rates)
    requires country.currencies.None? || country.currencies.value == []
    ensures Enrich(country, rates, multiplier) == Enriched(None, None, Some(0.0))
  {
  }

  /** A code the rate table does not know: the code is kept, rate and GDP are absent. */
  lemma UnknownCurrencyMeansNoGdp(country: RestCountry, rates: Rates, multiplier: real)
    requires PositiveRates(rates)
    requires country.currencies.Some? && |country.currencies.value| > 0
    requires country.currencies.value[0].code !in rates
    ensures Enrich(country, rates, multiplier)
         == Enriched(Some(country.currencies.value[0].code), None, None)
  {
  }

  /** One million people, rate 2.0: the estimate lies in [5e8, 1e9]. */
  lemma TestlandExample(multiplier: real)
    requires ValidMultiplier(multiplier)
    ensures var testland := RestCountry("Testland", None, None, 1000000, None, Some([Currency("XTL")]));
      var e := Enrich(testland, map["XTL" := 2.0], multiplier);
      && e.exchangeRate == Some(2.0)
      && e.estimatedGdp.Some?
      && 500000000.0 <= e.estimatedGdp.value <= 1000000000.0
  {
    var testland := RestCountry("Testland", None, None, 1000000, None, Some([Currency("XTL")]));
    GdpWithinBounds(testland, map["XTL" := 2.0], multiplier);
  }
}
