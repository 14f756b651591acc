/**
 * The records the service reads from its two upstream sources and keeps in
 * its relational store (src/models.rs).  `serde`/`sqlx` derives carry no
 * behaviour and are not modelled.
 */
module Models {
  import opened Wrappers

  /** An instant, already truncated to tenths of a second: the unit is 100 ms. */
  type Timestamp = int

  /** Exchange rates against USD, keyed by currency code. */
  type Rates = map<string, real>

  /** One entry of a country's `currencies` list from the countries API. */
  datatype Currency = Currency(code: string)

  /** A country as the countries API delivers it. */
  datatype RestCountry = RestCountry(
    name: string,
    capital: Option<string>,
    region: Option<string>,
    population: int,
    flag: Option<string>,
    currencies: Option<seq<Currency>>)

  /** A row of the `countries` table; `id` is its auto-increment primary key. */
  datatype Country = Country(
    id: nat,
    name: string,
    capital: Option<string>,
    region: Option<string>,
    population: int,
    currencyCode: Option<string>,
    exchangeRate: Option<real>,
    estimatedGdp: Option<real>,
    flagUrl: Option<string>,
    lastRefreshedAt: Timestamp)

  /** The single row of the `app_status` table. */
  datatype AppStatus = AppStatus(totalCountries: int, lastRefreshedAt: Option<Timestamp>)

  /** The query string of `GET /countries`. */
  datatype CountriesQuery = CountriesQuery(
    region: Option<string>,
    currency: Option<string>,
    sort: Option<string>)
}
