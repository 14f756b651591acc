# Country currency service — a Dafny model of its database layer and error mapping

The service fetches a list of countries and a table of USD exchange rates,
joins them by the first currency each country lists, estimates each country's
GDP, and keeps the result in a MySQL table `countries` (one row per country
name) next to a one-row table `app_status`.  HTTP routes list, fetch and delete
countries and read the status; every failure is an `AppError` rendered as a
status code and a JSON body.

This project models:

- `src/db.rs` — the refresh transaction (`refresh_data`), the listing with
  filters and sort keys, lookup and delete by name, and the status read, as a
  class `Db.Database` holding the table (its rows in primary-key order), the
  next auto-increment id, and the status row (which may be missing).  Writes
  are methods; reads are functions over the object.  The per-country
  enrichment (`Enrichment`), the row operations the SQL performs (`Table`) and
  the `ORDER BY` semantics (`Ordering`) are pure modules.
- `src/error.rs` — `AppError`, `status_code` and `error_response` (`Errors`).
- `src/models.rs` — the datatypes (`Models`).

Inputs the program takes from its environment are parameters here: the random
GDP multipliers (one per input country, each in [1000, 2000]), the batch
timestamp, and the failures the database may report (`failure` for a read or
the delete; `RefreshFault` naming the step of the refresh transaction that
fails).

Main results:

- Refresh is all-or-nothing: `RefreshData` either fails with `DatabaseError`
  and leaves the rows and the status as they were, or the table becomes
  `ApplyBatch` of the old table.  `BatchLastOccurrenceWins` and
  `BatchLeavesOtherNames` together say what every name maps to afterwards:
  the last input entry with that name (all columns, the batch timestamp, the
  old id if the row existed), or the old row for a name not in the input.
- The status counts input entries, duplicates included, and carries the batch
  timestamp.  `UPDATE app_status ... WHERE id = 1` is not an error when the row
  is missing: the stored status then stays missing while the returned one still
  carries the count.
- The top rows are read from the whole table after the upserts: at most 5,
  all with a GDP, non-increasing, and either all rows with a GDP or none left
  out above the last one returned (`TopByGdp`).
- GDP: `population * m / rate` for a known currency, within
  `[population * 1000 / rate, population * 2000 / rate]` for a non-negative
  population; exactly 0 with no currency; absent for an unknown code.
- Errors: the status code identifies its group of variants; storage, image and
  internal failures render one fixed body whatever they wrap; a missing status
  row answers 500, not 404.

## Model

| member | source | states |
|---|---|---|
| `Errors.StatusCode` | src/error.rs:33-42 | 404 exactly for NotFound, 400 exactly for ValidationError, 503 exactly for ApiError, 500 exactly for DatabaseError, Internal and ImageError |
| `Errors.ErrorResponse` | src/error.rs:44-81 | the response status is the variant's status code; the body is an object with a string "error" member and only "error"/"details" keys; "details" appears exactly for validation and upstream failures; NotFound's body is `{"error": message}` verbatim |
| `Errors.HiddenDetailDoesNotLeak` | src/error.rs:58-78 | two DatabaseError (or Internal, or ImageError) values render identically whatever they wrap, with status 500 and the fixed "Internal server error" / "Image generation failed" body |
| `Errors.ExposedDetailIsVerbatim` | src/error.rs:46-53 | NotFound and ValidationError bodies carry their detail: different detail gives a different body under the same status |
| `Errors.ApiErrorNamesTheApi` | src/error.rs:54-57 | an upstream failure's body has the fixed error "External data source unavailable" and details that begin with "Could not fetch data from " followed by the API name |
| `Enrichment.FirstCurrencyCode` | src/db.rs:24-29 | a code is present exactly when the currency list is present and non-empty, and it is the first entry's code |
| `Enrichment.Enrich` | src/db.rs:31-48 | the code is the first listed one; the rate is present exactly when the code is present and in the rate table, and is the looked-up rate; GDP is present exactly when there is a rate or no code at all |
| `Enrichment.KnownCurrencyGdp` | src/db.rs:33-38 | a known code stores its rate and GDP = population * multiplier / rate |
| `Enrichment.GdpWithinBounds` | src/db.rs:34-38 | for population >= 0 and a multiplier in [1000, 2000], GDP lies in [population * 1000 / rate, population * 2000 / rate] |
| `Enrichment.NoCurrencyMeansZeroGdp` | src/db.rs:44-47 | a missing or empty currency list stores no code, no rate and GDP exactly 0 |
| `Enrichment.UnknownCurrencyMeansNoGdp` | src/db.rs:39-42 | a code missing from the rate table is stored, with rate and GDP absent |
| `Enrichment.TestlandExample` | src/db.rs:32-38 | population 1000000 with rate 2.0 stores rate 2.0 and a GDP within [5e8, 1e9] |
| `Ordering.ParseSort` | src/db.rs:143-152 | a recognised sort value is the spelling of the key it yields |
| `Ordering.ParseSortRoundTrip` | src/db.rs:144-151 | each of the six keys is recognised under its own spelling and under no other |
| `Ordering.PrecedesTransitive` | src/db.rs:145-150 | each of the six orderings is transitive (NULL GDP lowest, names by character code) |
| `Ordering.SortBy` | src/db.rs:154-156 | the listing is ordered by the key and is a permutation of its input |
| `Table.IndexOf` | src/db.rs:167 | the position found holds the name and no earlier row does; no position means no row has the name |
| `Table.Find` | src/db.rs:167 | a found row is in the table and has the name; nothing is found exactly when no row has the name |
| `Table.Upsert` | src/db.rs:52-80 | keeps names unique and rows in id order; a new name is appended under the next id; an existing name keeps its id and takes every other column from the new values; every other name keeps its row |
| `Table.Without` | src/db.rs:181-183 | afterwards no row has the name, every other name keeps its row, names stay unique and in id order, and the row count drops by exactly one if the name was present and is unchanged otherwise |
| `Table.Where` | src/db.rs:125-141 | the result holds exactly the rows accepted by the filter, each as often as in the table, in table (id) order |
| `Table.RankedByGdp` | src/db.rs:100-102 | the rows with a GDP, each exactly as often as in the table (as a multiset), ordered by GDP descending |
| `Table.TopByGdp` | src/db.rs:96-107 | at most `limit` rows, a sub-multiset of the table (no row more often than it is stored), all with a GDP, non-increasing in GDP; fewer than `limit` means every row with a GDP is included, otherwise no excluded row with a GDP exceeds the last one returned |
| `Table.ApplyBatch` | src/db.rs:21-81 | the batch of upserts keeps names unique and rows in id order |
| `Table.BatchLeavesOtherNames` | src/db.rs:21-81 | a name not in the input keeps exactly its old row, or stays absent |
| `Table.BatchLastOccurrenceWins` | src/db.rs:21-81 | a name in the input has exactly one row, equal in every column but id to its last input entry, carrying the batch timestamp, and keeping its id if it existed before |
| `Table.StoredGdpWithinBounds` | src/db.rs:25-38 | after the batch a country with a known currency stores that rate and a GDP within [population * 1000 / rate, population * 2000 / rate] |
| `Db.Database.RefreshData` | src/db.rs:11-118 | fails exactly when the injected fault is reached, then with DatabaseError and nothing changed; otherwise the table is the batch upserted in order, the returned status counts all input entries with the batch timestamp, the stored status equals it if the row exists, and the top rows are read from the new table |
| `Db.Database.GetAllCountries` | src/db.rs:121-160 | exactly the rows matching region AND currency (each only when given); ordered by a recognised key and a permutation of the matches; with no key or an unrecognised one, the matches in table order; a database failure is a DatabaseError |
| `Db.Database.GetCountryByName` | src/db.rs:163-174 | the row with exactly that name, or NotFound("Country '<name>' not found") when no row has it; a database failure is a DatabaseError |
| `Db.Database.DeleteCountryByName` | src/db.rs:177-190 | an absent name gives NotFound with the table unchanged; a present one removes exactly that row; a database failure changes nothing |
| `Db.Database.GetAppStatus` | src/db.rs:193-201 | the status row when it exists; a missing row is DatabaseError(RowNotFound), never NotFound |
| `Db.UnrecognisedSortIsIgnored` | src/db.rs:151-156 | a sort value outside the six keys gives the same answer as no sort value |
| `Db.MissingStatusIsServerError` | src/db.rs:193-200 | a missing status row renders as 500 with the generic "Internal server error" body |
| `Db.UnknownCountryResponse` | src/db.rs:167-171 | fetching an absent "Nope" renders as 404 with `{"error": "Country 'Nope' not found"}` |

## Left out

- `src/external.rs`, `src/routes.rs`, `src/image.rs`, `src/main.rs`, `src/config.rs`: network clients, route wiring, the concurrent fetch of both sources, image rendering, startup and configuration are not part of this model. Their errors enter only as `AppError` values. The summary image is generated after the refresh commits (src/routes.rs:56-65), so an image failure does not undo a refresh; the model has no step after the commit.
- Randomness: the GDP multiplier is an input sequence, one value per input country, each in [1000, 2000]; the source draws one only for a known currency.
- Floating point and `Decimal`: rates, multipliers and GDP are exact `real`s; `f64` rounding, the `f64`-to-`DECIMAL` conversion and its precision are not modelled.
- Time: the batch timestamp is an input, already truncated to tenths of a second (`round_subsecs(1)`).
- Enrichment.Enrich: requires every rate to be positive; a zero or negative rate in the source would give an infinite or negative `f64` GDP, which the model does not represent.
- Db.Database.RefreshData: `total_countries` is an unbounded integer; the source's `i32` counter would overflow past 2^31 - 1 input entries.
- Table.Upsert: the id counter advances only when a new name is inserted, and Db.Database.RefreshData hands it back on rollback; InnoDB also uses up an auto-increment value when `INSERT ... ON DUPLICATE KEY UPDATE` updates an existing row, and never returns values a rolled-back transaction used, so after such refreshes MySQL gives later new rows larger `id` values than the model does (table contents and row order are the same).
- Models: population (`i64`) and id (`i32`) are unbounded integers; auto-increment exhaustion is not modelled.
- MySQL collation: names, regions and currency codes compare by exact character equality and names sort by character code; MySQL's default collation compares case-insensitively, which also governs the unique key on `name`.
- MySQL ordering details: a NULL GDP sorts below every value, as in MySQL; the order among rows with equal sort values is whatever the model's insertion sort produces, where MySQL leaves it unspecified.
- Transactions: only one refresh at a time; isolation between concurrent refreshes, and between a refresh and concurrent reads or deletes, is not modelled.
- Logging inside `error_response` is not modelled; the text of wrapped library errors is kept as a string.
