/**
 * The `countries` table as the sequence of its rows in primary-key order,
 * with the row operations the SQL in src/db.rs performs on it: lookup by
 * name, the `INSERT ... ON DUPLICATE KEY UPDATE` upsert, delete by name,
 * the filters of `GET /countries` and the top-by-GDP read.
 */
module Table {
  import opened Wrappers
  import opened Models
  import opened Ordering
  import opened Enrichment

  /** `name` is a unique key. */
  predicate UniqueNames(rows: seq<Country>)
  {
    forall i, j :: 0 <= i < j < |rows| ==> rows[i].name != rows[j].name
  }

  /** Rows are kept in ascending auto-increment order, below the next id to hand out. */
  predicate StorageOrder(rows: seq<Country>, nextId: nat)
  {
    && (forall i, j :: 0 <= i < j < |rows| ==> rows[i].id < rows[j].id)
    && (forall i :: 0 <= i < |rows| ==> rows[i].id < nextId)
  }

  predicate WellFormed(rows: seq<Country>, nextId: nat)
  {
    UniqueNames(rows) && StorageOrder(rows, nextId)
  }

  /** The position of the first row named `name`. */
  function IndexOf(rows: seq<Country>, name: string): (k: Option<nat>)
    ensures k.Some? ==> k.value < |rows| && rows[k.value].name == name
    ensures k.Some? ==> forall i :: 0 <= i < k.value ==> rows[i].name != name
    ensures k.None? <==> forall i :: 0 <= i < |rows| ==> rows[i].name != name
  {
    if rows == [] then None
    else if rows[0].name == name then Some(0)
    else
      match IndexOf(rows[1..], name)
      case Some(k) => Some(k + 1)
      case None => None
  }

  /** `WHERE name = ?`: the row with that name, if any. */
  function Find(rows: seq<Country>, name: string): (r: Option<Country>)
    ensures r.Some? ==> r.value in rows && r.value.name == name
    ensures r.None? <==> forall x :: x in rows ==> x.name != name
  {
    match IndexOf(rows, name)
    case Some(k) => Some(rows[k])
    case None => None
  }

  /** Under a unique name, the row found is the one row that carries it. */
  lemma FindUnique(rows: seq<Country>, x: Country)
    requires UniqueNames(rows) && x in rows
    ensures Find(rows, x.name) == Some(x)
  {
  }

  /** Two tables agree on a name when it finds the same row in both (or none in either). */
  lemma FindByMembership(a: seq<Country>, b: seq<Country>, name: string)
    requires UniqueNames(a) && UniqueNames(b)
    requires forall x: Country :: x.name == name ==> (x in a <==> x in b)
    ensures Find(a, name) == Find(b, name)
  {
  }

  /**
   * `INSERT ... ON DUPLICATE KEY UPDATE`: a new name is appended under the
   * next id; an existing one keeps its position and id and takes every other
   * column from `row`.  No other name is affected.
   */
  function Upsert(rows: seq<Country>, nextId: nat, row: Country): (r: (seq<Country>, nat))
    requires WellFormed(rows, nextId)
    ensures WellFormed(r.0, r.1)
    ensures Find(rows, row.name).None? ==>
      Find(r.0, row.name) == Some(row.(id := nextId)) && |r.0| == |rows| + 1 && r.1 == nextId + 1
    ensures Find(rows, row.name).Some? ==>
      Find(r.0, row.name) == Some(row.(id := Find(rows, row.name).value.id))
      && |r.0| == |rows| && r.1 == nextId
    ensures forall name :: name != row.name ==> Find(r.0, name) == Find(rows, name)
  {
    match IndexOf(rows, row.name)
    case Some(k) =>
      var updated := rows[k := row.(id := rows[k].id)];
      assert forall x: Country :: x.name != row.name ==> (x in updated <==> x in rows) by {
        forall x: Country | x.name != row.name ensures x in updated <==> x in rows {
          if x in rows {
            var j :| 0 <= j < |rows| && rows[j] == x;
            assert updated[j] == x;
          }
        }
      }
      FindUnique(updated, updated[k]);
      forall name | name != row.name ensures Find(updated, name) == Find(rows, name) {
        FindByMembership(updated, rows, name);
      }
      (updated, nextId)
    case None =>
      var appended := rows + [row.(id := nextId)];
      FindUnique(appended, appended[|rows|]);
      forall name | name != row.name ensures Find(appended, name) == Find(rows, name) {
        FindByMembership(appended, rows, name);
      }
      (appended, nextId + 1)
  }

  /** `DELETE FROM countries WHERE name = ?`. */
  function Without(rows: seq<Country>, name: string): (r: seq<Country>)
    requires UniqueNames(rows)
    ensures UniqueNames(r)
    ensures forall nextId :: StorageOrder(rows, nextId) ==> StorageOrder(r, nextId)
    ensures Find(r, name).None?
    ensures forall other :: other != name ==> Find(r, other) == Find(rows, other)
    ensures |r| == if Find(rows, name).Some? then |rows| - 1 else |rows|
    ensures Find(rows, name).None? ==> r == rows
  {
    match IndexOf(rows, name)
    case Some(k) =>
      var r := rows[..k] + rows[k + 1..];
      assert forall i :: 0 <= i < |r| ==> r[i] == rows[if i < k then i else i + 1];
      forall other | other != name ensures Find(r, other) == Find(rows, other) {
        forall x: Country | x.name == other ensures x in r <==> x in rows {
          if x in rows {
            var j :| 0 <= j < |rows| && rows[j] == x;
            assert r[if j < k then j else j - 1] == x;
          }
        }
        FindByMembership(r, rows, other);
      }
      r
    case None => rows
  }

  /** The rows `keep` accepts, each as often as in `rows`, in table order. */
  function Where(rows: seq<Country>, keep: Country -> bool): (r: seq<Country>)
    ensures forall x :: multiset(r)[x] == if keep(x) then multiset(rows)[x] else 0
    ensures forall x :: x in r <==> x in rows && keep(x)
    ensures |r| <= |rows|
    ensures forall nextId: nat :: StorageOrder(rows, nextId) ==> StorageOrder(r, nextId)
  {
    if rows == [] then []
    else
      var rest := Where(rows[1..], keep);
      var r := if keep(rows[0]) then [rows[0]] + rest else rest;
      WhereCountStep(rows, keep, rest, r);
      WhereOrderStep(rows, keep, rest, r);
      r
  }

  lemma WhereCountStep(rows: seq<Country>, keep: Country -> bool, rest: seq<Country>, r: seq<Country>)
    requires rows != []
    requires forall x :: multiset(rest)[x] == if keep(x) then multiset(rows[1..])[x] else 0
    requires r == if keep(rows[0]) then [rows[0]] + rest else rest
    ensures forall x :: multiset(r)[x] == if keep(x) then multiset(rows)[x] else 0
    ensures forall x :: x in r <==> x in rows && keep(x)
  {
    assert rows == [rows[0]] + rows[1..];
    forall x ensures x in r <==> x in rows && keep(x) {
      assert x in r <==> x in multiset(r);
      assert x in rows <==> x in multiset(rows);
    }
  }

  lemma WhereOrderStep(rows: seq<Country>, keep: Country -> bool, rest: seq<Country>, r: seq<Country>)
    requires rows != []
    requires forall x :: x in rest ==> x in rows[1..]
    requires forall nextId: nat :: StorageOrder(rows[1..], nextId) ==> StorageOrder(rest, nextId)
    requires r == if keep(rows[0]) then [rows[0]] + rest else rest
    ensures forall nextId: nat :: StorageOrder(rows, nextId) ==> StorageOrder(r, nextId)
  {
    forall nextId: nat | StorageOrder(rows, nextId) ensures StorageOrder(r, nextId) {
      assert StorageOrder(rows[1..], nextId);
      forall j | 0 <= j < |rest| ensures rows[0].id < rest[j].id {
        assert rest[j] in rows[1..];
        var i :| 0 <= i < |rows[1..]| && rows[1..][i] == rest[j];
        assert rows[i + 1] == rest[j];
      }
    }
  }

  /** The conjunctive `WHERE region = ? AND currency_code = ?`, each part only when given. */
  predicate MatchesFilter(x: Country, region: Option<string>, currency: Option<string>)
  {
    && (region.Some? ==> x.region == region)
    && (currency.Some? ==> x.currencyCode == currency)
  }

  function Matching(rows: seq<Country>, region: Option<string>, currency: Option<string>): seq<Country>
  {
    Where(rows, (x: Country) => MatchesFilter(x, region, currency))
  }

  const TOP_LIMIT: nat := 5

  /**
   * What `WHERE estimated_gdp IS NOT NULL ORDER BY estimated_gdp DESC LIMIT limit`
   * returns over the whole table: at most `limit` rows, each a row of the table
   * with a GDP and none repeated beyond its multiplicity in the table, in
   * non-increasing GDP order; when fewer are returned every row with a GDP is
   * among them, otherwise no row left out has a larger GDP than the last.
   */
  predicate IsTopByGdp(rows: seq<Country>, limit: nat, top: seq<Country>)
  {
    && |top| <= limit
    && multiset(top) <= multiset(rows)
    && (forall x :: x in top ==> x.estimatedGdp.Some?)
    && (forall i, j :: 0 <= i < j < |top| ==>
          top[i].estimatedGdp.Some? && top[j].estimatedGdp.Some?
          && top[j].estimatedGdp.value <= top[i].estimatedGdp.value)
    && (|top| < limit ==>
          forall x :: x in rows && x.estimatedGdp.Some? ==> x in top)
    && (|top| == limit > 0 ==>
          forall x :: x in rows && x.estimatedGdp.Some? && x !in top ==>
            x.estimatedGdp.Some? && top[limit - 1].estimatedGdp.Some?
            && x.estimatedGdp.value <= top[limit - 1].estimatedGdp.value)
  }

  /** The top-by-GDP read of the table. */
  function TopByGdp(rows: seq<Country>, limit: nat): (top: seq<Country>)
    ensures IsTopByGdp(rows, limit, top)
  {
    var ranked := RankedByGdp(rows);
    var top := if |ranked| <= limit then ranked else ranked[..limit];
    PrefixOfRanking(rows, ranked, limit);
    top
  }

  /** The rows with a GDP, each as often as in the table, largest GDP first. */
  function RankedByGdp(rows: seq<Country>): (ranked: seq<Country>)
    ensures SortedBy(GdpDesc, ranked)
    ensures forall x :: multiset(ranked)[x] == if x.estimatedGdp.Some? then multiset(rows)[x] else 0
  {
    var withGdp := Where(rows, (x: Country) => x.estimatedGdp.Some?);
    SortBy(GdpDesc, withGdp)
  }

  /** Cutting a GDP ranking of `rows` after `limit` rows gives the top-by-GDP read. */
  lemma PrefixOfRanking(rows: seq<Country>, ranked: seq<Country>, limit: nat)
    requires SortedBy(GdpDesc, ranked)
    requires forall x :: multiset(ranked)[x] == if x.estimatedGdp.Some? then multiset(rows)[x] else 0
    ensures IsTopByGdp(rows, limit, if |ranked| <= limit then ranked else ranked[..limit])
  {
    var top := if |ranked| <= limit then ranked else ranked[..limit];
    RankingMembers(rows, ranked);
    PrefixMultiset(rows, ranked, top);
    assert forall x :: x in top ==> x in ranked;
    if |top| == limit > 0 {
      PrefixBound(ranked, limit);
    }
    forall i, j | 0 <= i < j < |top|
      ensures top[i].estimatedGdp.Some? && top[j].estimatedGdp.Some?
      ensures top[j].estimatedGdp.value <= top[i].estimatedGdp.value
    {
      assert top[i] == ranked[i] && top[j] == ranked[j];
      assert ranked[i] in ranked && ranked[j] in ranked;
      assert Precedes(GdpDesc, ranked[i], ranked[j]);
    }
    assert |top| < limit ==> forall x :: x in rows && x.estimatedGdp.Some? ==> x in top;
    assert IsTopByGdp(rows, limit, top);
  }

  lemma RankingMembers(rows: seq<Country>, ranked: seq<Country>)
    requires forall x :: multiset(ranked)[x] == if x.estimatedGdp.Some? then multiset(rows)[x] else 0
    ensures forall x :: x in ranked <==> x in rows && x.estimatedGdp.Some?
  {
    forall x ensures x in ranked <==> x in rows && x.estimatedGdp.Some? {
      assert x in ranked <==> x in multiset(ranked);
      assert x in rows <==> x in multiset(rows);
    }
  }

  lemma PrefixMultiset(rows: seq<Country>, ranked: seq<Country>, top: seq<Country>)
    requires forall x :: multiset(ranked)[x] == if x.estimatedGdp.Some? then multiset(rows)[x] else 0
    requires |top| <= |ranked| && top == ranked[..|top|]
    ensures multiset(top) <= multiset(ranked) <= multiset(rows)
  {
    assert ranked == top + ranked[|top|..];
  }

  /** In a GDP ranking, nothing after position `limit` ranks above the row at `limit - 1`. */
  lemma PrefixBound(ranked: seq<Country>, limit: nat)
    requires SortedBy(GdpDesc, ranked)
    requires forall x :: x in ranked ==> x.estimatedGdp.Some?
    requires 0 < limit <= |ranked|
    ensures forall x :: x in ranked && x !in ranked[..limit] ==>
      x.estimatedGdp.value <= ranked[limit - 1].estimatedGdp.value
  {
    forall x | x in ranked && x !in ranked[..limit]
      ensures x.estimatedGdp.value <= ranked[limit - 1].estimatedGdp.value
    {
      var k :| 0 <= k < |ranked| && ranked[k] == x;
      if k > limit - 1 {
        assert Precedes(GdpDesc, ranked[limit - 1], ranked[k]);
      }
    }
  }

  /** The row refresh writes for one input country: the id is assigned by `Upsert`. */
  function RowFor(country: RestCountry, rates: Rates, multiplier: real, at: Timestamp): Country
    requires PositiveRates(rates)
  {
    var e := Enrich(country, rates, multiplier);
    Country(0, country.name, country.capital, country.region, country.population,
            e.currencyCode, e.exchangeRate, e.estimatedGdp, country.flag, at)
  }

  /** The upserts of one refresh, in input order; `multipliers[i]` is the draw for `countries[i]`. */
  function ApplyBatch(rows: seq<Country>, nextId: nat, countries: seq<RestCountry>, rates: Rates,
                      multipliers: seq<real>, at: Timestamp): (r: (seq<Country>, nat))
    requires WellFormed(rows, nextId) && PositiveRates(rates)
    requires |multipliers| == |countries|
    ensures WellFormed(r.0, r.1)
    decreases |countries|
  {
    if countries == [] then (rows, nextId)
    else
      var u := Upsert(rows, nextId, RowFor(countries[0], rates, multipliers[0], at));
      ApplyBatch(u.0, u.1, countries[1..], rates, multipliers[1..], at)
  }

  /** A name the batch does not mention keeps exactly the row it had (or stays absent). */
  lemma {:induction false} BatchLeavesOtherNames(rows: seq<Country>, nextId: nat,
                                                  countries: seq<RestCountry>, rates: Rates,
                                                  multipliers: seq<real>, at: Timestamp, name: string)
    requires WellFormed(rows, nextId) && PositiveRates(rates)
    requires |multipliers| == |countries|
    requires forall i :: 0 <= i < |countries| ==> countries[i].name != name
    ensures Find(ApplyBatch(rows, nextId, countries, rates, multipliers, at).0, name) == Find(rows, name)
    decreases |countries|
  {
    if countries != [] {
      var u := Upsert(rows, nextId, RowFor(countries[0], rates, multipliers[0], at));
      BatchLeavesOtherNames(u.0, u.1, countries[1..], rates, multipliers[1..], at, name);
    }
  }

  /**
   * A name the batch mentions ends with exactly one row, holding every column
   * of its LAST occurrence in the input (and the batch timestamp); a row that
   * existed before keeps its id.
   */
  lemma {:induction false} BatchLastOccurrenceWins(rows: seq<Country>, nextId: nat,
                                                    countries: seq<RestCountry>, rates: Rates,
                                                    multipliers: seq<real>, at: Timestamp, k: nat)
    requires WellFormed(rows, nextId) && PositiveRates(rates)
    requires |multipliers| == |countries|
    requires k < |countries|
    requires forall j :: k < j < |countries| ==> countries[j].name != countries[k].name
    ensures var found := Find(ApplyBatch(rows, nextId, countries, rates, multipliers, at).0, countries[k].name);
      && found.Some?
      && found.value == RowFor(countries[k], rates, multipliers[k], at).(id := found.value.id)
      && found.value.lastRefreshedAt == at
      && (Find(rows, countries[k].name).Some? ==> found.value.id == Find(rows, countries[k].name).value.id)
    decreases |countries|
  {
    var name := countries[k].name;
    var u := Upsert(rows, nextId, RowFor(countries[0], rates, multipliers[0], at));
    if k == 0 {
      BatchLeavesOtherNames(u.0, u.1, countries[1..], rates, multipliers[1..], at, name);
    } else {
      BatchLastOccurrenceWins(u.0, u.1, countries[1..], rates, multipliers[1..], at, k - 1);
    }
  }

  /**
   * After the batch, the row of a country whose first currency has a rate
   * stores that rate, and its GDP lies between population * 1000 / rate and
   * population * 2000 / rate.
   */
  lemma StoredGdpWithinBounds(rows: seq<Country>, nextId: nat, countries: seq<RestCountry>, rates: Rates,
                              multipliers: seq<real>, at: Timestamp, k: nat)
    requires WellFormed(rows, nextId) && PositiveRates(rates)
    requires |multipliers| == |countries|
    requires k < |countries| && ValidMultiplier(multipliers[k])
    requires forall j :: k < j < |countries| ==> countries[j].name != countries[k].name
    requires countries[k].population >= 0
    requires FirstCurrencyCode(countries[k].currencies).Some?
    requires FirstCurrencyCode(countries[k].currencies).value in rates
    ensures var found := Find(ApplyBatch(rows, nextId, countries, rates, multipliers, at).0, countries[k].name);
      var rate := rates[FirstCurrencyCode(countries[k].currencies).value];
      && found.Some?
      && found.value.exchangeRate == Some(rate)
      && found.value.estimatedGdp.Some?
      && WithinEstimateRange(found.value.estimatedGdp.value, countries[k].population, rate)
  {
    BatchLastOccurrenceWins(rows, nextId, countries, rates, multipliers, at, k);
    GdpWithinBounds(countries[k], rates, multipliers[k]);
    var found := Find(ApplyBatch(rows, nextId, countries, rates, multipliers, at).0, countries[k].name);
    var e := Enrich(countries[k], rates, multipliers[k]);
    assert found.value.exchangeRate == e.exchangeRate && found.value.estimatedGdp == e.estimatedGdp;
  }
}
