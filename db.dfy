/**
 * The database layer of the service (src/db.rs): the `countries` table and
 * the `app_status` singleton held in one object, the refresh transaction
 * that rewrites them, and the reads and the delete the HTTP routes call.
 *
 * A failure of the database itself is an input: reads and the delete take
 * `failure` (the driver's error text, or None), and the refresh takes the
 * step at which its transaction fails, if any.
 */
module Db {
  import opened Wrappers
  import opened Models
  import opened Errors
  import opened Enrichment
  import opened Ordering
  import opened Table

  /** The step of the refresh transaction at which the database reports an error. */
  datatype RefreshFault =
    | BeginFails(detail: string)
    | UpsertFails(index: nat, detail: string)
    | StatusUpdateFails(detail: string)
    | TopReadFails(detail: string)
    | CommitFails(detail: string)

  /** Whether `fault` is hit by a refresh of `n` countries (an upsert past the end never runs). */
  predicate Aborts(fault: Option<RefreshFault>, n: nat)
  {
    fault.Some? && !(fault.value.UpsertFails? && fault.value.index >= n)
  }

  /** What a successful refresh returns: the new status and the top rows by GDP. */
  datatype RefreshOutcome = RefreshOutcome(status: AppStatus, top: seq<Country>)

  function NotFoundMessage(name: string): string
  {
    "Country '" + name + "' not found"
  }

  /** The `map_err` of `get_country_by_name`: only a missing row becomes NotFound. */
  function LookupError(e: SqlError, name: string): AppError
  {
    match e
    case RowNotFound => NotFound(NotFoundMessage(name))
    case Backend(_) => FromSql(e)
  }

  class Database {
    var rows: seq<Country>
    var nextId: nat
    var status: Option<AppStatus>

    ghost predicate Valid()
      reads this
    {
      WellFormed(rows, nextId)
    }

    /** An empty table; the status row may or may not have been seeded. */
    constructor (initialStatus: Option<AppStatus>)
      ensures Valid()
      ensures rows == [] && nextId == 1 && status == initialStatus
    {
      rows := [];
      nextId := 1;
      status := initialStatus;
    }

    /**
     * `refresh_data`.  On success the table is the input upserted in order,
     * the status row (when it exists) records the number of input entries and
     * the batch timestamp, and the top rows are read from the new table.  On
     * failure the transaction is rolled back: nothing changes.
     */
    method RefreshData(countries: seq<RestCountry>, rates: Rates, multipliers: seq<real>,
                       at: Timestamp, fault: Option<RefreshFault>)
      returns (r: Result<RefreshOutcome, AppError>)
      requires Valid() && PositiveRates(rates)
      requires |multipliers| == |countries|
      requires forall i :: 0 <= i < |multipliers| ==> ValidMultiplier(multipliers[i])
      modifies this
      ensures Valid()
      ensures r.Failure? <==> Aborts(fault, |countries|)
      ensures r.Failure? ==>
        && r.error == DatabaseError(Backend(fault.value.detail))
        && rows == old(rows) && nextId == old(nextId) && status == old(status)
      ensures r.Success? ==>
        && (rows, nextId) == ApplyBatch(old(rows), old(nextId), countries, rates, multipliers, at)
        && r.value.status == AppStatus(|countries|, Some(at))
        && status == (if old(status).Some? then Some(r.value.status) else None)
        && r.value.top == TopByGdp(rows, TOP_LIMIT)
    {
      if fault.Some? && fault.value.BeginFails? {
        return Failure(FromSql(Backend(fault.value.detail)));
      }
      var staged, stagedNextId := rows, nextId;
      var countryCount := 0;
      var i := 0;
      while i < |countries|
        invariant 0 <= i <= |countries|
        invariant countryCount == i
        invariant WellFormed(staged, stagedNextId)
        invariant ApplyBatch(staged, stagedNextId, countries[i..], rates, multipliers[i..], at)
               == ApplyBatch(rows, nextId, countries, rates, multipliers, at)
        invariant !(fault.Some? && fault.value.UpsertFails? && fault.value.index < i)
      {
        countryCount := countryCount + 1;
        if fault.Some? && fault.value.UpsertFails? && fault.value.index == i {
          return Failure(FromSql(Backend(fault.value.detail)));
        }
        var row := RowFor(countries[i], rates, multipliers[i], at);
        assert countries[i..][1..] == countries[i + 1..];
        assert multipliers[i..][1..] == multipliers[i + 1..];
        var u := Upsert(staged, stagedNextId, row);
        staged, stagedNextId := u.0, u.1;
        i := i + 1;
      }
      // `UPDATE app_status ... WHERE id = 1` changes nothing when the row is missing.
      if fault.Some? && fault.value.StatusUpdateFails? {
        return Failure(FromSql(Backend(fault.value.detail)));
      }
      var newStatus := AppStatus(countryCount, Some(at));
      var stagedStatus := if status.Some? then Some(newStatus) else None;
      if fault.Some? && fault.value.TopReadFails? {
        return Failure(FromSql(Backend(fault.value.detail)));
      }
      var top := TopByGdp(staged, TOP_LIMIT);
      if fault.Some? && fault.value.CommitFails? {
        return Failure(FromSql(Backend(fault.value.detail)));
      }
      rows, nextId, status := staged, stagedNextId, stagedStatus;
      r := Success(RefreshOutcome(newStatus, top));
    }

    /**
     * `get_all_countries`: exactly the rows matching the region and currency
     * filters; ordered by a recognised sort key, and otherwise (no key, or
     * one not recognised) in table order.
     */
    function GetAllCountries(query: CountriesQuery, failure: Option<string>)
      : (r: Result<seq<Country>, AppError>)
      reads this
      ensures failure.Some? ==> r == Failure(DatabaseError(Backend(failure.value)))
      ensures failure.None? ==> r.Success?
      ensures r.Success? ==>
        forall x :: x in r.value <==> x in rows && MatchesFilter(x, query.region, query.currency)
      ensures r.Success? ==> multiset(r.value) == multiset(Matching(rows, query.region, query.currency))
      ensures r.Success? && query.sort.Some? && ParseSort(query.sort.value).Some? ==>
        SortedBy(ParseSort(query.sort.value).value, r.value)
      ensures r.Success? && (query.sort.None? || ParseSort(query.sort.value).None?) ==>
        r.value == Matching(rows, query.region, query.currency)
    {
      if failure.Some? then Failure(FromSql(Backend(failure.value)))
      else
        var selected := Matching(rows, query.region, query.currency);
        var key := if query.sort.Some? then ParseSort(query.sort.value) else None;
        match key
        case Some(k) =>
          var sorted := SortBy(k, selected);
          assert forall x :: x in sorted <==> x in multiset(selected);
          Success(sorted)
        case None => Success(selected)
    }

    /** `get_country_by_name`: the row with exactly that name, or NotFound. */
    function GetCountryByName(name: string, failure: Option<string>): (r: Result<Country, AppError>)
      reads this
      ensures failure.Some? ==> r == Failure(DatabaseError(Backend(failure.value)))
      ensures r.Success? ==> r.value in rows && r.value.name == name
      ensures failure.None? && r.Failure? ==>
        r.error == NotFound(NotFoundMessage(name)) && forall x :: x in rows ==> x.name != name
      ensures failure.None? && UniqueNames(rows) ==>
        forall x :: x in rows && x.name == name ==> r == Success(x)
    {
      if failure.Some? then Failure(LookupError(Backend(failure.value), name))
      else
        match Find(rows, name)
        case Some(c) =>
          assert UniqueNames(rows) ==> forall x :: x in rows && x.name == name ==> x == c by {
            if UniqueNames(rows) {
              forall x | x in rows && x.name == name ensures x == c {
                FindUnique(rows, x);
              }
            }
          }
          Success(c)
        case None => Failure(LookupError(RowNotFound, name))
    }

    /**
     * `delete_country_by_name`: removes the one row with that name; when no
     * row is affected it reports NotFound and the table is unchanged.
     */
    method DeleteCountryByName(name: string, failure: Option<string>) returns (r: Result<(), AppError>)
      requires Valid()
      modifies this
      ensures Valid()
      ensures nextId == old(nextId) && status == old(status)
      ensures failure.Some? ==> r == Failure(DatabaseError(Backend(failure.value))) && rows == old(rows)
      ensures failure.None? && Find(old(rows), name).None? ==>
        r == Failure(NotFound(NotFoundMessage(name))) && rows == old(rows)
      ensures failure.None? && Find(old(rows), name).Some? ==>
        r.Success? && rows == Without(old(rows), name) && |rows| == |old(rows)| - 1
    {
      if failure.Some? {
        return Failure(FromSql(Backend(failure.value)));
      }
      var remaining := Without(rows, name);
      var rowsAffected := |rows| - |remaining|;
      if rowsAffected == 0 {
        r := Failure(NotFound(NotFoundMessage(name)));
      } else {
        rows := remaining;
        r := Success(());
      }
    }

    /**
     * `get_app_status`: the singleton row.  Its absence is a `RowNotFound`
     * that `?` turns into a DatabaseError, not a NotFound.
     */
    function GetAppStatus(failure: Option<string>): (r: Result<AppStatus, AppError>)
      reads this
      ensures r.Success? <==> failure.None? && status.Some?
      ensures r.Success? ==> r.value == status.value
      ensures r.Failure? ==> r.error.DatabaseError?
      ensures failure.None? && status.None? ==> r == Failure(DatabaseError(RowNotFound))
    {
      if failure.Some? then Failure(FromSql(Backend(failure.value)))
      else
        match status
        case Some(s) => Success(s)
        case None => Failure(FromSql(RowNotFound))
    }
  }

  /** A `sort` value outside the six keys gives the same answer as no `sort` at all. */
  lemma UnrecognisedSortIsIgnored(db: Database, query: CountriesQuery, sort: string, failure: Option<string>)
    requires ParseSort(sort).None?
    ensures db.GetAllCountries(query.(sort := Some(sort)), failure)
         == db.GetAllCountries(query.(sort := None), failure)
  {
  }

  /** A missing status row is answered with 500 and the generic body, never with 404. */
  lemma MissingStatusIsServerError(db: Database)
    requires db.status.None?
    ensures db.GetAppStatus(None).Failure?
    ensures ErrorResponse(db.GetAppStatus(None).error)
         == HttpResponse(INTERNAL_SERVER_ERROR, ErrorBody("Internal server error"))
  {
  }

  /** `GET /countries/Nope` on a table without that name: 404 and the message naming it. */
  lemma UnknownCountryResponse(db: Database)
    requires forall x :: x in db.rows ==> x.name != "Nope"
    ensures db.GetCountryByName("Nope", None).Failure?
    ensures ErrorResponse(db.GetCountryByName("Nope", None).error)
         == HttpResponse(NOT_FOUND, JObject(map["error" := JString("Country 'Nope' not found")]))
  {
    assert NotFoundMessage("Nope") == "Country 'Nope' not found";
  }
}
