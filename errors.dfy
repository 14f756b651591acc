/**
 * The service's error type and its HTTP rendering (src/error.rs): every
 * variant has a status code, and `ErrorResponse` builds the JSON body a
 * client sees.  Server-side logging inside the rendering is not modelled.
 */
module Errors {

  /** The `sqlx::Error` cases the service distinguishes. */
  datatype SqlError = RowNotFound | Backend(detail: string)

  /** `AppError`; the wrapped library errors are kept as their display text. */
  datatype AppError =
    | NotFound(message: string)
    | ValidationError(details: map<string, string>)
    | ApiError(source: string, apiName: string)
    | DatabaseError(cause: SqlError)
    | ImageError(message: string)
    | Internal(reason: string)

  const BAD_REQUEST := 400
  const NOT_FOUND := 404
  const INTERNAL_SERVER_ERROR := 500
  const SERVICE_UNAVAILABLE := 503

  /** JSON values as far as the error bodies need them. */
  datatype Json = JString(text: string) | JObject(fields: map<string, Json>)

  datatype HttpResponse = HttpResponse(status: int, body: Json)

  /** The `#[from] sqlx::Error` conversion that `?` applies. */
  function FromSql(e: SqlError): AppError
  {
    DatabaseError(e)
  }

  /** The variants whose client-facing body carries caller- or upstream-supplied text. */
  predicate ExposesDetail(e: AppError)
  {
    e.NotFound? || e.ValidationError? || e.ApiError?
  }

  predicate SameVariant(a: AppError, b: AppError)
  {
    match (a, b)
    case (NotFound(_), NotFound(_)) => true
    case (ValidationError(_), ValidationError(_)) => true
    case (ApiError(_, _), ApiError(_, _)) => true
    case (DatabaseError(_), DatabaseError(_)) => true
    case (ImageError(_), ImageError(_)) => true
    case (Internal(_), Internal(_)) => true
    case _ => false
  }

  /** `status_code`: each variant's HTTP status; each code identifies its group of variants. */
  function StatusCode(e: AppError): (code: int)
    ensures code == NOT_FOUND <==> e.NotFound?
    ensures code == BAD_REQUEST <==> e.ValidationError?
    ensures code == SERVICE_UNAVAILABLE <==> e.ApiError?
    ensures code == INTERNAL_SERVER_ERROR <==> (e.DatabaseError? || e.Internal? || e.ImageError?)
  {
    match e
    case NotFound(_) => NOT_FOUND
    case ValidationError(_) => BAD_REQUEST
    case ApiError(_, _) => SERVICE_UNAVAILABLE
    case DatabaseError(_) => INTERNAL_SERVER_ERROR
    case Internal(_) => INTERNAL_SERVER_ERROR
    case ImageError(_) => INTERNAL_SERVER_ERROR
  }

  function ErrorBody(text: string): Json
  {
    JObject(map["error" := JString(text)])
  }

  function DetailsObject(details: map<string, string>): Json
  {
    JObject(map k | k in details :: JString(details[k]))
  }

  const API_DETAILS_PREFIX := "Could not fetch data from "

  /** The `details` text of an upstream failure: names the API, then its cause. */
  function ApiDetails(apiName: string, source: string): string
  {
    API_DETAILS_PREFIX + apiName + ": " + source
  }

  /**
   * `error_response`: the status is always the variant's `StatusCode`; the body
   * is an object whose "error" member is a string, and which has a "details"
   * member exactly for the validation and upstream failures.
   */
  function ErrorResponse(e: AppError): (r: HttpResponse)
    ensures r.status == StatusCode(e)
    ensures r.body.JObject? && "error" in r.body.fields && r.body.fields["error"].JString?
    ensures "details" in r.body.fields <==> (e.ValidationError? || e.ApiError?)
    ensures r.body.fields.Keys <= {"error", "details"}
    ensures e.NotFound? ==> r.body == ErrorBody(e.message)
  {
    match e
    case NotFound(message) =>
      HttpResponse(StatusCode(e), ErrorBody(message))
    case ValidationError(details) =>
      HttpResponse(StatusCode(e), JObject(map["error" := JString("Validation failed"),
                                              "details" := DetailsObject(details)]))
    case ApiError(source, apiName) =>
      HttpResponse(StatusCode(e), JObject(map["error" := JString("External data source unavailable"),
                                              "details" := JString(ApiDetails(apiName, source))]))
    case DatabaseError(_) =>
      HttpResponse(StatusCode(e), ErrorBody("Internal server error"))
    case ImageError(_) =>
      HttpResponse(StatusCode(e), ErrorBody("Image generation failed"))
    case Internal(_) =>
      HttpResponse(StatusCode(e), ErrorBody("Internal server error"))
  }

  /**
   * Storage, image and internal failures never reach the client: two errors of
   * such a variant render identically whatever they wrap, and the body is the
   * variant's fixed text.
   */
  lemma HiddenDetailDoesNotLeak(a: AppError, b: AppError)
    requires SameVariant(a, b) && !ExposesDetail(a)
    ensures ErrorResponse(a) == ErrorResponse(b)
    ensures ErrorResponse(a).status == INTERNAL_SERVER_ERROR
    ensures ErrorResponse(a).body == ErrorBody(if a.ImageError? then "Image generation failed"
                                               else "Internal server error")
  {
  }

  /**
   * A missing entity and a failed validation expose their detail faithfully:
   * different detail, different body.
   */
  lemma ExposedDetailIsVerbatim(a: AppError, b: AppError)
    requires SameVariant(a, b) && (a.NotFound? || a.ValidationError?) && a != b
    ensures ErrorResponse(a).status == ErrorResponse(b).status
    ensures ErrorResponse(a).body != ErrorResponse(b).body
  {
    match (a, b)
    case (NotFound(m1), NotFound(m2)) =>
      assert ErrorResponse(a).body.fields["error"].text == m1;
    case (ValidationError(d1), ValidationError(d2)) =>
      var o1, o2 := DetailsObject(d1), DetailsObject(d2);
      if d1.Keys == d2.Keys {
        var k :| k in d1 && d1[k] != d2[k];
        assert o1.fields[k] != o2.fields[k];
      } else {
        assert o1.fields.Keys == d1.Keys && o2.fields.Keys == d2.Keys;
      }
  }

  /**
   * An upstream failure answers with the fixed "External data source
   * unavailable" and details that begin with the fixed prefix and then name
   * the API.
   */
  lemma ApiErrorNamesTheApi(source: string, apiName: string)
    ensures var body := ErrorResponse(ApiError(source, apiName)).body;
      && body.fields["error"] == JString("External data source unavailable")
      && body.fields["details"].JString?
      && var d := body.fields["details"].text;
      && |d| >= |API_DETAILS_PREFIX| + |apiName|
      && d[..|API_DETAILS_PREFIX|] == API_DETAILS_PREFIX
      && d[|API_DETAILS_PREFIX|..|API_DETAILS_PREFIX| + |apiName|] == apiName
  {
  }
}
