/** `Search.runStable` in ex_api.py (the scene-search endpoint): the input
    parameter checks, the search itself as an input, and the pagination of
    the response. */
module SceneSearch {

  import opened Common

  /** The request parameters the checks read; `None` is a parameter whose
      value is None. */
  datatype Query = Query(
    metadataType: Option<string>,
    maxResults: Option<int>,
    startingNumber: Option<int>,
    sortField: Option<string>,
    sortDirection: Option<string>)

  /** The parameters passed on to the search. */
  datatype Settings = Settings(
    metadataType: Option<string>,
    maxResults: int,
    startingNumber: int,
    sortField: string,
    sortDirection: string)

  /** The failures: an `ApiException('INPUT_PARAMETER_INVALID', ...)`, the
      AttributeError of calling `upper()` on a None sortDirection, and the
      `ApiException('SEARCH_ERROR', ...)` raised when the search fails. */
  datatype SearchError = InvalidParameter(message: string) | NoSortDirection | SearchFailed

  /** The dictionary the endpoint returns. */
  datatype Response<R> = Response(
    numExcluded: int,
    startingNumber: int,
    totalHits: int,
    recordsReturned: nat,
    nextRecord: int,
    results: seq<R>)

  const SORT_FIELDS: seq<string> := ["acquisitionDate", "displayId", "entityId", "modifiedDate"]

  /** The parameter checks and defaults, in the order the code applies them.
      What the checks accept and what they pass on: the limits are always 100
      and 1 and the direction always DESC, whatever was asked for. An invalid
      metadata type is reported before any other parameter is looked at, and
      an invalid sort field before the direction. */
  function Normalise(q: Query): (r: Result<Settings, SearchError>)
    ensures r.Ok? <==>
              && (q.metadataType.None? || q.metadataType.value in ["full", "summary"])
              && (q.sortField.None? || q.sortField.value in SORT_FIELDS)
              && q.sortDirection.Some?
    ensures r.Ok? ==>
              var s := r.value;
              && s.maxResults == 100 && s.startingNumber == 1 && s.sortDirection == "DESC"
              && s.sortField in SORT_FIELDS
              && (q.sortField.None? ==> s.sortField == "acquisitionDate")
              && (q.sortField.Some? ==> s.sortField == q.sortField.value)
              && (q.metadataType == Some("summary") ==> s.metadataType == Some("res_sum"))
              && (q.metadataType != Some("summary") ==> s.metadataType == q.metadataType)
    ensures q.metadataType.Some? && q.metadataType.value !in ["full", "summary"] ==>
              r == Err(InvalidParameter("Invalid metadata type used"))
    ensures (q.metadataType.None? || q.metadataType.value in ["full", "summary"]) &&
            q.sortField.Some? && q.sortField.value !in SORT_FIELDS ==>
              r == Err(InvalidParameter("Invalid sortField used"))
    ensures (q.metadataType.None? || q.metadataType.value in ["full", "summary"]) &&
            (q.sortField.None? || q.sortField.value in SORT_FIELDS) && q.sortDirection.None? ==>
              r == Err(NoSortDirection)
  {
    if q.metadataType.Some? && q.metadataType.value != "full" && q.metadataType.value != "summary" then
      Err(InvalidParameter("Invalid metadata type used"))
    else
      var metadataType := if q.metadataType == Some("summary") then Some("res_sum") else q.metadataType;
      var maxResults := if q.maxResults.Some? && q.maxResults.value != 0 then q.maxResults.value else 100;
      var startingNumber := if q.startingNumber.Some? && q.startingNumber.value != 0 then q.startingNumber.value else 1;
      if q.sortField.Some? && q.sortField.value !in SORT_FIELDS then
        Err(InvalidParameter("Invalid sortField used"))
      else
        var sortField := if q.sortField.None? then "acquisitionDate" else q.sortField.value;
        if q.sortDirection.None? then Err(NoSortDirection)
        else
          // Both numbers are non-None here, so both are overwritten.
          Ok(Settings(metadataType, 100, 1, sortField, "DESC"))
  }

  /** The record numbers of the response: a page with no results restarts
      at 0, otherwise the next record is the one after the page, stopping at
      the total. */
  function Paginate(startingNumber: int, returned: nat, totalHits: int): (r: (int, int))
    ensures returned == 0 ==> r == (0, 0)
    ensures returned > 0 ==> r.0 == startingNumber
    ensures returned > 0 ==> r.1 <= startingNumber + returned && r.1 <= totalHits
    ensures returned > 0 ==> r.1 == startingNumber + returned || r.1 == totalHits
  {
    if returned == 0 then (0, 0)
    else if startingNumber + returned < totalHits then (startingNumber, startingNumber + returned)
    else (startingNumber, totalHits)
  }

  /** `runStable` given the search's outcome: `None` when fetching the
      dataset or searching raises, otherwise the records found and the total
      hit count; `excluded` is the excluded-scene count, `None` when counting
      it raises (the count then stays 0). */
  function RunStable<R>(q: Query, found: Option<(seq<R>, int)>, excluded: Option<int>): (r: Result<Response<R>, SearchError>)
    ensures r.Ok? <==> Normalise(q).Ok? && found.Some?
    ensures Normalise(q).Err? ==> r == Err(Normalise(q).error)
    ensures r.Ok? ==>
              var res := r.value;
              && res.results == found.value.0 && res.recordsReturned == |res.results|
              && res.totalHits == found.value.1
              && (res.recordsReturned == 0 <==> res.startingNumber == 0)
              && (res.recordsReturned > 0 ==> res.startingNumber == 1 && res.nextRecord <= res.totalHits)
              && (res.recordsReturned > 0 && 1 + res.recordsReturned < res.totalHits ==> res.nextRecord == 1 + res.recordsReturned)
              && res.numExcluded == (if excluded.Some? then excluded.value else 0)
    ensures r.Ok? ==>
              (r.value.startingNumber, r.value.nextRecord) ==
              Paginate(1, r.value.recordsReturned, r.value.totalHits)
    ensures Normalise(q).Ok? && found.None? ==> r == Err(SearchFailed)
  {
    match Normalise(q)
    case Err(e) => Err(e)
    case Ok(settings) =>
      if found.None? then Err(SearchFailed)
      else
        var (results, totalHits) := found.value;
        var (start, next) := Paginate(settings.startingNumber, |results|, totalHits);
        var numExcluded := if excluded.Some? then excluded.value else 0;
        Ok(Response(numExcluded, start, totalHits, |results|, next, results))
  }

}
