/**
 * The collector's JSON API (server/src/smello_server/routes/api.py) over an
 * in-memory store.  The table of captured requests is the `rows` field of a
 * Store object, newest first (the table's default ordering is by descending
 * timestamp, and every insert carries the time it was made).  The clock, the
 * UUID generator and `urlparse(url).hostname` are inputs.
 */
module Api {
  import opened Wrappers
  import opened Text

  // --- Input models

  datatype RequestData = RequestData(
    httpMethod: string, url: string, headers: Headers, body: Option<string>, bodySize: int)

  datatype ResponseData = ResponseData(
    statusCode: int, headers: Headers, body: Option<string>, bodySize: int)

  datatype MetaData = MetaData(library: string, pythonVersion: string, smelloVersion: string)

  datatype CapturePayload = CapturePayload(
    id: Option<string>, timestamp: Option<string>, durationMs: int,
    request: RequestData, response: ResponseData, meta: MetaData)

  // --- Stored rows and output models

  /** One row of the `captured_requests` table. */
  datatype CapturedRequest = CapturedRequest(
    id: string, timestamp: int, durationMs: int,
    httpMethod: string, url: string,
    requestHeaders: Headers, requestBody: Option<string>, requestBodySize: int,
    statusCode: int,
    responseHeaders: Headers, responseBody: Option<string>, responseBodySize: int,
    host: string, library: string)

  datatype RequestSummary = RequestSummary(
    id: string, timestamp: int, httpMethod: string, url: string, host: string,
    statusCode: int, durationMs: int)

  datatype RequestDetail = RequestDetail(
    summary: RequestSummary, library: string,
    requestHeaders: Headers, requestBody: Option<string>, requestBodySize: int,
    responseHeaders: Headers, responseBody: Option<string>, responseBodySize: int)

  /** The failures the routes answer with, and their HTTP status codes. */
  datatype ApiError =
    | NotFound        // 404 "Request not found"
    | LimitTooLarge   // 422: `limit` fails `le=200`
    | NegativeLimit   // the ORM refuses a negative limit
    | DuplicateId     // the primary key is taken: the ORM's IntegrityError

  /**
   * The status each failure is answered with.  The app registers the ORM's
   * exception handlers, which answer an IntegrityError with 422; the ORM's
   * refusal of a negative limit is not handled and becomes a 500.
   */
  function HttpStatus(e: ApiError): (status: int)
    ensures 400 <= status < 600
    ensures status == 404 <==> e.NotFound?
    ensures status == 422 <==> e.LimitTooLarge? || e.DuplicateId?
    ensures status == 500 <==> e.NegativeLimit?
  {
    match e
    case NotFound => 404
    case LimitTooLarge => 422
    case NegativeLimit => 500
    case DuplicateId => 422
  }

  const UNKNOWN_HOST: string := "unknown"
  const DEFAULT_LIMIT: int := 50
  const MAX_LIMIT: int := 200

  // --- capture

  /** `payload.id or uuid.uuid4()`: an absent or empty id is replaced by a fresh one. */
  function StoredId(payload: CapturePayload, freshId: string): (id: string)
    ensures payload.id.Some? && payload.id.value != "" ==> id == payload.id.value
    ensures payload.id.None? || payload.id.value == "" ==> id == freshId
  {
    if payload.id.Some? && payload.id.value != "" then payload.id.value else freshId
  }

  /** `urlparse(url).hostname or "unknown"`. */
  function HostOrUnknown(hostname: Option<string>): (host: string)
    ensures hostname.Some? && hostname.value != "" ==> host == hostname.value
    ensures hostname.None? || hostname.value == "" ==> host == UNKNOWN_HOST
  {
    if hostname.Some? && hostname.value != "" then hostname.value else UNKNOWN_HOST
  }

  /** The row `capture` creates for a payload. */
  function ToRow(payload: CapturePayload, freshId: string, hostname: Option<string>, now: int)
    : (row: CapturedRequest)
    ensures row.id == StoredId(payload, freshId)
    ensures row.httpMethod == ToUpper(payload.request.httpMethod) && IsUpperCase(row.httpMethod)
    ensures row.host == HostOrUnknown(hostname)
    ensures row.timestamp == now && row.durationMs == payload.durationMs
    ensures row.url == payload.request.url
    ensures row.requestHeaders == payload.request.headers
    ensures row.requestBody == payload.request.body
    ensures row.requestBodySize == payload.request.bodySize
    ensures row.statusCode == payload.response.statusCode
    ensures row.responseHeaders == payload.response.headers
    ensures row.responseBody == payload.response.body
    ensures row.responseBodySize == payload.response.bodySize
    ensures row.library == payload.meta.library
  {
    ToUpperNormalises(payload.request.httpMethod);
    CapturedRequest(
      StoredId(payload, freshId), now, payload.durationMs,
      ToUpper(payload.request.httpMethod), payload.request.url,
      payload.request.headers, payload.request.body, payload.request.bodySize,
      payload.response.statusCode,
      payload.response.headers, payload.response.body, payload.response.bodySize,
      HostOrUnknown(hostname), payload.meta.library)
  }

  /** Methods differing only in ASCII case are stored the same. */
  lemma StoredMethodIgnoresCase(p: CapturePayload, q: CapturePayload, freshId: string,
                                hostname: Option<string>, now: int)
    requires ToLower(p.request.httpMethod) == ToLower(q.request.httpMethod)
    ensures ToRow(p, freshId, hostname, now).httpMethod == ToRow(q, freshId, hostname, now).httpMethod
  {
    var a, b := p.request.httpMethod, q.request.httpMethod;
    ToLowerUpperAgree(a, b);
    assert forall c :: UpperChar(LowerChar(UpperChar(c))) == UpperChar(c);
    assert forall i :: 0 <= i < |a| ==> ToUpper(a)[i] == UpperChar(LowerChar(UpperChar(a[i])));
    assert forall i :: 0 <= i < |a| ==> ToUpper(a)[i] == ToUpper(b)[i] by {
      forall i | 0 <= i < |a| ensures ToUpper(a)[i] == ToUpper(b)[i] {
        assert LowerChar(a[i]) == ToLower(a)[i] == ToLower(b)[i] == LowerChar(b[i]);
        assert UpperChar(LowerChar(a[i])) == UpperChar(a[i]);
        assert UpperChar(LowerChar(b[i])) == UpperChar(b[i]);
      }
    }
  }

  // --- list_requests

  datatype Query = Query(
    host: Option<string>, httpMethod: Option<string>, status: Option<int>,
    search: Option<string>, limit: Option<int>)

  /** Python truthiness of an optional query value: absent, empty and zero switch a filter off. */
  predicate Given(s: Option<string>) { s.Some? && s.value != "" }

  /** The query supplies no filter at all. */
  predicate Unfiltered(q: Query) {
    q.host.None? && q.httpMethod.None? && q.status.None? && q.search.None?
  }

  /** The conjunction of the filters the query supplies; a query without filters matches every row. */
  predicate Matches(row: CapturedRequest, q: Query)
    ensures Unfiltered(q) ==> Matches(row, q)
  {
    && (Given(q.host) ==> row.host == q.host.value)
    && (Given(q.httpMethod) ==> row.httpMethod == ToUpper(q.httpMethod.value))
    && (q.status.Some? && q.status.value != 0 ==> row.statusCode == q.status.value)
    && (Given(q.search) ==> Contains(ToLower(row.url), ToLower(q.search.value)))
  }

  /** The matching rows, in table order. */
  function FilterRows(rows: seq<CapturedRequest>, q: Query): (r: seq<CapturedRequest>)
    ensures |r| <= |rows|
    ensures forall row :: row in r <==> row in rows && Matches(row, q)
    ensures forall row :: multiset(r)[row] == if Matches(row, q) then multiset(rows)[row] else 0
  {
    if rows == [] then []
    else
      assert rows == [rows[0]] + rows[1..];
      if Matches(rows[0], q) then [rows[0]] + FilterRows(rows[1..], q)
      else FilterRows(rows[1..], q)
  }

  function Summarize(r: CapturedRequest): (s: RequestSummary)
    ensures s.id == r.id && s.timestamp == r.timestamp
    ensures s.httpMethod == r.httpMethod && s.url == r.url && s.host == r.host
    ensures s.statusCode == r.statusCode && s.durationMs == r.durationMs
  {
    RequestSummary(r.id, r.timestamp, r.httpMethod, r.url, r.host, r.statusCode, r.durationMs)
  }

  /** `limit` after validation: 50 when absent, refused above 200 or below 0. */
  function EffectiveLimit(limit: Option<int>): (r: Result<nat, ApiError>)
    ensures limit.None? ==> r == Ok(50)
    ensures limit.Some? && limit.value > MAX_LIMIT ==> r == Err(LimitTooLarge)
    ensures limit.Some? && limit.value < 0 ==> r == Err(NegativeLimit)
    ensures limit.Some? && 0 <= limit.value <= MAX_LIMIT ==> r == Ok(limit.value)
  {
    match limit
    case None => Ok(DEFAULT_LIMIT)
    case Some(n) =>
      if n > MAX_LIMIT then Err(LimitTooLarge)
      else if n < 0 then Err(NegativeLimit)
      else Ok(n)
  }

  function Min(a: int, b: int): int { if a < b then a else b }

  /** `list_requests`: the first `limit` matching rows, newest first, summarised. */
  function ListRequests(rows: seq<CapturedRequest>, q: Query)
    : (r: Result<seq<RequestSummary>, ApiError>)
    ensures r.Err? <==> EffectiveLimit(q.limit).Err?
    ensures r.Ok? ==> |r.value| <= EffectiveLimit(q.limit).value <= MAX_LIMIT
    ensures r.Ok? ==> |r.value| == Min(EffectiveLimit(q.limit).value, |FilterRows(rows, q)|)
    ensures r.Ok? ==> forall i :: 0 <= i < |r.value| ==> r.value[i] == Summarize(FilterRows(rows, q)[i])
  {
    match EffectiveLimit(q.limit)
    case Err(e) => Err(e)
    case Ok(n) =>
      var matching := FilterRows(rows, q);
      var taken := matching[..Min(n, |matching|)];
      Ok(seq(|taken|, i requires 0 <= i < |taken| => Summarize(taken[i])))
  }

  /** Every listed summary is that of a stored row satisfying every supplied filter. */
  lemma ListIsSound(rows: seq<CapturedRequest>, q: Query, i: nat)
    requires ListRequests(rows, q).Ok? && i < |ListRequests(rows, q).value|
    ensures exists row :: row in rows && Matches(row, q)
                          && ListRequests(rows, q).value[i] == Summarize(row)
  {
    var matching := FilterRows(rows, q);
    assert matching[i] in matching;
  }

  /** A listing shorter than its limit leaves out no matching row. */
  lemma ListIsComplete(rows: seq<CapturedRequest>, q: Query, row: CapturedRequest)
    requires ListRequests(rows, q).Ok?
    requires |ListRequests(rows, q).value| < EffectiveLimit(q.limit).value
    requires row in rows && Matches(row, q)
    ensures Summarize(row) in ListRequests(rows, q).value
  {
    var matching := FilterRows(rows, q);
    var k :| 0 <= k < |matching| && matching[k] == row;
    assert ListRequests(rows, q).value[k] == Summarize(row);
  }

  /** With no filter and room enough, the listing is the whole table, in table order. */
  lemma ListAllWhenUnfiltered(rows: seq<CapturedRequest>)
    requires |rows| <= DEFAULT_LIMIT
    ensures ListRequests(rows, Query(None, None, None, None, None))
            == Ok(seq(|rows|, i requires 0 <= i < |rows| => Summarize(rows[i])))
  {
    var q := Query(None, None, None, None, None);
    assert forall row :: Matches(row, q);
    FilterKeepsAllMatching(rows, q);
    assert rows[..|rows|] == rows;
  }

  /** The table's ordering: by descending timestamp. */
  predicate NewestFirst(rows: seq<CapturedRequest>) {
    forall i, j :: 0 <= i < j < |rows| ==> rows[i].timestamp >= rows[j].timestamp
  }

  predicate SummariesNewestFirst(summaries: seq<RequestSummary>) {
    forall i, j :: 0 <= i < j < |summaries| ==> summaries[i].timestamp >= summaries[j].timestamp
  }

  /** Filtering keeps the table's order. */
  lemma {:induction false} FilterKeepsOrder(rows: seq<CapturedRequest>, q: Query)
    requires NewestFirst(rows)
    ensures NewestFirst(FilterRows(rows, q))
  {
    if rows != [] {
      var rest := rows[1..];
      FilterKeepsOrder(rest, q);
      forall row | row in FilterRows(rest, q) ensures rows[0].timestamp >= row.timestamp {
        var k :| 0 <= k < |rest| && rest[k] == row;
        assert rows[k + 1] == row;
      }
    }
  }

  /**
   * On a table kept newest first, the listing is newest first too, and the
   * limit keeps the newest matches: a matching row left out is no newer than
   * any listed one.
   */
  lemma ListIsNewestFirst(rows: seq<CapturedRequest>, q: Query, row: CapturedRequest)
    requires NewestFirst(rows) && ListRequests(rows, q).Ok?
    ensures SummariesNewestFirst(ListRequests(rows, q).value)
    ensures row in rows && Matches(row, q) && Summarize(row) !in ListRequests(rows, q).value ==>
              forall k :: 0 <= k < |ListRequests(rows, q).value| ==>
                row.timestamp <= ListRequests(rows, q).value[k].timestamp
  {
    var listed := ListRequests(rows, q).value;
    var matching := FilterRows(rows, q);
    FilterKeepsOrder(rows, q);
    assert forall k :: 0 <= k < |listed| ==> listed[k] == Summarize(matching[k]);
    if row in rows && Matches(row, q) && Summarize(row) !in listed {
      assert forall k :: 0 <= k < |listed| ==> matching[k] != row by {
        forall k | 0 <= k < |listed| ensures matching[k] != row {
          assert listed[k] in listed;
        }
      }
      var j :| 0 <= j < |matching| && matching[j] == row;
      assert j >= |listed|;
    }
  }

  lemma {:induction false} FilterKeepsAllMatching(rows: seq<CapturedRequest>, q: Query)
    requires forall row :: row in rows ==> Matches(row, q)
    ensures FilterRows(rows, q) == rows
  {
    if rows != [] {
      FilterKeepsAllMatching(rows[1..], q);
      assert [rows[0]] + rows[1..] == rows;
    }
  }

  // --- get_request

  function Detail(r: CapturedRequest): (d: RequestDetail)
    ensures d.summary == Summarize(r) && d.library == r.library
    ensures d.requestHeaders == r.requestHeaders && d.requestBody == r.requestBody
    ensures d.requestBodySize == r.requestBodySize
    ensures d.responseHeaders == r.responseHeaders && d.responseBody == r.responseBody
    ensures d.responseBodySize == r.responseBodySize
  {
    RequestDetail(
      Summarize(r), r.library,
      r.requestHeaders, r.requestBody, r.requestBodySize,
      r.responseHeaders, r.responseBody, r.responseBodySize)
  }

  /** `get_request`: the row with that id, or 404. */
  function GetRequest(rows: seq<CapturedRequest>, id: string): (r: Result<RequestDetail, ApiError>)
    ensures r.Err? <==> forall row :: row in rows ==> row.id != id
    ensures r.Err? ==> r.error == NotFound && HttpStatus(r.error) == 404
    ensures r.Ok? ==> exists row :: row in rows && row.id == id && r.value == Detail(row)
  {
    if rows == [] then Err(NotFound)
    else if rows[0].id == id then Ok(Detail(rows[0]))
    else GetRequest(rows[1..], id)
  }

  // --- the store

  /** No two rows share an id (the table's primary key). */
  predicate UniqueIds(rows: seq<CapturedRequest>) {
    forall i, j :: 0 <= i < j < |rows| ==> rows[i].id != rows[j].id
  }

  class Store {
    var rows: seq<CapturedRequest>

    ghost predicate Valid()
      reads this
    {
      UniqueIds(rows)
    }

    constructor ()
      ensures Valid() && rows == []
    {
      rows := [];
    }

    /**
     * `capture(payload)`: insert the row (201 "ok"), newest first; an id
     * already in the table is refused and the table is left as it was.
     */
    method Capture(payload: CapturePayload, freshId: string,
                   hostname: string -> Option<string>, now: int)
      returns (r: Result<string, ApiError>)
      requires Valid()
      modifies this
      ensures Valid()
      ensures var row := ToRow(payload, freshId, hostname(payload.request.url), now);
              if exists old_row :: old_row in old(rows) && old_row.id == row.id
              then r == Err(DuplicateId) && rows == old(rows)
              else r == Ok("ok") && rows == [row] + old(rows)
      ensures NewestFirst(old(rows)) && (forall k :: 0 <= k < |old(rows)| ==> old(rows)[k].timestamp <= now)
              ==> NewestFirst(rows)
    {
      var row := ToRow(payload, freshId, hostname(payload.request.url), now);
      var existing := GetRequest(rows, row.id);
      if existing.Ok? {
        r := Err(DuplicateId);
        return;
      }
      rows := [row] + rows;
      r := Ok("ok");
    }

    /** `clear_requests`: delete every row. */
    method ClearRequests()
      requires Valid()
      modifies this
      ensures Valid() && rows == []
    {
      rows := [];
    }
  }

  /** A captured row can be fetched back by its id, unchanged. */
  lemma CapturedRowIsFound(rows: seq<CapturedRequest>, row: CapturedRequest)
    requires UniqueIds([row] + rows)
    ensures GetRequest([row] + rows, row.id) == Ok(Detail(row))
  {
  }

  /** After clearing, every lookup is a 404 and every listing is empty. */
  lemma ClearedStoreIsEmpty(id: string, q: Query)
    ensures GetRequest([], id) == Err(NotFound)
    ensures ListRequests([], q).Ok? ==> ListRequests([], q).value == []
  {
  }
}
