# Smello capture pipeline — a Dafny model

Smello records the outgoing HTTP calls of an instrumented Python process and
ships them to a collector server, which stores them and shows them in a web
page. This project models the parts that have rules:

- **Capture record** (`capture.dfy`, module `Capture`). It builds the payload for one
  request/response pair. Request headers are redacted case-insensitively
  against a deny-list. Response headers are copied as they are. Bodies are
  normalised: `None` stays `None`, text passes through, bytes are decoded as
  strict UTF-8 (`utf8.dfy`), and bytes that are not UTF-8 become
  `<binary: N bytes>`. Body sizes are computed from the original body.
- **Transport** (`transport.dfy`, module `Transport`). This is the bounded FIFO queue
  (capacity 1000), the single background worker, and `start_worker`, `send`,
  `flush` and `shutdown`. It runs sequentially. The module globals, the queue's
  unfinished-task counter and the record the worker holds between `get()` and
  `task_done()` are fields of a `Transport` object. Each operation is specified
  by a function on `TransportState`. The network appears only as the log of
  POST requests the worker made and whether each succeeded.
- **`init`** (`smello_init.dfy`, module `Smello`). It normalises the configuration
  (trailing slashes, lower-cased redact list with defaults, empty host lists),
  adds the collector's own host to the ignore list once, and starts the worker.
- **Collector API** (`api.dfy`, module `Api`). The capture, list, get and clear routes
  run over an in-memory table of rows, kept newest first.
- **JSON viewer text** (`json_viewer.dfy`, module `JsonViewer`). This covers
  `escapeHtml`, and the characters `renderJson`/`renderCollection` put into
  the page, read in document order. The viewer sets each span's `textContent`
  to the escaped string. So a `<` inside a JSON string appears on screen as
  `&lt;`. The model records that text as it is produced.

Shared helpers: `wrappers.dfy` (`Option`, `Result`) and `text.dfy` (ASCII case
mapping, decimal digits, substring search).

Where the code differs from its documentation or its docstrings, the model follows the code:
- `body_size` is `len(body)`. For a text body, that counts characters, not bytes.
- `duration_ms` is truncated by `int(...)`, not rounded. The model takes it as an integer input.
- The `shutdown` docstring says it flushes and then stops accepting new payloads. The code only flushes (transport.py:63-64), and `send` keeps accepting records afterwards; `Transport.SendAfterShutdownIsQueued` states this.
- The `flush` docstring says it waits until all queued payloads are sent. A failed delivery is also marked done, so `flush` returns true once every record has been attempted, delivered or not (`Transport.DrainCompletes`).

## Model

| member | source | states |
|---|---|---|
| `Capture.RedactHeaders` | clients/python/src/smello/capture.py:53-56 | keeps exactly the input's header names; a name whose lower-cased form is on the deny-list gets `[REDACTED]`, every other keeps its value |
| `Capture.RedactIdempotent` | clients/python/src/smello/capture.py:55 | redacting an already redacted map with the same deny-list changes nothing |
| `Capture.RedactOnlyReplacesWithPlaceholder` | clients/python/src/smello/capture.py:55 | a value after redaction is the original or the placeholder, and it differs from the original only for a listed name |
| `Capture.RedactCaseInsensitive` | clients/python/src/smello/capture.py:55 | two names equal up to ASCII case are both redacted when one is |
| `Capture.BinaryPlaceholder` | clients/python/src/smello/capture.py:66 | the placeholder is `<binary: `, the decimal digits of N without a leading zero, ` bytes>`; the digits read back as N |
| `Capture.BodyToStr` | clients/python/src/smello/capture.py:59-67 | `None` gives `None`; text is returned unchanged; valid UTF-8 bytes give the string whose UTF-8 encoding they are; other bytes give the placeholder for their length |
| `Capture.BodySize` | clients/python/src/smello/capture.py:37-43 | 0 for no body, the character count for text, the byte count for bytes |
| `Capture.BinaryBodyKeepsSize` | clients/python/src/smello/capture.py:37 | a non-UTF-8 body is replaced by its placeholder while its size stays its byte length |
| `Capture.SerializeRequestResponse` | clients/python/src/smello/capture.py:9-50 | method, URL, status, library, id, timestamp and duration pass through; request headers are redacted and response headers copied untouched; bodies and sizes as above; `smello_version` is `0.1.0` |
| `Utf8.Decode` | clients/python/src/smello/capture.py:64 | a successful decode yields one character per 1 to 4 bytes |
| `Utf8.DecodeIffEncode` | clients/python/src/smello/capture.py:64 | strict UTF-8 decoding yields `s` exactly when the bytes are the UTF-8 encoding of `s` |
| `Utf8.EncodeDecodes` | clients/python/src/smello/capture.py:64 | every string's encoding decodes back to it |
| `Utf8.DecodeEncodes` | clients/python/src/smello/capture.py:64 | decoded bytes re-encode to exactly the same bytes |
| `Transport.Initial` | clients/python/src/smello/transport.py:11-13 | the import-time state is empty, not started and satisfies the invariant |
| `Transport.Start` | clients/python/src/smello/transport.py:16-26 | always records the new URL; only the first call sets `started` and launches the single worker; later calls launch nothing; the queue is untouched |
| `Transport.StartIsIdempotent` | clients/python/src/smello/transport.py:16-23 | a second start is the same as starting once with the later URL |
| `Transport.Enqueue` | clients/python/src/smello/transport.py:29-34 | on a full queue nothing changes; otherwise the record goes to the back and the unfinished count rises by one; the bound of 1000 and the invariant are kept |
| `Transport.EnqueueAccepts` | clients/python/src/smello/transport.py:32 | an accepted send appends its record to the accepted sequence (sent, in hand, waiting); a dropped send leaves it unchanged |
| `Transport.Take` | clients/python/src/smello/transport.py:70 | the worker takes the oldest queued record |
| `Transport.Finish` | clients/python/src/smello/transport.py:71-75 | one POST of the held record to `server_url + "/api/capture"` is logged with its outcome, and the unfinished count drops by exactly one whether it succeeded or not; nothing is requeued |
| `Transport.PostFor` | clients/python/src/smello/transport.py:78-87 | each delivery is a POST to `server_url + "/api/capture"` with `Content-Type: application/json` carrying the record |
| `Transport.Iterate` | clients/python/src/smello/transport.py:69-75 | one loop turn completes exactly one record and keeps the invariant (unfinished = queued + in hand, at most 1000 queued) |
| `Transport.Drain` | clients/python/src/smello/transport.py:67-75 | the worker loop keeps the invariant, never raises the unfinished count, and leaves URL and worker state alone |
| `Transport.IterateKeepsAccepted` | clients/python/src/smello/transport.py:69-75 | a loop turn neither loses, duplicates nor reorders an accepted record |
| `Transport.WorkerKeepsAccepted` | clients/python/src/smello/transport.py:67-75 | any number of worker turns keep the accepted sequence exactly |
| `Transport.DrainIsFifo` | clients/python/src/smello/transport.py:69-75 | k turns POST the k oldest records in queue order with the given outcomes and remove them from the queue |
| `Transport.DrainCompletes` | clients/python/src/smello/transport.py:44-55 | once started, enough worker turns bring the unfinished count to zero even when every delivery fails, so `flush` reports true |
| `Transport.Flushed` | clients/python/src/smello/transport.py:49 | `flush` reports true exactly when nothing is queued and nothing is in the worker's hand |
| `Transport.SendAfterShutdownIsQueued` | clients/python/src/smello/transport.py:58-64 | after a `shutdown` that drained, a `send` is still queued and the worker can take it: shutdown does not close the queue |
| `Transport.NoWorkerNoDrain` | clients/python/src/smello/transport.py:16-26 | without a started worker nothing drains, and `flush` is true only for an empty queue |
| `Transport.Transport.constructor` | clients/python/src/smello/transport.py:11-13 | the object starts in the import-time state |
| `Transport.Transport.StartWorker` | clients/python/src/smello/transport.py:16-26 | follows `Start` |
| `Transport.Transport.Send` | clients/python/src/smello/transport.py:29-34 | follows `Enqueue`; never fails |
| `Transport.Transport.WorkerGet` | clients/python/src/smello/transport.py:70 | takes the oldest record when the worker runs and the queue is non-empty; otherwise it would block, and nothing changes |
| `Transport.Transport.WorkerFinish` | clients/python/src/smello/transport.py:71-75 | follows `Finish` |
| `Transport.Transport.RunWorker` | clients/python/src/smello/transport.py:67-75 | the `while True` loop follows `Drain`, one turn per outcome until it would block |
| `Transport.Transport.Flush` | clients/python/src/smello/transport.py:37-55 | with nothing unfinished it returns true and changes nothing; otherwise the worker runs for the turns completed before the timeout; the result is true exactly when the unfinished count is zero |
| `Transport.Transport.Shutdown` | clients/python/src/smello/transport.py:58-64 | the same result and state as `flush`; the worker stays started |
| `Smello.StripTrailingSlashes` | clients/python/src/smello/__init__.py:25 | the result is the longest prefix not ending in `/`; everything removed is `/` |
| `Smello.StripIdempotent` | clients/python/src/smello/__init__.py:25 | stripping twice is stripping once |
| `Smello.OrEmpty` | clients/python/src/smello/__init__.py:26-28 | an absent host list becomes the empty list |
| `Smello.NormaliseRedactHeaders` | clients/python/src/smello/__init__.py:29-31 | each name is the lower-cased given name, in order; an absent or empty list falls back to the defaults |
| `Smello.RedactHeadersAreLowerCase` | clients/python/src/smello/__init__.py:29-31 | every normalised name is lower-case, and with no list the result is exactly `["authorization", "x-api-key"]` |
| `Smello.OccurrencesAppend` | clients/python/src/smello/__init__.py:39 | appending a host adds one occurrence of it and none of any other |
| `Smello.SmelloConfig.constructor` | clients/python/src/smello/__init__.py:24-32 | holds the given settings |
| `Smello.Client.constructor` | clients/python/src/smello/__init__.py:7 | before `init` there is no configuration |
| `Smello.Client.Init` | clients/python/src/smello/__init__.py:10-49 | disabled: config and transport unchanged; otherwise a fresh config with the normalised URL, host lists and redact list, the collector's host present exactly once (added only when absent and non-empty), and the worker started with the normalised URL |
| `Api.HttpStatus` | server/src/smello_server/routes/api.py:106-138 | each failure is a 4xx or 5xx answer: 404 exactly for a missing id; 422 exactly for a limit above 200 or a taken id (the ORM's IntegrityError handler registered at server/src/smello_server/app.py:40); 500 exactly for a negative limit |
| `Api.StoredId` | server/src/smello_server/routes/api.py:83 | the payload id when present and non-empty, otherwise the fresh one |
| `Api.HostOrUnknown` | server/src/smello_server/routes/api.py:80 | the URL's hostname, or `unknown` when there is none |
| `Api.ToRow` | server/src/smello_server/routes/api.py:79-96 | the stored method is the payload method upper-cased; id and host as above; headers, bodies, sizes, status, duration, URL and library stored unchanged; the payload timestamp is ignored in favour of the insert time |
| `Api.StoredMethodIgnoresCase` | server/src/smello_server/routes/api.py:85 | methods differing only in ASCII case are stored identically |
| `Api.Matches` | server/src/smello_server/routes/api.py:109-116 | a row matches when it passes every supplied filter; a query with no filter matches every row |
| `Api.FilterRows` | server/src/smello_server/routes/api.py:108-116 | exactly the rows that satisfy every supplied filter are kept, each as many times as it is stored: a matching row is neither dropped nor duplicated, and a non-matching row never appears |
| `Api.Summarize` | server/src/smello_server/routes/api.py:119-129 | the summary carries the row's id, timestamp, method, URL, host, status and duration |
| `Api.EffectiveLimit` | server/src/smello_server/routes/api.py:106 | the default limit is 50; values above 200 are rejected with 422; negative values are refused |
| `Api.ListRequests` | server/src/smello_server/routes/api.py:100-130 | fails exactly when the limit is invalid; otherwise returns exactly `min(limit, number of matching rows)` summaries, the i-th being the summary of the i-th matching row (so a limit of 2 over 5 matching rows lists exactly 2) |
| `Api.ListIsSound` | server/src/smello_server/routes/api.py:108-118 | every listed summary is that of a stored row that passes every filter: host equal, method equal to the upper-cased query, status equal when non-zero, URL containing the search text ignoring ASCII case |
| `Api.ListIsComplete` | server/src/smello_server/routes/api.py:108-118 | a listing shorter than its limit leaves out no matching row |
| `Api.ListAllWhenUnfiltered` | server/src/smello_server/routes/api.py:108-118 | with no filter and at most 50 rows, the listing is the summaries of all rows, in table order |
| `Api.FilterKeepsOrder` | server/src/smello_server/routes/api.py:108-116 | filtering a table kept newest first leaves it newest first |
| `Api.ListIsNewestFirst` | server/src/smello_server/routes/api.py:118 | on a table kept newest first, the listing is newest first, and a matching row the limit leaves out is no newer than any listed row |
| `Api.Detail` | server/src/smello_server/routes/api.py:140-155 | the detail carries the row's summary, library, headers, bodies and body sizes |
| `Api.GetRequest` | server/src/smello_server/routes/api.py:133-155 | a missing id gives the 404 error; otherwise the details of the row with that id |
| `Api.Store.Capture` | server/src/smello_server/routes/api.py:78-97 | inserts the row at the front and answers `ok`; a taken id is refused and the table is left unchanged; a table kept newest first stays so when the insert time is no earlier than any stored one |
| `Api.CapturedRowIsFound` | server/src/smello_server/routes/api.py:133-155 | a row just captured is fetched back by its id unchanged |
| `Api.Store.ClearRequests` | server/src/smello_server/routes/api.py:158-160 | after clearing the table is empty |
| `Api.ClearedStoreIsEmpty` | server/src/smello_server/routes/api.py:158-160 | on an empty table every lookup is a 404 and every listing is empty |
| `JsonViewer.ReplaceAll` | server/src/smello_server/static/json-viewer.js:86 | a global replacement of a character that does not occur leaves the string unchanged |
| `JsonViewer.EscapeHtml` | server/src/smello_server/static/json-viewer.js:85-87 | the output is never shorter than the input, and a string with none of `&`, `<`, `>` is unchanged |
| `JsonViewer.EscapeHtmlIsOnePass` | server/src/smello_server/static/json-viewer.js:85-87 | the three chained replacements equal escaping each character once: because `&` goes first, no entity is escaped twice |
| `JsonViewer.EscapeHtmlNoAngleBrackets` | server/src/smello_server/static/json-viewer.js:85-87 | the output contains no `<` and no `>` |
| `JsonViewer.UnescapeEscapeHtml` | server/src/smello_server/static/json-viewer.js:86 | reading the entities back restores the input, so each `&` became exactly one `&amp;` |
| `JsonViewer.RenderJson` | server/src/smello_server/static/json-viewer.js:15-42 | `null`, `true`/`false`, the decimal integer, a string as `"` + escaped + `"`, an empty array as `[]` and an empty object as `{}` |
| `JsonViewer.Pad` | server/src/smello_server/static/json-viewer.js:54-55 | the padding for level n is 2·n spaces |
| `JsonViewer.ItemsAreJoined` | server/src/smello_server/static/json-viewer.js:57-61 | the loop's per-item text (newline, padding, item, comma unless last) equals the items joined by `,` + newline + padding |
| `JsonViewer.Join` | server/src/smello_server/static/json-viewer.js:57-61 | n items joined carry exactly n−1 separators |
| `JsonViewer.Collection` | server/src/smello_server/static/json-viewer.js:44-76 | the text starts with the opening bracket and ends with a newline, 2·indent spaces and the closing bracket |
| `JsonViewer.CollectionLayout` | server/src/smello_server/static/json-viewer.js:44-76 | open bracket, items at 2·(indent+1) spaces separated by commas, newline, closing bracket at 2·indent spaces |
| `JsonViewer.ArrayLayout` | server/src/smello_server/static/json-viewer.js:22-26 | a non-empty array is laid out as a collection of its elements rendered one level deeper |
| `JsonViewer.ObjectLayout` | server/src/smello_server/static/json-viewer.js:29-38 | each object entry is the quoted escaped key, `": "`, then the value rendered one level deeper |
| `JsonViewer.RenderJsonIsTagFree` | server/src/smello_server/static/json-viewer.js:15-42 | the text of any rendered value holds no `<` or `>` |
| `JsonViewer.RenderCollection` | server/src/smello_server/static/json-viewer.js:44-76 | the loop produces exactly the collection layout of the rendered items |

## Left out

- Threads, the queue's lock, the `all_tasks_done` condition and wall-clock timeouts are not modelled. The model runs sequentially. The time `flush` waits is represented by the worker turns completed before the timeout (the `progress` argument).
- The `logging` warnings (dropped record, failed delivery, flush timeout) are not modelled. Only the state they leave behind is.
- `_send_to_server` is not modelled beyond its request line. JSON encoding, `urlopen`, the 5-second timeout and the HTTP status are reduced to a delivered/failed outcome given as input.
- `uuid.uuid4()`, `time.gmtime`/`strftime`, `sys.version_info` and the server's insert clock are nondeterministic or depend on the environment. They are inputs. UUID format validation of ids by the table is not modelled: ids are opaque strings.
- `int(duration_s * 1000)` is float arithmetic. `duration_ms` is taken as a given integer.
- `urlparse(url).hostname` is foreign-library code. It is a function parameter (`hostname`) in `Smello.Client.Init` and `Api.Store.Capture`.
- `Capture.RedactHeaders`, `Api.ToRow`, `Api.Matches`, `Smello.NormaliseRedactHeaders`, `Smello.RedactHeadersAreLowerCase` handle ASCII case only. Python's `str.lower`/`str.upper` are Unicode-aware beyond ASCII (for instance `"ß".upper()` is `"SS"`). The database's case-insensitive URL search folds ASCII only, as the model does.
- `Smello.Client.Init` works on a copy of the caller's ignore list. In Python, `ignore_hosts or []` keeps the caller's non-empty list object, and the append changes that list too. This aliasing is not modelled.
- Applying the library patches (`apply_all`), the host filter `should_capture` and the interception code in `patches/` are not part of this model.
- `Api.HttpStatus` answers a duplicate id with 422. This relies on the ORM's exception handlers, which the app registers (server/src/smello_server/app.py:40) and which map an IntegrityError to 422; that handler code is not part of this model.
- Header maps are Dafny maps, which have no order. Python dicts, and the JSON payload, keep insertion order. No operation in the model depends on that order.
- `Api.EffectiveLimit` treats a negative limit as refused. The route does not check this; the ORM's `limit()` raises on it. Pydantic validation errors on malformed payloads are not modelled.
- `Api.Store.Capture` does not model the column lengths of the table (server/src/smello_server/models.py:13, 26, 27): `method` holds at most 10 characters, `host` at most 255 and `library` at most 50. The ORM refuses a longer value when the row is saved, no registered handler maps that refusal, and `capture` then answers 500. The model stores such a row and answers `ok`, and `Api.HttpStatus` has no refusal for it.
- `Api.ListRequests` lists rows in the order they are stored: inserted at the front. The table's `ORDER BY timestamp DESC` (server/src/smello_server/models.py:31) is not a sort in the model. It is the `NewestFirst` property, which `Api.Store.Capture` keeps only when the insert clock does not go backwards. Ties between equal timestamps keep insertion order, where the database's order is unspecified.
- `JsonViewer.RenderJson` renders a number as the exact decimal digits of an unbounded integer. JavaScript numbers are doubles, and `String(value)` differs from that in three ways: integers beyond 2^53 are rounded (`18446744073709551616` shows as `18446744073709552000`); from 1e21 on the exponent form is used (`1e+21`); and non-integers are shown with a fraction. None of these is modelled. The final fallback `String(value)` in `renderJson` is never reached by values from `JSON.parse`, so it is left out.
- `JsonViewer.RenderJson` takes any `Json` value. A value from `JSON.parse` has pairwise distinct object keys, which the model does not require. Its strings may hold a lone UTF-16 surrogate, which a Dafny string cannot: the model's strings hold whole characters only.
- `JsonViewer.RenderCollection` renders the text only. The DOM nodes, CSS classes, the click toggle and the `/* N items */` summary node are not in the text; that node is built but never attached to the page.
