/**
 * Building the capture record for one observed request/response pair
 * (clients/python/src/smello/capture.py).  Everything here is pure: the
 * record id, the timestamp, the duration in milliseconds and the Python
 * version string are inputs, because the source draws them from uuid4, the
 * clock, a float product and `sys.version_info`.
 */
module Capture {
  import opened Wrappers
  import opened Text
  import Utf8

  /** A request or response body as the HTTP library hands it over (`None` is `Option.None`). */
  datatype Body = Text(text: string) | Bytes(bytes: seq<Utf8.byte>)

  const REDACTED: string := "[REDACTED]"
  const SMELLO_VERSION: string := "0.1.0"

  datatype RequestPart = RequestPart(
    httpMethod: string, url: string, headers: Headers, body: Option<string>, bodySize: nat)

  datatype ResponsePart = ResponsePart(
    statusCode: int, headers: Headers, body: Option<string>, bodySize: nat)

  datatype Meta = Meta(library: string, pythonVersion: string, smelloVersion: string)

  /** The payload dictionary `serialize_request_response` returns. */
  datatype CaptureRecord = CaptureRecord(
    id: string, timestamp: string, durationMs: int,
    request: RequestPart, response: ResponsePart, meta: Meta)

  /** A header name is on the deny-list when its lower-cased form is listed. */
  predicate IsRedacted(name: string, redactKeys: seq<string>) {
    ToLower(name) in redactKeys
  }

  /** `_redact_headers`: listed headers keep their name and lose their value. */
  function RedactHeaders(headers: Headers, redactKeys: seq<string>): (r: Headers)
    ensures r.Keys == headers.Keys
    ensures forall k :: k in r && IsRedacted(k, redactKeys) ==> r[k] == REDACTED
    ensures forall k :: k in r && !IsRedacted(k, redactKeys) ==> r[k] == headers[k]
  {
    map k | k in headers :: if IsRedacted(k, redactKeys) then REDACTED else headers[k]
  }

  /** Redacting twice with the same deny-list is redacting once. */
  lemma RedactIdempotent(headers: Headers, redactKeys: seq<string>)
    ensures RedactHeaders(RedactHeaders(headers, redactKeys), redactKeys)
         == RedactHeaders(headers, redactKeys)
  {
  }

  /** A redacted value is the placeholder or the original one, never anything else. */
  lemma RedactOnlyReplacesWithPlaceholder(headers: Headers, redactKeys: seq<string>, k: string)
    requires k in headers
    ensures RedactHeaders(headers, redactKeys)[k] in {REDACTED, headers[k]}
    ensures RedactHeaders(headers, redactKeys)[k] != headers[k] ==> IsRedacted(k, redactKeys)
  {
  }

  /** The deny-list is matched regardless of the header name's ASCII case. */
  lemma RedactCaseInsensitive(headers: Headers, redactKeys: seq<string>, k1: string, k2: string)
    requires k1 in headers && k2 in headers
    requires ToLower(k1) == ToLower(k2)
    requires IsRedacted(k1, redactKeys)
    ensures RedactHeaders(headers, redactKeys)[k2] == REDACTED
  {
  }

  /** The placeholder for a body that is not UTF-8: `<binary: N bytes>`. */
  function BinaryPlaceholder(n: nat): (r: string)
    ensures |r| > 16 && r[..9] == "<binary: " && r[|r| - 7..] == " bytes>"
    ensures forall i :: 9 <= i < |r| - 7 ==> IsDigit(r[i])
    ensures ParseNat(r[9..|r| - 7]) == n
    ensures |r| > 17 ==> r[9] != '0'
  {
    var digits := NatToString(n);
    ParseNatToString(n);
    assert ("<binary: " + digits + " bytes>")[9..|digits| + 9] == digits;
    "<binary: " + digits + " bytes>"
  }

  /** `_body_to_str`: the text shown for a body. */
  function BodyToStr(body: Option<Body>): (r: Option<string>)
    ensures body.None? <==> r.None?
    ensures body.Some? && body.value.Text? ==> r == Some(body.value.text)
    ensures body.Some? && body.value.Bytes? && Utf8.IsValid(body.value.bytes) ==>
              r.Some? && Utf8.Encode(r.value) == body.value.bytes
    ensures body.Some? && body.value.Bytes? && !Utf8.IsValid(body.value.bytes) ==>
              r == Some(BinaryPlaceholder(|body.value.bytes|))
  {
    match body
    case None => None
    case Some(Text(s)) => Some(s)
    case Some(Bytes(b)) =>
      match Utf8.Decode(b)
      case Some(s) =>
        Utf8.DecodeEncodes(b);
        Some(s)
      case None => Some(BinaryPlaceholder(|b|))
  }

  /** `len(body) if body else 0`: characters for text, bytes for bytes. */
  function BodySize(body: Option<Body>): (n: nat)
    ensures body.None? ==> n == 0
    ensures body.Some? && body.value.Text? ==> n == |body.value.text|
    ensures body.Some? && body.value.Bytes? ==> n == |body.value.bytes|
  {
    match body
    case None => 0
    case Some(Text(s)) => |s|
    case Some(Bytes(b)) => |b|
  }

  /** `serialize_request_response`. */
  function SerializeRequestResponse(
    redactHeaders: seq<string>,
    httpMethod: string, url: string, requestHeaders: Headers, requestBody: Option<Body>,
    statusCode: int, responseHeaders: Headers, responseBody: Option<Body>,
    durationMs: int, library: string,
    id: string, timestamp: string, pythonVersion: string): (r: CaptureRecord)
    ensures r.id == id && r.timestamp == timestamp && r.durationMs == durationMs
    ensures r.request.httpMethod == httpMethod && r.request.url == url
    ensures r.request.headers == RedactHeaders(requestHeaders, redactHeaders)
    ensures r.request.body == BodyToStr(requestBody)
    ensures r.request.bodySize == BodySize(requestBody)
    ensures r.response.statusCode == statusCode
    ensures r.response.headers == responseHeaders
    ensures r.response.body == BodyToStr(responseBody)
    ensures r.response.bodySize == BodySize(responseBody)
    ensures r.meta == Meta(library, pythonVersion, SMELLO_VERSION)
  {
    CaptureRecord(
      id, timestamp, durationMs,
      RequestPart(httpMethod, url, RedactHeaders(requestHeaders, redactHeaders),
                  BodyToStr(requestBody), BodySize(requestBody)),
      ResponsePart(statusCode, responseHeaders, BodyToStr(responseBody), BodySize(responseBody)),
      Meta(library, pythonVersion, SMELLO_VERSION))
  }

  /** A body that is not UTF-8 is shown as its placeholder, and its size stays its byte count. */
  lemma BinaryBodyKeepsSize(bytes: seq<Utf8.byte>)
    requires !Utf8.IsValid(bytes)
    ensures BodyToStr(Some(Bytes(bytes))) == Some(BinaryPlaceholder(|bytes|))
    ensures BodySize(Some(Bytes(bytes))) == |bytes|
  {
  }
}
