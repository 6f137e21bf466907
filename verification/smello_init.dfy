/**
 * `smello.init` (clients/python/src/smello/__init__.py): normalise the
 * configuration, make the collector's own host ignored, and start the
 * transport worker.  The module global `_config` is the `config` field of a
 * Client object; `urlparse(url).hostname` is the `hostname` parameter.
 */
module Smello {
  import opened Wrappers
  import opened Text
  import Transport

  const DEFAULT_REDACT_HEADERS: seq<string> := ["authorization", "x-api-key"]

  /** `SmelloConfig`: the process-wide settings `init` builds. */
  class SmelloConfig {
    var serverUrl: string
    var captureHosts: seq<string>
    var captureAll: bool
    var ignoreHosts: seq<string>
    var redactHeaders: seq<string>

    constructor (serverUrl: string, captureHosts: seq<string>, captureAll: bool,
                 ignoreHosts: seq<string>, redactHeaders: seq<string>)
      ensures this.serverUrl == serverUrl && this.captureHosts == captureHosts
      ensures this.captureAll == captureAll && this.ignoreHosts == ignoreHosts
      ensures this.redactHeaders == redactHeaders
    {
      this.serverUrl := serverUrl;
      this.captureHosts := captureHosts;
      this.captureAll := captureAll;
      this.ignoreHosts := ignoreHosts;
      this.redactHeaders := redactHeaders;
    }
  }

  /** `s.rstrip("/")`: the longest prefix of `s` that does not end in `/`, all the rest slashes. */
  function StripTrailingSlashes(s: string): (r: string)
    ensures |r| <= |s| && r == s[..|r|]
    ensures r == [] || r[|r| - 1] != '/'
    ensures forall i :: |r| <= i < |s| ==> s[i] == '/'
  {
    if s != [] && s[|s| - 1] == '/' then StripTrailingSlashes(s[..|s| - 1]) else s
  }

  /** Stripping twice is stripping once. */
  lemma StripIdempotent(s: string)
    ensures StripTrailingSlashes(StripTrailingSlashes(s)) == StripTrailingSlashes(s)
  {
  }

  /** Python's `xs or []` for an optional list. */
  function OrEmpty(xs: Option<seq<string>>): (r: seq<string>)
    ensures xs.None? ==> r == []
    ensures xs.Some? ==> r == xs.value
  {
    xs.GetOr([])
  }

  /**
   * `[h.lower() for h in (redact_headers or ["authorization", "x-api-key"])]`:
   * an absent or empty list falls back to the defaults.
   */
  function NormaliseRedactHeaders(given: Option<seq<string>>): (r: seq<string>)
    ensures var src := if given.None? || given.value == [] then DEFAULT_REDACT_HEADERS
                       else given.value;
            |r| == |src| && forall i :: 0 <= i < |r| ==> r[i] == ToLower(src[i])
  {
    var src := if given.None? || given.value == [] then DEFAULT_REDACT_HEADERS else given.value;
    seq(|src|, i requires 0 <= i < |src| => ToLower(src[i]))
  }

  /** Every normalised name is lower-case, and the defaults come out as they are written. */
  lemma RedactHeadersAreLowerCase(given: Option<seq<string>>)
    ensures forall i :: 0 <= i < |NormaliseRedactHeaders(given)| ==>
              IsLowerCase(NormaliseRedactHeaders(given)[i])
    ensures given.None? ==> NormaliseRedactHeaders(given) == DEFAULT_REDACT_HEADERS
  {
    var r := NormaliseRedactHeaders(given);
    forall i | 0 <= i < |r| ensures IsLowerCase(r[i]) {
      var src := if given.None? || given.value == [] then DEFAULT_REDACT_HEADERS else given.value;
      ToLowerNormalises(src[i]);
    }
    if given.None? {
      DefaultsAreLowerCase();
      forall i | 0 <= i < |DEFAULT_REDACT_HEADERS| ensures r[i] == DEFAULT_REDACT_HEADERS[i] {
        ToLowerNormalises(DEFAULT_REDACT_HEADERS[i]);
      }
    }
  }

  lemma DefaultsAreLowerCase()
    ensures forall i :: 0 <= i < |DEFAULT_REDACT_HEADERS| ==> IsLowerCase(DEFAULT_REDACT_HEADERS[i])
  {
    var a, k := DEFAULT_REDACT_HEADERS[0], DEFAULT_REDACT_HEADERS[1];
    assert forall i | 0 <= i < |a| :: 'a' <= a[i] <= 'z';
    assert forall i | 0 <= i < |k| :: 'a' <= k[i] <= 'z' || k[i] == '-';
  }

  /** How many times `x` occurs in `xs`. */
  function Occurrences(xs: seq<string>, x: string): (n: nat)
    ensures n <= |xs|
    ensures n == 0 <==> x !in xs
  {
    if xs == [] then 0 else (if xs[0] == x then 1 else 0) + Occurrences(xs[1..], x)
  }

  lemma {:induction false} OccurrencesAppend(xs: seq<string>, y: string, x: string)
    ensures Occurrences(xs + [y], x) == Occurrences(xs, x) + (if y == x then 1 else 0)
  {
    if xs != [] {
      assert (xs + [y])[1..] == xs[1..] + [y];
      OccurrencesAppend(xs[1..], y, x);
    }
  }

  /** The host `init` adds to the ignore list: the collector's, when it has a non-empty one. */
  predicate AddsServerHost(serverHost: Option<string>, ignoreHosts: seq<string>) {
    serverHost.Some? && serverHost.value != "" && serverHost.value !in ignoreHosts
  }

  /** The module state of `smello/__init__.py`. */
  class Client {
    var config: SmelloConfig?

    constructor ()
      ensures config == null
    {
      config := null;
    }

    /**
     * `init(...)`.  With `enabled` false nothing happens.  Otherwise a new
     * configuration is built from the normalised arguments, the collector's
     * host is appended to its ignore list unless already there, and the
     * transport worker is started with the normalised URL.
     */
    method Init(transport: Transport.Transport, hostname: string -> Option<string>,
                serverUrl: string, captureHosts: Option<seq<string>>, captureAll: bool,
                ignoreHosts: Option<seq<string>>, redactHeaders: Option<seq<string>>,
                enabled: bool)
      requires transport.Valid()
      modifies this, transport
      ensures transport.Valid()
      ensures !enabled ==>
        config == old(config) && transport.Snapshot() == old(transport.Snapshot())
      ensures enabled ==> config != null && fresh(config)
      ensures enabled ==> config.serverUrl == StripTrailingSlashes(serverUrl)
      ensures enabled ==> config.captureHosts == OrEmpty(captureHosts)
      ensures enabled ==> config.captureAll == captureAll
      ensures enabled ==> config.redactHeaders == NormaliseRedactHeaders(redactHeaders)
      ensures enabled ==>
        var host := hostname(StripTrailingSlashes(serverUrl));
        && config.ignoreHosts == (if AddsServerHost(host, OrEmpty(ignoreHosts))
                                  then OrEmpty(ignoreHosts) + [host.value]
                                  else OrEmpty(ignoreHosts))
        && (host.Some? && host.value != "" ==>
              Occurrences(config.ignoreHosts, host.value)
                == if host.value in OrEmpty(ignoreHosts)
                   then Occurrences(OrEmpty(ignoreHosts), host.value) else 1)
      ensures enabled ==>
        transport.Snapshot() == Transport.Start(old(transport.Snapshot()), config.serverUrl)
    {
      if !enabled {
        return;
      }
      var c := new SmelloConfig(StripTrailingSlashes(serverUrl), OrEmpty(captureHosts),
                                captureAll, OrEmpty(ignoreHosts),
                                NormaliseRedactHeaders(redactHeaders));
      config := c;

      var serverHost := hostname(c.serverUrl);
      if serverHost.Some? && serverHost.value != "" && serverHost.value !in c.ignoreHosts {
        OccurrencesAppend(c.ignoreHosts, serverHost.value, serverHost.value);
        c.ignoreHosts := c.ignoreHosts + [serverHost.value];
      }

      transport.StartWorker(c.serverUrl);
    }
  }
}
