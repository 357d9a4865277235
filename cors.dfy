/** The CORS middleware (cors.go): configuration is validated and its derived
    header values are computed once by `WithConfig`; each request then either
    skips the middleware, takes the actual-request path, or takes the
    preflight path, which answers by itself with 204 No Content. */
module Cors {
  import opened Wrappers
  import opened Http
  import opened Values
  import Text
  import Matcher

  /** The separator `strings.Join` is called with for every header list. */
  const ListSeparator: string := ", "

  /** The two domain strategies construction accepts. */
  datatype Strategy = Strict | Intermediate

  /** The construction failure (a panic in the source). */
  datatype ConfigError = InvalidDomainStrategy(strategy: DomainStrategy)

  /** `OriginMatcher.FindMatchedOrigin`: given the allow-list and the raw
      `Origin` value, the value to echo and whether the origin is allowed.
      The strict and intermediate matchers behind it are parameters of this
      model; `ScanMatcher` is the concrete matcher of matcher.go. */
  type OriginMatcher = (seq<string>, string) -> (string, bool)

  /** `findMatchedOrigin` with the configured credentials flag. */
  function ScanMatcher(allowCredentials: bool): OriginMatcher
  {
    (origins: seq<string>, origin: string) => Matcher.FirstMatch(origins, origin, allowCredentials)
  }

  /** What the closure returned by `WithConfig` captures. */
  datatype Middleware = Middleware(
    skipper: Option<Skipper>,
    strategy: Strategy,
    allowOrigins: seq<string>,
    allowCredentials: bool,
    allowMethods: string,
    allowHeaders: string,
    exposeHeaders: string,
    maxAge: string)

  /** The configuration `WithConfig` works from: the given one, or the
      defaults when none is given, with the defaults' allow-list standing in
      for an empty one. */
  function EffectiveConfig(conf: Option<Config>, defaults: Config): (c: Config)
    ensures conf.None? ==> c == defaults.(allowOrigins := c.allowOrigins)
    ensures conf.Some? ==> c == conf.value.(allowOrigins := c.allowOrigins)
    ensures |c.allowOrigins| == 0 <==> |conf.GetOr(defaults).allowOrigins| == 0 && |defaults.allowOrigins| == 0
    ensures |conf.GetOr(defaults).allowOrigins| > 0 ==> c.allowOrigins == conf.GetOr(defaults).allowOrigins
    ensures |conf.GetOr(defaults).allowOrigins| == 0 ==> c.allowOrigins == defaults.allowOrigins
  {
    var base := conf.GetOr(defaults);
    if |base.allowOrigins| == 0 then base.(allowOrigins := defaults.allowOrigins) else base
  }

  /** `mw` holds the values `WithConfig` derives from the configuration `c`. */
  ghost predicate BuiltFrom(mw: Middleware, c: Config)
  {
    && mw.skipper == c.skipper
    && (mw.strategy == Strict <==> c.domainStrategy == AllowStrict)
    && (mw.strategy == Intermediate <==> c.domainStrategy == AllowIntermediateMatch)
    && mw.allowOrigins == c.allowOrigins
    && mw.allowCredentials == c.allowCredentials
    && mw.allowMethods == Text.Join(c.allowMethods, ListSeparator)
    && mw.allowHeaders == Text.Join(c.allowHeaders, ListSeparator)
    && mw.exposeHeaders == Text.Join(c.exposeHeaders, ListSeparator)
    && mw.maxAge == (if c.maxAge > 0 then Text.Itoa(c.maxAge) else "")
  }

  /** `WithConfig`: fall back to the defaults, precompute the joined header
      lists and the max-age spelling, and refuse any strategy other than the
      two known ones. */
  method WithConfig(conf: Option<Config>, defaults: Config) returns (r: Result<Middleware, ConfigError>)
    ensures var c := EffectiveConfig(conf, defaults);
      r.Failure? <==> c.domainStrategy != AllowStrict && c.domainStrategy != AllowIntermediateMatch
    ensures r.Failure? ==> r.error == InvalidDomainStrategy(EffectiveConfig(conf, defaults).domainStrategy)
    ensures r.Success? ==> BuiltFrom(r.value, EffectiveConfig(conf, defaults))
  {
    var c := conf.GetOr(defaults);
    var skipper := c.skipper;
    if |c.allowOrigins| == 0 {
      c := c.(allowOrigins := defaults.allowOrigins);
    }
    var allowMethods := Text.Join(c.allowMethods, ListSeparator);
    var allowHeaders := Text.Join(c.allowHeaders, ListSeparator);
    var exposeHeaders := Text.Join(c.exposeHeaders, ListSeparator);
    var maxAge := "";
    if c.maxAge > 0 {
      maxAge := Text.Itoa(c.maxAge);
    }

    var strategy;
    if c.domainStrategy == AllowIntermediateMatch {
      strategy := Intermediate;
    } else if c.domainStrategy == AllowStrict {
      strategy := Strict;
    } else {
      return Failure(InvalidDomainStrategy(c.domainStrategy));
    }
    r := Success(Middleware(skipper, strategy, c.allowOrigins, c.allowCredentials,
                            allowMethods, allowHeaders, exposeHeaders, maxAge));
  }

  /** The max-age header value is present exactly for a positive `MaxAge`,
      and is then its decimal spelling, never "0". */
  lemma MaxAgeSpelling(mw: Middleware, c: Config)
    requires BuiltFrom(mw, c)
    ensures mw.maxAge != "" <==> c.maxAge > 0
    ensures mw.maxAge != "" ==>
      (forall i :: 0 <= i < |mw.maxAge| ==> Text.IsDigit(mw.maxAge[i]))
      && Text.DecimalValue(mw.maxAge) == c.maxAge
      && mw.maxAge[0] != '0'
  {
    if c.maxAge > 0 {
      Text.ItoaRoundTrip(c.maxAge);
    }
  }

  /** The expose-headers value is non-empty exactly when the configured list
      has two or more entries, or a single non-empty one. */
  lemma ExposeHeadersPresence(mw: Middleware, c: Config)
    requires BuiltFrom(mw, c)
    ensures mw.exposeHeaders != "" <==> |c.exposeHeaders| >= 2 || (|c.exposeHeaders| == 1 && c.exposeHeaders[0] != "")
  {
    Text.JoinEmptyIff(c.exposeHeaders, ListSeparator);
  }

  /** The configured allow-headers value is non-empty exactly when the
      configured list has two or more entries, or a single non-empty one. */
  lemma AllowHeadersPresence(mw: Middleware, c: Config)
    requires BuiltFrom(mw, c)
    ensures mw.allowHeaders != "" <==> |c.allowHeaders| >= 2 || (|c.allowHeaders| == 1 && c.allowHeaders[0] != "")
  {
    Text.JoinEmptyIff(c.allowHeaders, ListSeparator);
  }

  // ---------------------------------------------------------------------
  // The per-request decision

  /** Every response header the middleware may write. */
  const CorsHeaders: set<string> := {
    HeaderVary, HeaderAccessControlAllowOrigin, HeaderAccessControlAllowCredentials,
    HeaderAccessControlExposeHeaders, HeaderAccessControlAllowMethods,
    HeaderAccessControlAllowHeaders, HeaderAccessControlMaxAge
  }

  /** The header names the middleware writes are pairwise distinct, so
      writing one never disturbs another. */
  lemma CorsHeadersDistinct()
    ensures HeaderVary != HeaderAccessControlAllowOrigin
    ensures HeaderVary != HeaderAccessControlAllowCredentials
    ensures HeaderVary != HeaderAccessControlExposeHeaders
    ensures HeaderVary != HeaderAccessControlAllowMethods
    ensures HeaderVary != HeaderAccessControlAllowHeaders
    ensures HeaderVary != HeaderAccessControlMaxAge
    ensures HeaderAccessControlAllowOrigin != HeaderAccessControlAllowCredentials
    ensures HeaderAccessControlAllowOrigin != HeaderAccessControlExposeHeaders
    ensures HeaderAccessControlAllowOrigin != HeaderAccessControlAllowMethods
    ensures HeaderAccessControlAllowOrigin != HeaderAccessControlAllowHeaders
    ensures HeaderAccessControlAllowOrigin != HeaderAccessControlMaxAge
    ensures HeaderAccessControlAllowCredentials != HeaderAccessControlExposeHeaders
    ensures HeaderAccessControlAllowCredentials != HeaderAccessControlAllowMethods
    ensures HeaderAccessControlAllowCredentials != HeaderAccessControlAllowHeaders
    ensures HeaderAccessControlAllowCredentials != HeaderAccessControlMaxAge
    ensures HeaderAccessControlExposeHeaders != HeaderAccessControlAllowMethods
    ensures HeaderAccessControlExposeHeaders != HeaderAccessControlAllowHeaders
    ensures HeaderAccessControlExposeHeaders != HeaderAccessControlMaxAge
    ensures HeaderAccessControlAllowMethods != HeaderAccessControlAllowHeaders
    ensures HeaderAccessControlAllowMethods != HeaderAccessControlMaxAge
    ensures HeaderAccessControlAllowHeaders != HeaderAccessControlMaxAge
  {
    assert |HeaderVary| == 4 && |HeaderAccessControlMaxAge| == 22;
    assert |HeaderAccessControlAllowOrigin| == 27 && |HeaderAccessControlAllowMethods| == 28;
    assert |HeaderAccessControlAllowHeaders| == 28 && |HeaderAccessControlExposeHeaders| == 29;
    assert |HeaderAccessControlAllowCredentials| == 32;
    assert HeaderAccessControlAllowMethods[21] != HeaderAccessControlAllowHeaders[21];
  }

  /** The skipper is set and asks to skip this request. */
  predicate Skipped(mw: Middleware, req: Request)
  {
    mw.skipper.Some? && mw.skipper.value(req)
  }

  /** The value the matcher selects for `Access-Control-Allow-Origin`. */
  function EchoValue(mw: Middleware, om: OriginMatcher, req: Request): string
  {
    om(mw.allowOrigins, Get(req.header, HeaderOrigin)).0
  }

  /** `Access-Control-Allow-Credentials: true` is sent for this echo value. */
  predicate CredentialsAllowed(mw: Middleware, echo: string)
  {
    mw.allowCredentials && echo != Matcher.Wildcard && echo != ""
  }

  /** `Set` under a condition; a header not named `key` is never affected. */
  function SetWhen(h: Header, cond: bool, key: string, value: string): Header
  {
    if cond then Set(h, key, value) else h
  }

  /** The allow-headers value of a preflight response, "" for none: the
      configured list when it is non-empty, else the request's own
      `Access-Control-Request-Headers`. */
  function AllowHeadersValue(mw: Middleware, req: Request): string
  {
    if mw.allowHeaders != "" then mw.allowHeaders
    else Get(req.header, HeaderAccessControlRequestHeaders)
  }

  /** The headers of an actual (non-`OPTIONS`) request. */
  function ActualHeaders(mw: Middleware, echo: string, h: Header): Header
  {
    var h1 := Add(h, HeaderVary, HeaderOrigin);
    var h2 := Set(h1, HeaderAccessControlAllowOrigin, echo);
    var h3 := SetWhen(h2, CredentialsAllowed(mw, echo), HeaderAccessControlAllowCredentials, "true");
    SetWhen(h3, mw.exposeHeaders != "", HeaderAccessControlExposeHeaders, mw.exposeHeaders)
  }

  /** The headers of a preflight (`OPTIONS`) request. */
  function PreflightHeaders(mw: Middleware, echo: string, req: Request, h: Header): Header
  {
    var h1 := Add(h, HeaderVary, HeaderOrigin);
    var h2 := Add(h1, HeaderVary, HeaderAccessControlRequestMethod);
    var h3 := Add(h2, HeaderVary, HeaderAccessControlRequestHeaders);
    var h4 := Set(h3, HeaderAccessControlAllowOrigin, echo);
    var h5 := Set(h4, HeaderAccessControlAllowMethods, mw.allowMethods);
    var h6 := SetWhen(h5, CredentialsAllowed(mw, echo), HeaderAccessControlAllowCredentials, "true");
    var allowHeaders := AllowHeadersValue(mw, req);
    var h7 := SetWhen(h6, allowHeaders != "", HeaderAccessControlAllowHeaders, allowHeaders);
    SetWhen(h7, mw.maxAge != "", HeaderAccessControlMaxAge, mw.maxAge)
  }

  /** What one request does to the response: its headers, the status the
      middleware writes (if any), and whether the next handler runs. */
  datatype Outcome = Outcome(header: Header, status: Option<int>, nextCalled: bool)

  /** The per-request closure as a function of the response headers before it. */
  function Decide(mw: Middleware, om: OriginMatcher, req: Request, h: Header): (o: Outcome)
    ensures o.nextCalled <==> Skipped(mw, req) || req.httpMethod != MethodOptions
    ensures o.status == if o.nextCalled then None else Some(StatusNoContent)
    ensures Skipped(mw, req) ==> o.header == h
  {
    if Skipped(mw, req) then Outcome(h, None, true)
    else
      var echo := EchoValue(mw, om, req);
      if req.httpMethod != MethodOptions then Outcome(ActualHeaders(mw, echo, h), None, true)
      else Outcome(PreflightHeaders(mw, echo, req, h), Some(StatusNoContent), false)
  }

  /** The actual-request path writes only headers in `CorsHeaders`. */
  lemma ActualHeadersFrame(mw: Middleware, echo: string, h: Header)
    ensures var r := ActualHeaders(mw, echo, h);
      && r.Keys <= h.Keys + CorsHeaders
      && forall k :: k !in CorsHeaders ==> KeptAs(h, r, k)
  {
  }

  /** The preflight path writes only headers in `CorsHeaders`. */
  lemma PreflightHeadersFrame(mw: Middleware, echo: string, req: Request, h: Header)
    ensures var r := PreflightHeaders(mw, echo, req, h);
      && r.Keys <= h.Keys + CorsHeaders
      && forall k :: k !in CorsHeaders ==> KeptAs(h, r, k)
  {
  }

  /** The middleware writes no header outside `CorsHeaders`: every other
      header of the response is left exactly as it was. */
  lemma OnlyCorsHeadersTouched(mw: Middleware, om: OriginMatcher, req: Request, h: Header)
    ensures var o := Decide(mw, om, req, h);
      && o.header.Keys <= h.Keys + CorsHeaders
      && forall k :: k !in CorsHeaders ==> KeptAs(h, o.header, k)
  {
    if !Skipped(mw, req) {
      ActualHeadersFrame(mw, EchoValue(mw, om, req), h);
      PreflightHeadersFrame(mw, EchoValue(mw, om, req), req, h);
    }
  }

  /** A skipped request leaves the response untouched and runs the next handler. */
  lemma SkippedRequest(mw: Middleware, om: OriginMatcher, req: Request, h: Header)
    requires Skipped(mw, req)
    ensures Decide(mw, om, req, h) == Outcome(h, None, true)
  {
  }

  /** An actual request varies on `Origin`, always sets the allow-origin
      header (empty or not), sets credentials and expose-headers under their
      conditions, touches nothing preflight-only, and runs the next handler. */
  lemma ActualRequest(mw: Middleware, om: OriginMatcher, req: Request, h: Header)
    requires !Skipped(mw, req) && req.httpMethod != MethodOptions
    ensures var o := Decide(mw, om, req, h);
      var echo := EchoValue(mw, om, req);
      && o.nextCalled && o.status == None
      && HeaderValues(o.header, HeaderVary) == HeaderValues(h, HeaderVary) + [HeaderOrigin]
      && SetTo(o.header, HeaderAccessControlAllowOrigin, echo)
      && (if CredentialsAllowed(mw, echo) then SetTo(o.header, HeaderAccessControlAllowCredentials, "true")
          else KeptAs(h, o.header, HeaderAccessControlAllowCredentials))
      && (if mw.exposeHeaders != "" then SetTo(o.header, HeaderAccessControlExposeHeaders, mw.exposeHeaders)
          else KeptAs(h, o.header, HeaderAccessControlExposeHeaders))
      && KeptAs(h, o.header, HeaderAccessControlAllowMethods)
      && KeptAs(h, o.header, HeaderAccessControlAllowHeaders)
      && KeptAs(h, o.header, HeaderAccessControlMaxAge)
  {
  }

  /** A preflight request varies on the origin and the two request headers,
      in that order, sets allow-origin (empty or not) and allow-methods, sets
      credentials under the same condition as an actual request, and ends
      with 204 without running the next handler. */
  lemma PreflightRequest(mw: Middleware, om: OriginMatcher, req: Request, h: Header)
    requires !Skipped(mw, req) && req.httpMethod == MethodOptions
    ensures var o := Decide(mw, om, req, h);
      var echo := EchoValue(mw, om, req);
      && !o.nextCalled && o.status == Some(StatusNoContent)
      && HeaderValues(o.header, HeaderVary) == HeaderValues(h, HeaderVary)
           + [HeaderOrigin, HeaderAccessControlRequestMethod, HeaderAccessControlRequestHeaders]
      && SetTo(o.header, HeaderAccessControlAllowOrigin, echo)
      && SetTo(o.header, HeaderAccessControlAllowMethods, mw.allowMethods)
      && (if CredentialsAllowed(mw, echo) then SetTo(o.header, HeaderAccessControlAllowCredentials, "true")
          else KeptAs(h, o.header, HeaderAccessControlAllowCredentials))
  {
  }

  /** On a preflight request allow-headers is the configured list if
      non-empty, else the request's own requested headers if non-empty, else
      left alone; max-age is set only when configured; expose-headers is
      never touched. */
  lemma PreflightOptionalHeaders(mw: Middleware, om: OriginMatcher, req: Request, h: Header)
    requires !Skipped(mw, req) && req.httpMethod == MethodOptions
    ensures var o := Decide(mw, om, req, h);
      var requested := Get(req.header, HeaderAccessControlRequestHeaders);
      && (if mw.allowHeaders != "" then SetTo(o.header, HeaderAccessControlAllowHeaders, mw.allowHeaders)
          else if requested != "" then SetTo(o.header, HeaderAccessControlAllowHeaders, requested)
          else KeptAs(h, o.header, HeaderAccessControlAllowHeaders))
      && (if mw.maxAge != "" then SetTo(o.header, HeaderAccessControlMaxAge, mw.maxAge)
          else KeptAs(h, o.header, HeaderAccessControlMaxAge))
      && KeptAs(h, o.header, HeaderAccessControlExposeHeaders)
  {
  }

  /** With the matcher of matcher.go, credentials are granted only to the
      request's own, non-empty origin, which is then the allow-origin value:
      never the wildcard and never an unrelated allow-list entry. */
  lemma CredentialsOnlyForOwnOrigin(mw: Middleware, req: Request)
    ensures var echo := EchoValue(mw, ScanMatcher(mw.allowCredentials), req);
      CredentialsAllowed(mw, echo) ==> echo == Get(req.header, HeaderOrigin) && echo != ""
  {
    Matcher.EchoIsOriginUnlessWildcard(mw.allowOrigins, Get(req.header, HeaderOrigin), mw.allowCredentials);
  }

  /** With the wildcard allowed, credentials on and an `Origin` sent, the
      request's origin is echoed, and credentials are granted unless that
      origin is itself the string "*". */
  lemma WildcardWithCredentials(mw: Middleware, req: Request)
    requires Matcher.Wildcard in mw.allowOrigins && mw.allowCredentials
    requires Get(req.header, HeaderOrigin) != ""
    ensures var echo := EchoValue(mw, ScanMatcher(mw.allowCredentials), req);
      echo == Get(req.header, HeaderOrigin)
      && (CredentialsAllowed(mw, echo) <==> echo != Matcher.Wildcard)
  {
    var origin := Get(req.header, HeaderOrigin);
    Matcher.WildcardAlwaysFound(mw.allowOrigins, origin, true);
    Matcher.FirstMatchIsFirst(mw.allowOrigins, origin, true);
  }

  /** An origin that no allow-list entry admits gets an empty allow-origin
      value and no credentials. */
  lemma UnlistedOriginGetsEmptyEcho(mw: Middleware, req: Request)
    requires Matcher.Wildcard !in mw.allowOrigins
    requires Get(req.header, HeaderOrigin) !in mw.allowOrigins
    ensures var echo := EchoValue(mw, ScanMatcher(mw.allowCredentials), req);
      echo == "" && !CredentialsAllowed(mw, echo)
  {
  }

  /** The per-request closure: skip, or write the headers of the actual or
      the preflight path into `rw`, exactly as `Decide` describes. `next` is
      represented by the value it returns when it is called. */
  method Serve(mw: Middleware, om: OriginMatcher, req: Request, rw: ResponseWriter, nextResult: Option<Error>)
    returns (err: Option<Error>, nextCalled: bool)
    modifies rw
    ensures rw.header == Decide(mw, om, req, old(rw.header)).header
    ensures nextCalled == Decide(mw, om, req, old(rw.header)).nextCalled
    ensures rw.status == if nextCalled then old(rw.status) else Some(StatusNoContent)
    ensures err == if nextCalled then nextResult else None
  {
    if mw.skipper.Some? && mw.skipper.value(req) {
      return nextResult, true;
    }

    var origin := Get(req.header, HeaderOrigin);
    var allowedOrigin := om(mw.allowOrigins, origin).0;

    if req.httpMethod != MethodOptions {
      rw.AddHeader(HeaderVary, HeaderOrigin);
      rw.SetHeader(HeaderAccessControlAllowOrigin, allowedOrigin);
      if mw.allowCredentials && allowedOrigin != Matcher.Wildcard && allowedOrigin != "" {
        rw.SetHeader(HeaderAccessControlAllowCredentials, "true");
      }
      if mw.exposeHeaders != "" {
        rw.SetHeader(HeaderAccessControlExposeHeaders, mw.exposeHeaders);
      }
      assert rw.header == ActualHeaders(mw, allowedOrigin, old(rw.header));
      return nextResult, true;
    }

    rw.AddHeader(HeaderVary, HeaderOrigin);
    rw.AddHeader(HeaderVary, HeaderAccessControlRequestMethod);
    rw.AddHeader(HeaderVary, HeaderAccessControlRequestHeaders);
    rw.SetHeader(HeaderAccessControlAllowOrigin, allowedOrigin);
    rw.SetHeader(HeaderAccessControlAllowMethods, mw.allowMethods);
    if mw.allowCredentials && allowedOrigin != Matcher.Wildcard && allowedOrigin != "" {
      rw.SetHeader(HeaderAccessControlAllowCredentials, "true");
    }
    if mw.allowHeaders != "" {
      rw.SetHeader(HeaderAccessControlAllowHeaders, mw.allowHeaders);
    } else {
      var header := Get(req.header, HeaderAccessControlRequestHeaders);
      if header != "" {
        rw.SetHeader(HeaderAccessControlAllowHeaders, header);
      }
    }
    if mw.maxAge != "" {
      rw.SetHeader(HeaderAccessControlMaxAge, mw.maxAge);
    }
    assert rw.header == PreflightHeaders(mw, allowedOrigin, req, old(rw.header));
    rw.WriteHeader(StatusNoContent);
    return None, false;
  }

  // ---------------------------------------------------------------------
  // Worked examples

  /** With the wildcard allowed and credentials on, a request that sends an
      empty `Origin` gets the literal wildcard back and no credentials. */
  lemma EmptyOriginWithWildcard(mw: Middleware, h: Header)
    requires mw.allowOrigins == [Matcher.Wildcard] && mw.allowCredentials && mw.skipper.None?
    ensures var req := Request("GET", map[HeaderOrigin := [""]]);
      var o := Decide(mw, ScanMatcher(true), req, h);
      && Get(o.header, HeaderAccessControlAllowOrigin) == Matcher.Wildcard
      && KeptAs(h, o.header, HeaderAccessControlAllowCredentials)
      && o.nextCalled
  {
    var req := Request("GET", map[HeaderOrigin := [""]]);
    assert Get(req.header, HeaderOrigin) == "";
    assert Matcher.InnerMatcher(Matcher.Wildcard, "", true) == (Matcher.Wildcard, true);
    ActualRequest(mw, ScanMatcher(true), req, h);
  }

  /** A skipper that always asks to skip leaves the response untouched,
      whatever the request, and runs the next handler. */
  lemma AlwaysSkip(mw: Middleware, om: OriginMatcher, req: Request, h: Header)
    requires mw.skipper == Some((r: Request) => true)
    ensures Get(Decide(mw, om, req, h).header, HeaderAccessControlAllowOrigin) == Get(h, HeaderAccessControlAllowOrigin)
    ensures Decide(mw, om, req, h).nextCalled
  {
  }

  /** A preflight request from an allowed origin, against a configuration
      with six methods, a max-age of an hour, credentials on and no
      configured allow-headers: the response carries the joined methods, the
      credentials flag, "3600" and the request's own requested headers, and
      ends with 204. */
  method PreflightExample() {
    var conf := Config(None, AllowStrict, ["http://localhost"],
                       ["GET", "HEAD", "PUT", "PATCH", "POST", "DELETE"], [], true, [], 3600);
    var built := WithConfig(Some(conf), conf);
    assert built.Success?;
    var mw := built.value;
    Text.ItoaExample();
    assert mw.allowHeaders == "";

    var req := Request(MethodOptions, map[
      HeaderOrigin := ["http://localhost"],
      HeaderAccessControlRequestHeaders := ["X-OriginalRequest"],
      HeaderContentType := ["application/json"]]);
    assert Get(req.header, HeaderOrigin) == "http://localhost";
    assert Get(req.header, HeaderAccessControlRequestHeaders) == "X-OriginalRequest";

    var rw := new ResponseWriter();
    var err, nextCalled := Serve(mw, ScanMatcher(mw.allowCredentials), req, rw, Some(Error("unreachable")));
    PreflightRequest(mw, ScanMatcher(mw.allowCredentials), req, map[]);
    PreflightOptionalHeaders(mw, ScanMatcher(mw.allowCredentials), req, map[]);
    assert err == None && !nextCalled && rw.status == Some(StatusNoContent);
    assert Get(rw.header, HeaderAccessControlAllowOrigin) == "http://localhost";
    assert Get(rw.header, HeaderAccessControlAllowMethods) == Text.Join(conf.allowMethods, ", ");
    assert Get(rw.header, HeaderAccessControlAllowCredentials) == "true";
    assert Get(rw.header, HeaderAccessControlMaxAge) == "3600";
    assert Get(rw.header, HeaderAccessControlAllowHeaders) == "X-OriginalRequest";
  }
}
