# goacors CORS middleware: a verified model

This project models the decision engine of the goacors middleware, which
enforces Cross-Origin Resource Sharing for goa services. It has two parts.

- **Origin echo selection** (`matcher.go`). `innerMatcher` compares one
  allow-list entry with the raw `Origin` header. The entry `"*"` admits every
  origin. With credentials allowed and a non-empty origin, it echoes that
  origin instead of the literal `*`. `findMatchedOrigin` scans the allow-list
  in order and returns the first hit, or `("", false)` when nothing matches.
- **The request filter** (`cors.go`). `WithConfig` runs once. It falls back to
  the default configuration, joins the methods, headers and expose-headers
  lists with `", "`, spells a positive max-age in decimal, and panics on an
  unknown domain strategy. Each request is then handled in one of three ways:
  - it is skipped;
  - it takes the actual-request path, which writes `Vary`, allow-origin,
    credentials and expose-headers, and then runs the next handler;
  - it takes the preflight (`OPTIONS`) path, which writes `Vary`,
    allow-origin, allow-methods, credentials, allow-headers and max-age, and
    ends the request with 204 without running the next handler.

Modules: `Wrappers` (Option, Result), `Http` (the header map with Go's `Add`,
`Set` and `Get`, the request record, and a `ResponseWriter` class whose header
map and status are updated in place), `Values` (the header names, the
`DomainStrategy` constants and the `Config` record of values.go), `Text`
(stand-ins for `strings.Join` and `strconv.Itoa`), `Matcher` and `Cors`.

`Cors.Decide` describes the per-request closure as a pure function from the
response headers before it to an `Outcome`: the headers after it, the status
it writes, and whether `next` runs. `Cors.Serve` is the same closure written
imperatively against a `ResponseWriter`, as `h.Add`/`h.Set` calls in the
source's order, and it is proved to produce exactly `Decide`'s outcome.

The strict and intermediate origin matchers are not part of this model. The
closure therefore takes its origin matcher as a parameter (`OriginMatcher`).
The request-level guarantees that depend on the matcher are proved for
`Cors.ScanMatcher`, which is matcher.go's `findMatchedOrigin` with the
configured credentials flag.

Three behaviours of the code differ from what a CORS filter is commonly
expected to do. The model keeps the code's behaviour:
- On the actual-request path, `Access-Control-Allow-Origin` is set even when
  the matched value is empty (cors.go:62). The header then holds `""`; it is
  not omitted.
- With the allow-list `["*"]`, credentials on and an empty `Origin`, the echo
  value is the literal `*` (matcher.go:16-17, cors_test.go:29). No rule
  withholds it.
- Expose-headers and allow-headers are written when their joined string is
  non-empty, not merely when a list is configured. A list holding one empty
  string writes nothing (`Cors.ExposeHeadersPresence`).

## Model

| member | source | states |
|---|---|---|
| `Matcher.InnerMatcher` | matcher.go:12-20 | An entry admits the origin iff it is `"*"` or equal to the origin. An admitted origin echoes either the origin or the entry. Under credentials, a present origin is always echoed as itself. Any echo other than the origin is `"*"` with credentials off or an empty origin. No match gives `""`. |
| `Matcher.WildcardWithCredentialsEchoesOrigin` | matcher.go:13-15 | Entry `"*"`, credentials on, non-empty origin: the result is `(origin, true)`. |
| `Matcher.WildcardEchoesWildcard` | matcher.go:16-17 | Entry `"*"` with credentials off or an empty origin: the result is `("*", true)`. |
| `Matcher.LiteralEntryMatchesExactly` | matcher.go:16-19 | An entry other than `"*"` admits the origin iff it equals the origin exactly, and then echoes itself. |
| `Matcher.FirstMatch` | matcher.go:3-10 | The scan finds nothing iff no entry admits the origin, and then returns `""`. A hit echoes the origin or an element of the list. |
| `Matcher.FirstMatchIsFirst` | matcher.go:4-7 | A successful scan returns exactly `innerMatcher`'s result for the first admitting entry; no earlier entry admits the origin. |
| `Matcher.LaterEntriesIgnored` | matcher.go:4-7 | Once a prefix of the list admits the origin, appending further entries does not change the result. |
| `Matcher.WildcardAlwaysFound` | matcher.go:3-17 | A list containing `"*"` reports `found` for every origin, with or without credentials. |
| `Matcher.EchoIsOriginUnlessWildcard` | matcher.go:12-20 | An echo value other than `""` and `"*"` is always the request's own origin string. |
| `Matcher.FindMatchedOrigin` | matcher.go:3-10 | The loop returns the first admitting entry's result, and that entry is the first match; with no match it returns `("", false)`, and no entry admits the origin. It agrees with `FirstMatch`. |
| `Text.Join` | cors.go:28-30 | Joining nothing gives `""` and joining one element gives that element. With two or more, the result starts with the first element followed by the separator. |
| `Text.JoinEmptyIff` | cors.go:66-68 | With a non-empty separator, the join is empty iff the list is empty or holds a single empty string. |
| `Text.JoinMethodsExample` | cors.go:28 | Three methods join to `"GET, HEAD, POST"`. |
| `Text.Itoa` | cors.go:33 | The decimal spelling is non-empty, all digits, and starts with `0` only for zero. |
| `Text.ItoaRoundTrip` | cors.go:32-34 | Reading the decimal spelling back gives the number. |
| `Text.ItoaInjective` | cors.go:32-34 | Two numbers with the same spelling are equal. |
| `Text.ItoaExample` | cors_test.go:140 | 3600 is spelled `"3600"`. |
| `Http.HeaderUpdates` | cors.go:61-62 | `Add` appends to the key's values and `Set` makes the value its only value, so `Get` returns it; both leave every other header unchanged. |
| `Cors.EffectiveConfig` | cors.go:20-27 | A missing configuration is replaced by the defaults. An empty allow-list is replaced by the defaults' allow-list; it stays empty only if both are empty. Every other field is kept. |
| `Cors.WithConfig` | cors.go:19-44 | Construction fails, carrying the strategy value, iff the strategy is neither `AllowStrict` nor `AllowIntermediateMatch`. Otherwise the middleware holds the joined lists, the max-age string, the credentials flag, the allow-list, the skipper and the corresponding strategy. |
| `Cors.MaxAgeSpelling` | cors.go:31-34 | The max-age string is non-empty iff `MaxAge > 0`. It is then all digits, does not start with `0`, and reads back as `MaxAge`. |
| `Cors.ExposeHeadersPresence` | cors.go:30 | The expose-headers string is non-empty iff the list has two or more entries or a single non-empty one. |
| `Cors.AllowHeadersPresence` | cors.go:29 | The same holds for the configured allow-headers string. |
| `Cors.CorsHeadersDistinct` | values.go:9-27 | The seven response header names the middleware writes are pairwise distinct. |
| `Cors.Decide` | cors.go:46-96 | `next` runs iff the request is skipped or is not `OPTIONS`. Status 204 is written exactly when `next` does not run. A skipped request leaves the headers as they were. |
| `Cors.ActualHeadersFrame` | cors.go:59-70 | The actual-request path adds no key outside the CORS response headers and changes no other header. |
| `Cors.PreflightHeadersFrame` | cors.go:72-92 | The preflight path adds no key outside the CORS response headers and changes no other header. |
| `Cors.OnlyCorsHeadersTouched` | cors.go:46-96 | On every path, every header outside the CORS response headers keeps its presence and values. |
| `Cors.SkippedRequest` | cors.go:49-51 | A skipped request touches no header, writes no status and runs `next`. |
| `Cors.ActualRequest` | cors.go:59-70 | On a non-`OPTIONS` request, `Origin` is appended to `Vary` and allow-origin is set to the matched value, even when empty. Credentials are granted iff credentials are on and the value is neither `""` nor `"*"`. Expose-headers is set iff its join is non-empty. The preflight-only headers are untouched and `next` runs. |
| `Cors.PreflightRequest` | cors.go:72-80 | On `OPTIONS`, `Vary` gains `Origin`, `Access-Control-Request-Method` and `Access-Control-Request-Headers`, in that order. Allow-origin and allow-methods are set. Credentials follow the same rule as on the actual path. Status 204 is written and `next` does not run. |
| `Cors.PreflightOptionalHeaders` | cors.go:81-92 | On `OPTIONS`, allow-headers is the configured join if non-empty, else the request's `Access-Control-Request-Headers` if non-empty, else untouched. Max-age is set iff its string is non-empty. Expose-headers is untouched. |
| `Cors.CredentialsOnlyForOwnOrigin` | cors.go:63-65 | With the concrete matcher, whenever credentials are granted the allow-origin value is the request's own non-empty origin: never `*` and never another allow-list entry. |
| `Cors.WildcardWithCredentials` | cors.go:57-64 | With `"*"` allowed, credentials on and an origin sent, the origin is echoed. Credentials are granted unless that origin is itself `"*"`. |
| `Cors.UnlistedOriginGetsEmptyEcho` | cors.go:57-63 | An origin absent from an allow-list without `"*"` gets an empty allow-origin value and no credentials. |
| `Cors.Serve` | cors.go:46-96 | The imperative closure leaves the response headers exactly as `Decide` computes them. It writes 204 exactly on the preflight path, runs `next` exactly when `Decide` says so, and returns `next`'s result then and `nil` otherwise. |
| `Cors.EmptyOriginWithWildcard` | cors_test.go:11-31 | With allow-list `["*"]`, credentials on and an empty `Origin`, allow-origin is `*`, credentials are not granted and `next` runs. |
| `Cors.AlwaysSkip` | cors_test.go:179-203 | A skipper that always returns true leaves allow-origin as it was and runs `next`. |

`Cors.PreflightExample` is a client method that has no contract. It follows
cors_test.go:108-154 through `WithConfig` and `Serve`: an allowed origin, six
methods, max-age 3600, credentials on, and the request's own requested
headers. The results it asserts are 204, the joined methods, `"true"`,
`"3600"` and `"X-OriginalRequest"`.

## Left out

- The goa framework: `goa.Service`, `goa.Middleware`, `goa.Handler`,
  `context.Context` and `service.Send`. The request is a record holding the
  method and the header map. The response is a header map plus a status.
- `next` is represented only by the value it returns. Whatever it writes to
  the response is not modelled.
- The strict and intermediate origin matchers, `parseOrigin` and `match`
  (cors.go:37-44). Their source is not part of this model, so the closure
  takes the matcher as a parameter. Construction keeps only which strategy
  was chosen, so any panic their construction may raise is not modelled.
- `DefaultConfig` is not part of this model; `WithConfig` takes it as the
  parameter `defaults`. `New` (cors.go:14-16) is `WithConfig` with no
  configuration, which is `WithConfig(None, defaults)` here.
- `WithConfig` writes the default allow-list back into the caller's `Config`.
  The closure also reads `conf.AllowOrigins` and `conf.AllowCredentials`
  through the pointer on every request. The model uses value semantics: the
  values seen at construction are captured, and later changes by the caller
  are not seen.
- The skipper is a pure predicate on the request. In the source it also
  receives the context and the response writer, and its side effects are not
  modelled.
- `strings.Join` and `strconv.Itoa` are written as plain Dafny functions.
  `Itoa` is defined for non-negative numbers only, because it is called only
  when `MaxAge > 0`. Go's `int` is unbounded here; no width matters because
  the value is only printed.
- Header-key canonicalisation (`CanonicalMIMEHeaderKey`). All keys written
  are already canonical, and request headers are looked up by the exact key.
- `WriteHeader`'s interaction with a status or body already written, and the
  empty body of the 204 response: the model records only the status code.
- values.go's `HeaderContentType` is used only by the example. The
  `Skipper` type's context and writer arguments are dropped, as noted above.
