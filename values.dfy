/** Header names, the domain-matching strategy enumeration and the
    configuration record of the CORS middleware (values.go). */
module Values {
  import opened Wrappers
  import opened Http

  const HeaderVary: string := "Vary"
  const HeaderOrigin: string := "Origin"
  const HeaderAccessControlRequestMethod: string := "Access-Control-Request-Method"
  const HeaderAccessControlRequestHeaders: string := "Access-Control-Request-Headers"
  const HeaderAccessControlAllowOrigin: string := "Access-Control-Allow-Origin"
  const HeaderAccessControlAllowMethods: string := "Access-Control-Allow-Methods"
  const HeaderAccessControlAllowHeaders: string := "Access-Control-Allow-Headers"
  const HeaderAccessControlAllowCredentials: string := "Access-Control-Allow-Credentials"
  const HeaderAccessControlExposeHeaders: string := "Access-Control-Expose-Headers"
  const HeaderAccessControlMaxAge: string := "Access-Control-Max-Age"
  const HeaderContentType: string := "Content-Type"

  /** Go declares `DomainStrategy` as a plain `int`, so a configuration may
      carry any integer; only the two constants below are meaningful. */
  type DomainStrategy = int

  const AllowStrict: DomainStrategy := 0
  const AllowIntermediateMatch: DomainStrategy := 1

  /** Decides whether the middleware is skipped for a request. */
  type Skipper = Request -> bool

  datatype Config = Config(
    skipper: Option<Skipper>,
    domainStrategy: DomainStrategy,
    allowOrigins: seq<string>,
    allowMethods: seq<string>,
    allowHeaders: seq<string>,
    allowCredentials: bool,
    exposeHeaders: seq<string>,
    maxAge: int)
}
