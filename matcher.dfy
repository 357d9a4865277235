/** Origin echo selection (matcher.go): which value, if any, an allow-list
    lets the middleware echo back in `Access-Control-Allow-Origin`. */
module Matcher {

  /** The allow-list entry that admits every origin. */
  const Wildcard: string := "*"

  /** `innerMatcher`: compare one allow-list entry with the raw `Origin`
      value. An entry admits the origin when it is the wildcard or the very
      same string; the value to echo is then the origin or the entry, and
      under credentials a present origin is echoed instead of the wildcard. */
  function InnerMatcher(allowedOrigin: string, origin: string, allowCredentials: bool): (r: (string, bool))
    ensures r.1 <==> (allowedOrigin == Wildcard || allowedOrigin == origin)
    ensures !r.1 ==> r.0 == ""
    ensures r.1 ==> r.0 == origin || r.0 == allowedOrigin
    ensures r.1 && allowCredentials && origin != "" ==> r.0 == origin
    ensures r.0 != origin ==> r.0 == "" || (r.0 == Wildcard && (!allowCredentials || origin == ""))
  {
    if allowedOrigin == Wildcard && allowCredentials && origin != "" then (origin, true)
    else if allowedOrigin == Wildcard || allowedOrigin == origin then (allowedOrigin, true)
    else ("", false)
  }

  /** The wildcard entry with credentials allowed and an origin present
      echoes that origin, never the literal wildcard. */
  lemma WildcardWithCredentialsEchoesOrigin(origin: string)
    requires origin != ""
    ensures InnerMatcher(Wildcard, origin, true) == (origin, true)
  {
  }

  /** The wildcard entry without credentials, or with no origin sent,
      echoes the literal wildcard. */
  lemma WildcardEchoesWildcard(origin: string, allowCredentials: bool)
    requires !allowCredentials || origin == ""
    ensures InnerMatcher(Wildcard, origin, allowCredentials) == (Wildcard, true)
  {
  }

  /** Any other entry admits exactly the origin it spells, and echoes itself. */
  lemma LiteralEntryMatchesExactly(allowedOrigin: string, origin: string, allowCredentials: bool)
    requires allowedOrigin != Wildcard
    ensures InnerMatcher(allowedOrigin, origin, allowCredentials).1 <==> allowedOrigin == origin
    ensures allowedOrigin == origin ==> InnerMatcher(allowedOrigin, origin, allowCredentials).0 == allowedOrigin
  {
  }

  /** Entry `i` is the first one of the list that admits the origin. */
  ghost predicate IsFirstMatch(allowedOrigins: seq<string>, origin: string, allowCredentials: bool, i: int)
  {
    && 0 <= i < |allowedOrigins|
    && InnerMatcher(allowedOrigins[i], origin, allowCredentials).1
    && forall j :: 0 <= j < i ==> !InnerMatcher(allowedOrigins[j], origin, allowCredentials).1
  }

  /** The value of `findMatchedOrigin`: the result for the first entry that
      admits the origin, or `("", false)` when none does. */
  function FirstMatch(allowedOrigins: seq<string>, origin: string, allowCredentials: bool): (r: (string, bool))
    ensures !r.1 ==> r.0 == ""
    ensures !r.1 <==> forall i :: 0 <= i < |allowedOrigins| ==> !InnerMatcher(allowedOrigins[i], origin, allowCredentials).1
    ensures r.1 ==> r.0 == origin || r.0 in allowedOrigins
  {
    if |allowedOrigins| == 0 then ("", false)
    else
      var m := InnerMatcher(allowedOrigins[0], origin, allowCredentials);
      if m.1 then m
      else
        var rest := FirstMatch(allowedOrigins[1..], origin, allowCredentials);
        assert forall i :: 1 <= i < |allowedOrigins| ==> allowedOrigins[i] == allowedOrigins[1..][i - 1];
        rest
  }

  /** A successful scan reports exactly the result of the first admitting entry. */
  lemma {:induction false} FirstMatchIsFirst(allowedOrigins: seq<string>, origin: string, allowCredentials: bool)
    ensures FirstMatch(allowedOrigins, origin, allowCredentials).1 ==>
      exists i :: IsFirstMatch(allowedOrigins, origin, allowCredentials, i)
        && FirstMatch(allowedOrigins, origin, allowCredentials) == InnerMatcher(allowedOrigins[i], origin, allowCredentials)
  {
    if |allowedOrigins| > 0 && !InnerMatcher(allowedOrigins[0], origin, allowCredentials).1 {
      var rest := allowedOrigins[1..];
      FirstMatchIsFirst(rest, origin, allowCredentials);
      if FirstMatch(rest, origin, allowCredentials).1 {
        var i :| IsFirstMatch(rest, origin, allowCredentials, i)
          && FirstMatch(rest, origin, allowCredentials) == InnerMatcher(rest[i], origin, allowCredentials);
        assert IsFirstMatch(allowedOrigins, origin, allowCredentials, i + 1) by {
          forall j | 0 <= j < i + 1
            ensures !InnerMatcher(allowedOrigins[j], origin, allowCredentials).1
          {
            if j > 0 { assert allowedOrigins[j] == rest[j - 1]; }
          }
        }
      }
    } else if |allowedOrigins| > 0 {
      assert IsFirstMatch(allowedOrigins, origin, allowCredentials, 0);
    }
  }

  /** Once a prefix of the list admits the origin, the entries after it are
      never consulted. */
  lemma {:induction false} LaterEntriesIgnored(prefix: seq<string>, rest: seq<string>, origin: string, allowCredentials: bool)
    requires FirstMatch(prefix, origin, allowCredentials).1
    ensures FirstMatch(prefix + rest, origin, allowCredentials) == FirstMatch(prefix, origin, allowCredentials)
  {
    assert (prefix + rest)[0] == prefix[0];
    if !InnerMatcher(prefix[0], origin, allowCredentials).1 {
      LaterEntriesIgnored(prefix[1..], rest, origin, allowCredentials);
      assert (prefix + rest)[1..] == prefix[1..] + rest;
    }
  }

  /** A list holding the wildcard admits every origin. */
  lemma WildcardAlwaysFound(allowedOrigins: seq<string>, origin: string, allowCredentials: bool)
    requires Wildcard in allowedOrigins
    ensures FirstMatch(allowedOrigins, origin, allowCredentials).1
  {
    var i :| 0 <= i < |allowedOrigins| && allowedOrigins[i] == Wildcard;
    assert InnerMatcher(allowedOrigins[i], origin, allowCredentials).1;
  }

  /** An echo value other than "" and the wildcard is always the request's
      own origin: a literal entry is echoed only when it equals the origin. */
  lemma EchoIsOriginUnlessWildcard(allowedOrigins: seq<string>, origin: string, allowCredentials: bool)
    ensures var r := FirstMatch(allowedOrigins, origin, allowCredentials);
      r.0 != "" && r.0 != Wildcard ==> r.0 == origin
  {
    FirstMatchIsFirst(allowedOrigins, origin, allowCredentials);
  }

  /** `findMatchedOrigin`: scan the allow-list in order and stop at the first
      entry that admits the origin. */
  method FindMatchedOrigin(allowedOrigins: seq<string>, origin: string, allowCredentials: bool)
    returns (foundOne: string, found: bool)
    ensures (foundOne, found) == FirstMatch(allowedOrigins, origin, allowCredentials)
    ensures found ==> (exists i :: IsFirstMatch(allowedOrigins, origin, allowCredentials, i)
                                && (foundOne, found) == InnerMatcher(allowedOrigins[i], origin, allowCredentials))
    ensures !found ==> (foundOne == ""
                        && forall i :: 0 <= i < |allowedOrigins| ==> !InnerMatcher(allowedOrigins[i], origin, allowCredentials).1)
  {
    FirstMatchIsFirst(allowedOrigins, origin, allowCredentials);
    foundOne, found := "", false;
    for i := 0 to |allowedOrigins|
      invariant FirstMatch(allowedOrigins, origin, allowCredentials) == FirstMatch(allowedOrigins[i..], origin, allowCredentials)
      invariant foundOne == "" && !found
    {
      var m := InnerMatcher(allowedOrigins[i], origin, allowCredentials);
      foundOne, found := m.0, m.1;
      if found {
        return;
      }
      assert allowedOrigins[i..][1..] == allowedOrigins[i + 1..];
    }
  }
}
