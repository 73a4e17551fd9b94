/**
 * The `protect` middleware: the bearer-token gate in front of every protected
 * route. JWT verification is an oracle `verify` from token text to the claims
 * it carries, None for a bad signature, a malformed token or an expired one.
 */
module AuthGate {
  import opened Wrappers
  import opened JsText
  import opened Records

  const BearerScheme := "Bearer"
  const NoTokenMessage := "Not authorized, no token"
  const TokenFailedMessage := "Not authorized, token failed"

  /**
   * What the middleware does with one request: answer 401 "no token", answer
   * 401 "token failed", answer "token failed" and then try to answer "no token"
   * as well (a second attempt to respond, which Express refuses), or call `next` with
   * `req.user` set to the decoded claims.
   */
  datatype GateOutcome =
    | NoToken
    | TokenFailed
    | TokenFailedThenNoToken
    | Proceed(user: Claims)
  {
    /** Number of times the middleware itself tries to respond. */
    function Responses(): nat {
      match this
      case NoToken => 1
      case TokenFailed => 1
      case TokenFailedThenNoToken => 2
      case Proceed(_) => 0
    }
  }

  /** `authorization.split(' ')[1]`. */
  function BearerToken(authorization: string): Option<string> {
    Field(Split(authorization, ' '), 1)
  }

  /**
   * `jwt.verify(token, secret)`: the library refuses a missing or empty token
   * ("jwt must be provided") before looking at it; any other token goes to the
   * signature and expiry oracle.
   */
  function JwtVerify(token: Option<string>, verify: string -> Option<Claims>): (r: Option<Claims>)
    ensures r.Some? ==> token.Some? && token.value != "" && r == verify(token.value)
    ensures r.None? <==> FalsyText(token) || verify(token.value).None?
  {
    if FalsyText(token) then None else verify(token.value)
  }

  /** The header passes the scheme test of the middleware: `authorization.startsWith('Bearer')`. */
  predicate Presented(authorization: Option<string>) {
    authorization.Some? && StartsWith(authorization.value, BearerScheme)
  }

  /** The token the middleware takes from the header, undefined when there is no second field. */
  function HeaderToken(authorization: Option<string>): Option<string> {
    if authorization.Some? then BearerToken(authorization.value) else None
  }

  /** The header a client sends for token `t`. */
  function BearerHeader(t: string): string {
    BearerScheme + " " + t
  }

  /**
   * The middleware as written: the "Bearer" test is a bare prefix test, a
   * verification failure answers 401 without returning, and the later
   * `if (!token)` test runs after either branch.
   */
  function Protect(authorization: Option<string>, verify: string -> Option<Claims>): (g: GateOutcome)
    ensures authorization.None? || !StartsWith(authorization.value, BearerScheme) ==> g == NoToken
    ensures g == NoToken <==> !Presented(authorization)
    ensures g.Proceed? <==>
              Presented(authorization) && !FalsyText(HeaderToken(authorization))
              && verify(HeaderToken(authorization).value).Some?
    ensures g == TokenFailed <==>
              Presented(authorization) && !FalsyText(HeaderToken(authorization))
              && verify(HeaderToken(authorization).value).None?
    ensures g.Proceed? ==>
              && authorization.Some?
              && BearerToken(authorization.value).Some?
              && BearerToken(authorization.value).value != ""
              && verify(BearerToken(authorization.value).value) == Some(g.user)
    ensures g == TokenFailedThenNoToken <==>
              authorization.Some? && StartsWith(authorization.value, BearerScheme)
              && FalsyText(BearerToken(authorization.value))
  {
    if authorization.Some? && StartsWith(authorization.value, BearerScheme) then
      var token := BearerToken(authorization.value);
      match JwtVerify(token, verify)
      case Some(decoded) => Proceed(decoded)
      case None => if FalsyText(token) then TokenFailedThenNoToken else TokenFailed
    else
      NoToken
  }

  /**
   * The gate with the verification failure ending the request: every outcome
   * writes at most one response, and a header without a token answers
   * "token failed" alone.
   */
  function ProtectFixed(authorization: Option<string>, verify: string -> Option<Claims>): (g: GateOutcome)
    ensures g != TokenFailedThenNoToken
    ensures g.Responses() == (if g.Proceed? then 0 else 1)
    ensures authorization.None? || !StartsWith(authorization.value, BearerScheme) ==> g == NoToken
    ensures g == NoToken <==> !Presented(authorization)
    ensures g.Proceed? <==>
              Presented(authorization) && !FalsyText(HeaderToken(authorization))
              && verify(HeaderToken(authorization).value).Some?
    ensures g == TokenFailed <==>
              Presented(authorization)
              && (FalsyText(HeaderToken(authorization)) || verify(HeaderToken(authorization).value).None?)
    ensures g.Proceed? ==>
              && authorization.Some?
              && BearerToken(authorization.value).Some?
              && BearerToken(authorization.value).value != ""
              && verify(BearerToken(authorization.value).value) == Some(g.user)
  {
    if authorization.Some? && StartsWith(authorization.value, BearerScheme) then
      match JwtVerify(BearerToken(authorization.value), verify)
      case Some(decoded) => Proceed(decoded)
      case None => TokenFailed
    else
      NoToken
  }

  /** The fixed gate differs from the written one only where the latter answers twice. */
  lemma FixedAgreesWithWritten(authorization: Option<string>, verify: string -> Option<Claims>)
    ensures Protect(authorization, verify) != TokenFailedThenNoToken ==>
              ProtectFixed(authorization, verify) == Protect(authorization, verify)
    ensures Protect(authorization, verify) == TokenFailedThenNoToken ==>
              ProtectFixed(authorization, verify) == TokenFailed
  {
  }

  /** The token is the field after "Bearer ": a well-formed header hands exactly `t` to the verifier. */
  lemma {:induction false} BearerHeaderRoundTrip(t: string, verify: string -> Option<Claims>)
    requires t != "" && ' ' !in t
    ensures BearerToken(BearerHeader(t)) == Some(t)
    ensures Protect(Some(BearerHeader(t)), verify) ==
              (if verify(t).Some? then Proceed(verify(t).value) else TokenFailed)
  {
    var parts := [BearerScheme, t];
    assert Join(parts[1..], ' ') == t;
    assert Join(parts, ' ') == BearerHeader(t);
    SplitJoin(parts, ' ');
    assert StartsWith(BearerHeader(t), BearerScheme);
  }

  /**
   * Only `next` is skipped on failure: when the header's own token is missing,
   * empty or rejected, the request never reaches a handler, whatever the
   * verifier says about other tokens.
   */
  lemma RejectedTokenNeverProceeds(authorization: Option<string>, verify: string -> Option<Claims>)
    requires Presented(authorization)
    requires FalsyText(HeaderToken(authorization)) || verify(HeaderToken(authorization).value).None?
    ensures Protect(authorization, verify) in {TokenFailed, TokenFailedThenNoToken}
    ensures Protect(authorization, verify).Responses() >= 1
  {
  }

  /** The scheme test is a prefix test: "BearerX y" still sends "y" to the verifier. */
  lemma {:induction false} LooseSchemeAccepted(verify: string -> Option<Claims>)
    ensures BearerToken("BearerX y") == Some("y")
    ensures Protect(Some("BearerX y"), verify) ==
              (if verify("y").Some? then Proceed(verify("y").value) else TokenFailed)
  {
    var header := "BearerX" + [' '] + "y";
    assert header == "BearerX y";
    SplitNoSeparator("y", ' ');
    SplitAfterPrefix("BearerX", ' ', "y");
    assert Split(header, ' ') == ["BearerX", "y"];
    assert StartsWith(header, BearerScheme);
  }

  /** A bare "Bearer" header fails verification and then also hits the no-token branch. */
  lemma {:induction false} BareSchemeAnswersTwice(verify: string -> Option<Claims>)
    ensures Protect(Some(BearerScheme), verify) == TokenFailedThenNoToken
    ensures Protect(Some(BearerScheme), verify).Responses() == 2
    ensures ProtectFixed(Some(BearerScheme), verify) == TokenFailed
  {
    SplitNoSeparator(BearerScheme, ' ');
    assert StartsWith(BearerScheme, BearerScheme);
  }
}
