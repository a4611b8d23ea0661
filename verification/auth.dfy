/**
 * The `authenticateToken` middleware: pull the bearer token out of the
 * `Authorization` header and have the token library verify it.
 */
module Auth {
  import opened Strings
  import opened Model

  /**
   * The token library, signing key included. `verify` answers `None` for a
   * token whose signature does not check or whose expiry has passed; the
   * clock is folded into which `verify` is passed.
   */
  datatype TokenService = TokenService(sign: Identity -> string, verify: string -> Option<Identity>)

  /** A token freshly signed for `who` verifies to `who`, and holds no space. */
  predicate Issues(tokens: TokenService, who: Identity)
  {
    tokens.verify(tokens.sign(who)) == Some(who) && ' ' !in tokens.sign(who)
  }

  datatype Gate = Unauthenticated | Forbidden | Authenticated(identity: Identity)

  /**
   * `authHeader && authHeader.split(' ')[1]`: `None` plays `undefined`. An
   * empty header is falsy, so `&&` yields the header itself, `""`.
   */
  function BearerToken(authorization: Field): (token: Field)
    ensures token.None? <==> authorization.None? || (authorization.value != "" && ' ' !in authorization.value)
    ensures authorization == Some("") ==> token == Some("")
  {
    match authorization
    case None => None
    case Some(h) =>
      if h == "" then Some(h)
      else
        var parts := Split(h);
        SplitPieces(h);
        if |parts| >= 2 then Some(parts[1]) else None
  }

  /**
   * The middleware's three outcomes: no token is 401, a token the library
   * rejects is 403, otherwise the decoded identity is handed on.
   */
  function Authenticate(tokens: TokenService, authorization: Field): (g: Gate)
    ensures g.Unauthenticated? <==> authorization.None? || (authorization.value != "" && ' ' !in authorization.value)
    ensures g.Forbidden? <==> BearerToken(authorization).Some? && tokens.verify(BearerToken(authorization).value).None?
    ensures g.Authenticated? ==> BearerToken(authorization).Some? && tokens.verify(BearerToken(authorization).value) == Some(g.identity)
  {
    match BearerToken(authorization)
    case None => Unauthenticated
    case Some(token) =>
      match tokens.verify(token)
      case None => Forbidden
      case Some(who) => Authenticated(who)
  }

  /** The response the middleware sends when it stops the request. */
  function Rejection(g: Gate): (r: Response)
    requires !g.Authenticated?
    ensures g.Unauthenticated? ==> r.status == 401
    ensures g.Forbidden? ==> r.status == 403
  {
    if g.Unauthenticated? then Response(401, Plain("Unauthorized")) else Response(403, Plain("Forbidden"))
  }

  /**
   * Whatever the scheme word, the token is the second space-separated piece
   * of the header; pieces after it are ignored.
   */
  lemma BearerTokenIsSecondPiece(parts: seq<string>)
    requires |parts| >= 2
    requires forall i :: 0 <= i < |parts| ==> ' ' !in parts[i]
    ensures BearerToken(Some(Join(parts))) == Some(parts[1])
  {
    SplitJoin(parts);
    assert Join(parts) == parts[0] + " " + Join(parts[1..]);
    assert Join(parts)[|parts[0]|] == ' ';
  }

  /** The header `Bearer <t>` carries exactly the token `t`. */
  lemma BearerHeaderCarriesToken(t: string)
    requires ' ' !in t
    ensures BearerToken(Some("Bearer " + t)) == Some(t)
  {
    var parts := ["Bearer", t];
    assert Join(parts[1..]) == t;
    assert Join(parts) == "Bearer " + t;
    BearerTokenIsSecondPiece(parts);
  }

  /** A header made of the scheme word alone carries no token: 401. */
  lemma SchemeAloneIsUnauthenticated(tokens: TokenService)
    ensures Authenticate(tokens, Some("Bearer")) == Unauthenticated
  {
    assert ' ' !in "Bearer";
  }

  /**
   * An empty header is not "no token": the empty string is handed to the
   * verifier, so the outcome is the verifier's, never 401.
   */
  lemma EmptyHeaderReachesVerifier(tokens: TokenService)
    ensures Authenticate(tokens, Some("")) != Unauthenticated
    ensures tokens.verify("").None? ==> Authenticate(tokens, Some("")) == Forbidden
  {
  }
}
