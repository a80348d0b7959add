/** Session tokens: what jwt-go reports about a token string, the session
    middleware `JWTMiddleware`, the two tokens `Signin` issues, and the
    re-issuing of an access token in `RefreshToken`.

    jwt-go itself is an oracle: `decode` turns a compact token string into the
    token it carries (None when the string is not a well-formed token), `live`
    is jwt-go's verdict on an `exp` claim at the moment of the request, and
    `sign` is `SignedString` with the server secret (None when signing fails). */
module Jwt {
  import opened Wrappers
  import opened Http
  import Strconv
  import Text

  /** Signing methods jwt-go knows; the HMAC family is HS256, HS384, HS512. */
  datatype Alg = HS256 | HS384 | HS512 | RS256 | RS384 | RS512 | ES256 | ES384 | ES512 | PS256 | NoneAlg

  predicate IsHmac(a: Alg)
  {
    a == HS256 || a == HS384 || a == HS512
  }

  /** A JSON claim value that is present and not `null`: a number, or any
      other JSON value (a string stands for all of them). An absent claim and
      a `null` one are both `None` where a claim is optional: MapClaims reads
      either as nil, and CustomClaims leaves its field at the zero value. */
  datatype ClaimValue = Number(n: int) | Text(s: string)

  /** A token as jwt-go sees it: its `alg` header, whether its signature
      verifies under the server's secret, and the claims the handlers read.
      `exp` is 0 when the claim is absent, as in jwt-go's StandardClaims. */
  datatype Token = Token(alg: Alg, signedWithSecret: bool, username: Option<string>,
                         userID: Option<ClaimValue>, exp: int)

  /** CustomClaims: StandardClaims' expiry and a `uint` UserID. */
  datatype CustomClaims = CustomClaims(exp: int, userID: nat)

  /** What `jwt.ParseWithClaims` gives back: an error, or the claims and
      the token's Valid flag. */
  datatype ParseResult = ParseFailed | ParsedToken(claims: CustomClaims, valid: bool)

  /** The checks jwt-go applies before it accepts a token: the key function
      refuses every non-HMAC method, the signature must verify under the
      secret, and the expiry claim must still be live. */
  predicate Verifies(t: Token, live: int -> bool)
  {
    IsHmac(t.alg) && t.signedWithSecret && live(t.exp)
  }

  /** Unmarshalling the `userID` claim into `CustomClaims.UserID` (a Go
      `uint`): an absent claim leaves 0, a number in the uint range is taken
      as is, anything else is an unmarshalling error. */
  function ClaimAsUint(c: Option<ClaimValue>): Option<nat>
  {
    match c
    case None => Some(0)
    case Some(Number(n)) => if 0 <= n <= Strconv.MaxUint64 then Some(n) else None
    case Some(Text(_)) => None
  }

  /** `jwt.ParseWithClaims(tokenString, &CustomClaims{}, keyFunc)` with the
      HMAC-only key function of the middleware. */
  function ParseWithClaims(tokenString: string, decode: string -> Option<Token>,
                           live: int -> bool): (r: ParseResult)
    ensures r.ParsedToken? <==>
              decode(tokenString).Some? && Verifies(decode(tokenString).value, live) &&
              ClaimAsUint(decode(tokenString).value.userID).Some?
    ensures r.ParsedToken? ==>
              r.valid && r.claims.exp == decode(tokenString).value.exp &&
              r.claims.userID == ClaimAsUint(decode(tokenString).value.userID).value
  {
    match decode(tokenString)
    case None => ParseFailed
    case Some(t) =>
      match ClaimAsUint(t.userID)
      case None => ParseFailed
      case Some(uid) =>
        if Verifies(t, live) then ParsedToken(CustomClaims(t.exp, uid), true) else ParseFailed
  }

  /** Why the middleware refused a request; every refusal is a 401. */
  datatype AuthFailure = NoHeader | BadHeaderFormat | InvalidToken | InvalidUserID

  /** `Next(u)`: the middleware stored `uint` u under "userID" and called the
      downstream handler; `Reject`: it answered 401 and did neither. */
  datatype MiddlewareResult = Next(userID: nat) | Reject(failure: AuthFailure)

  /** `JWTMiddleware`'s decision chain over the Authorization header. */
  function Authenticate(header: string, decode: string -> Option<Token>,
                        live: int -> bool): (r: MiddlewareResult)
    ensures r.Next? ==> r.userID > 0
  {
    if header == "" then Reject(NoHeader)
    else
      var parts := Text.Split(header, ' ');
      if |parts| != 2 || parts[0] != "Bearer" then Reject(BadHeaderFormat)
      else
        match ParseWithClaims(parts[1], decode, live)
        case ParseFailed => Reject(InvalidToken)
        case ParsedToken(claims, valid) =>
          if valid then
            if claims.userID > 0 then Next(claims.userID) else Reject(InvalidUserID)
          else Reject(InvalidToken)
  }

  /** The status the middleware writes when it stops the request. */
  function RejectStatus(f: AuthFailure): int
  {
    UNAUTHORIZED
  }

  /** The value the downstream handler finds under "userID". */
  function ContextAfter(r: MiddlewareResult): (l: Local)
    requires r.Next?
  {
    UIntVal(r.userID)
  }

  const BearerPrefix: string := "Bearer "

  /** A header of the one shape the middleware accepts: "Bearer", one space
      and a token containing no space. */
  predicate WellFormedHeader(header: string)
  {
    |header| >= 7 && header[..7] == BearerPrefix && ' ' !in header[7..]
  }

  lemma WellFormedSplit(header: string)
    ensures WellFormedHeader(header) <==>
            |Text.Split(header, ' ')| == 2 && Text.Split(header, ' ')[0] == "Bearer"
  {
    var parts := Text.Split(header, ' ');
    if WellFormedHeader(header) {
      assert header == "Bearer" + [' '] + header[7..];
      Text.SplitInTwo(header, ' ', "Bearer", header[7..]);
    }
    if |parts| == 2 && parts[0] == "Bearer" {
      Text.SplitInTwo(header, ' ', "Bearer", parts[1]);
      assert header == "Bearer " + parts[1];
      assert header[7..] == parts[1];
    }
  }

  /** An empty header, and any header not of the form "Bearer <token>" with
      exactly one space (a lower-case "bearer", a doubled space, a trailing
      space after the token), is refused before the token is looked at. */
  lemma HeaderShapeDecides(header: string, decode: string -> Option<Token>, live: int -> bool)
    ensures header == "" ==> Authenticate(header, decode, live) == Reject(NoHeader)
    ensures header != "" && !WellFormedHeader(header) ==>
              Authenticate(header, decode, live) == Reject(BadHeaderFormat)
    ensures WellFormedHeader(header) ==>
              Authenticate(header, decode, live) != Reject(NoHeader) &&
              Authenticate(header, decode, live) != Reject(BadHeaderFormat)
  {
    WellFormedSplit(header);
  }

  /** For a well-formed header, the request goes on exactly when the token
      decodes, uses an HMAC method, verifies under the secret, is live, and
      carries a positive uint `userID`; that id is what the handler sees. */
  lemma AuthenticateAccepts(header: string, decode: string -> Option<Token>, live: int -> bool)
    requires WellFormedHeader(header)
    ensures var tok := header[7..];
      Authenticate(header, decode, live).Next? <==>
        decode(tok).Some? && Verifies(decode(tok).value, live) &&
        ClaimAsUint(decode(tok).value.userID).Some? &&
        ClaimAsUint(decode(tok).value.userID).value > 0
    ensures var tok := header[7..];
      Authenticate(header, decode, live).Next? ==>
        Authenticate(header, decode, live).userID == ClaimAsUint(decode(tok).value.userID).value
  {
    WellFormedSplit(header);
    var parts := Text.Split(header, ' ');
    Text.SplitInTwo(header, ' ', "Bearer", parts[1]);
    assert parts[1] == header[7..];
  }

  /** A token with a non-HMAC method, a bad signature or a dead expiry is
      refused as invalid; a verified token whose userID is absent or 0 is
      refused as carrying an invalid user id. */
  lemma AuthenticateRefusals(header: string, decode: string -> Option<Token>, live: int -> bool)
    requires WellFormedHeader(header)
    ensures var tok := header[7..];
      decode(tok).Some? && !Verifies(decode(tok).value, live) ==>
        Authenticate(header, decode, live) == Reject(InvalidToken)
    ensures var tok := header[7..];
      decode(tok).Some? && Verifies(decode(tok).value, live) &&
      ClaimAsUint(decode(tok).value.userID) == Some(0) ==>
        Authenticate(header, decode, live) == Reject(InvalidUserID)
    ensures decode(header[7..]).None? ==> Authenticate(header, decode, live) == Reject(InvalidToken)
  {
    WellFormedSplit(header);
    var parts := Text.Split(header, ' ');
    Text.SplitInTwo(header, ' ', "Bearer", parts[1]);
    assert parts[1] == header[7..];
  }

  /** Lifetimes in seconds: 15 minutes for access tokens, 24 hours for
      refresh tokens. */
  const AccessLifetime: int := 15 * 60
  const RefreshLifetime: int := 24 * 3600

  /** The claims `Signin` puts in the access token: username, userID and
      an expiry `now` + 15 minutes, signed with HS256. */
  function AccessToken(username: string, userID: nat, now: int): (t: Token)
    ensures t.alg == HS256 && t.signedWithSecret && t.exp - now == 900
    ensures t.username == Some(username) && t.userID == Some(Number(userID))
  {
    Token(HS256, true, Some(username), Some(Number(userID)), now + AccessLifetime)
  }

  /** The claims `Signin` puts in the refresh token: userID and an expiry
      `now` + 24 hours, signed with HS256, no username. */
  function RefreshTokenFor(userID: nat, now: int): (t: Token)
    ensures t.alg == HS256 && t.signedWithSecret && t.exp - now == 86400
    ensures t.username.None? && t.userID == Some(Number(userID))
  {
    Token(HS256, true, None, Some(Number(userID)), now + RefreshLifetime)
  }

  /** The signing oracle and the decoding oracle agree: whatever `sign`
      produces is a non-empty string that decodes back to the token it signed
      and, being three base64url segments joined by dots, holds no space. */
  ghost predicate SignThenDecode(sign: Token -> Option<string>, decode: string -> Option<Token>)
  {
    forall t :: sign(t).Some? ==>
      sign(t).value != "" && decode(sign(t).value) == Some(t) && ' ' !in sign(t).value
  }

  /** An access token issued by `Signin`, sent as "Bearer <token>" while its
      expiry is live, passes the middleware with the signed-in user's id. */
  lemma IssuedAccessTokenAuthenticates(username: string, userID: nat, now: int,
                                       sign: Token -> Option<string>,
                                       decode: string -> Option<Token>, live: int -> bool)
    requires SignThenDecode(sign, decode)
    requires sign(AccessToken(username, userID, now)).Some?
    requires live(now + AccessLifetime)
    requires 0 < userID <= Strconv.MaxUint64
    ensures Authenticate(BearerPrefix + sign(AccessToken(username, userID, now)).value, decode, live)
            == Next(userID)
  {
    var s := sign(AccessToken(username, userID, now)).value;
    var header := BearerPrefix + s;
    assert header[7..] == s;
    AuthenticateAccepts(header, decode, live);
  }

  /** The outcome of `RefreshToken`: the status, and on 200 the new access
      token together with its signed form. */
  datatype RefreshResult = RefreshResult(status: int, token: Option<Token>, encoded: string)

  /** `RefreshToken` on the `refreshToken` form value at time `now`. */
  function Refresh(form: string, decode: string -> Option<Token>, live: int -> bool,
                   sign: Token -> Option<string>, now: int): (r: RefreshResult)
    ensures r.status == OK <==> r.token.Some?
    ensures r.status in {OK, BAD_REQUEST, UNAUTHORIZED, INTERNAL_SERVER_ERROR}
  {
    if form == "" then RefreshResult(BAD_REQUEST, None, "")
    else
      match decode(form)
      case None => RefreshResult(UNAUTHORIZED, None, "")
      case Some(t) =>
        if !Verifies(t, live) then RefreshResult(UNAUTHORIZED, None, "")
        else if t.userID.None? then RefreshResult(UNAUTHORIZED, None, "")
        else
          var minted := Token(HS256, true, None, t.userID, now + AccessLifetime);
          match sign(minted)
          case None => RefreshResult(INTERNAL_SERVER_ERROR, None, "")
          case Some(enc) => RefreshResult(OK, Some(minted), enc)
  }

  /** An empty form value is a 400; a token that does not decode, is not
      HMAC, does not verify, is not live or has no userID claim is a 401; in
      none of these cases is a token issued. */
  lemma RefreshRefusals(form: string, decode: string -> Option<Token>, live: int -> bool,
                        sign: Token -> Option<string>, now: int)
    ensures form == "" ==> Refresh(form, decode, live, sign, now).status == BAD_REQUEST
    ensures form != "" && (decode(form).None? || !Verifies(decode(form).value, live) ||
                           decode(form).value.userID.None?) ==>
              Refresh(form, decode, live, sign, now) == RefreshResult(UNAUTHORIZED, None, "")
  {
  }

  /** A non-empty form value that decodes to a verified token with a userID
      claim is accepted: the answer is 200 with the newly minted access token
      (HS256, that claim, no username, 15 minutes from `now`) when signing it
      succeeds, and 500 with no token when it fails. */
  lemma RefreshAccepts(form: string, decode: string -> Option<Token>, live: int -> bool,
                       sign: Token -> Option<string>, now: int)
    requires form != "" && decode(form).Some? && Verifies(decode(form).value, live)
    requires decode(form).value.userID.Some?
    ensures var minted := Token(HS256, true, None, decode(form).value.userID, now + AccessLifetime);
      var r := Refresh(form, decode, live, sign, now);
      && (sign(minted).Some? ==> r == RefreshResult(OK, Some(minted), sign(minted).value))
      && (sign(minted).None? ==> r == RefreshResult(INTERNAL_SERVER_ERROR, None, ""))
  {
  }

  /** The refresh token `Signin` issues, sent while it is live, yields a new
      access token for the same user, provided that token can be signed. */
  lemma IssuedRefreshTokenRefreshes(userID: nat, issuedAt: int, now: int,
                                    sign: Token -> Option<string>,
                                    decode: string -> Option<Token>, live: int -> bool)
    requires SignThenDecode(sign, decode)
    requires sign(RefreshTokenFor(userID, issuedAt)).Some?
    requires live(issuedAt + RefreshLifetime)
    requires sign(Token(HS256, true, None, Some(Number(userID)), now + AccessLifetime)).Some?
    ensures var r := Refresh(sign(RefreshTokenFor(userID, issuedAt)).value, decode, live, sign, now);
      r.status == OK && r.token.value.userID == Some(Number(userID)) &&
      r.token.value.exp == now + AccessLifetime
  {
    RefreshAccepts(sign(RefreshTokenFor(userID, issuedAt)).value, decode, live, sign, now);
  }

  /** A refreshed access token is HS256, copies the refresh token's userID
      claim verbatim, carries no username, and expires 15 minutes after
      `now`; its signed form is what `sign` produced for it. */
  lemma RefreshCopiesUserID(form: string, decode: string -> Option<Token>, live: int -> bool,
                            sign: Token -> Option<string>, now: int)
    requires Refresh(form, decode, live, sign, now).status == OK
    ensures var r := Refresh(form, decode, live, sign, now);
      decode(form).Some? && Verifies(decode(form).value, live) &&
      r.token.value.userID == decode(form).value.userID && r.token.value.userID.Some? &&
      r.token.value.alg == HS256 && r.token.value.username.None? &&
      r.token.value.exp == now + AccessLifetime &&
      sign(r.token.value) == Some(r.encoded)
  {
  }

  /** Nothing marks a token as a refresh token: a live access token from
      `Signin` is accepted by `RefreshToken` just as well, so a client can
      keep extending its session without the refresh token. */
  lemma AccessTokenAlsoRefreshes(username: string, userID: nat, issuedAt: int, now: int,
                                 sign: Token -> Option<string>,
                                 decode: string -> Option<Token>, live: int -> bool)
    requires SignThenDecode(sign, decode)
    requires sign(AccessToken(username, userID, issuedAt)).Some?
    requires live(issuedAt + AccessLifetime)
    requires sign(Token(HS256, true, None, Some(Number(userID)), now + AccessLifetime)).Some?
    ensures var r := Refresh(sign(AccessToken(username, userID, issuedAt)).value, decode, live, sign, now);
      r.status == OK && r.token.value.userID == Some(Number(userID))
  {
  }

  /** A refresh token whose userID claim is not a uint (a string, say) still
      yields a 200 and a new access token, which the middleware then always
      refuses: the refreshed token authenticates exactly when the copied claim
      is a positive uint. */
  lemma RefreshedTokenAuthenticates(form: string, decode: string -> Option<Token>, live: int -> bool,
                                    sign: Token -> Option<string>, now: int)
    requires SignThenDecode(sign, decode)
    requires Refresh(form, decode, live, sign, now).status == OK
    requires live(now + AccessLifetime)
    ensures var r := Refresh(form, decode, live, sign, now);
      var result := Authenticate(BearerPrefix + r.encoded, decode, live);
      (result.Next? <==> ClaimAsUint(r.token.value.userID).Some? && ClaimAsUint(r.token.value.userID).value > 0) &&
      (result.Next? ==> Some(result.userID) == ClaimAsUint(decode(form).value.userID))
  {
    var r := Refresh(form, decode, live, sign, now);
    var header := BearerPrefix + r.encoded;
    assert sign(r.token.value) == Some(r.encoded);
    assert header[7..] == r.encoded;
    AuthenticateAccepts(header, decode, live);
  }

  /** The `/refresh` route: `JWTMiddleware` first, then `RefreshToken`. */
  function RefreshRoute(header: string, form: string, decode: string -> Option<Token>,
                        live: int -> bool, sign: Token -> Option<string>, now: int): (r: RefreshResult)
    ensures Authenticate(header, decode, live).Reject? ==> r == RefreshResult(UNAUTHORIZED, None, "")
    ensures r.status == OK ==>
              Authenticate(header, decode, live).Next? && r == Refresh(form, decode, live, sign, now)
    ensures Authenticate(header, decode, live).Next? ==> r == Refresh(form, decode, live, sign, now)
  {
    match Authenticate(header, decode, live)
    case Reject(f) => RefreshResult(RejectStatus(f), None, "")
    case Next(_) => Refresh(form, decode, live, sign, now)
  }

  /** Because the refresh route sits behind the middleware, a request whose
      bearer token is no longer live gets 401 whatever refresh token the form
      carries. (This does not tie refreshing to the access token: the refresh
      token itself passes the middleware, see `RefreshTokenAuthenticates`.) */
  lemma DeadAccessTokenBlocksRefresh(header: string, form: string, decode: string -> Option<Token>,
                                     live: int -> bool, sign: Token -> Option<string>, now: int)
    requires WellFormedHeader(header)
    requires decode(header[7..]).Some? && !live(decode(header[7..]).value.exp)
    ensures RefreshRoute(header, form, decode, live, sign, now) == RefreshResult(UNAUTHORIZED, None, "")
  {
    AuthenticateRefusals(header, decode, live);
  }

  /** Nothing marks a token as an access token either: the refresh token
      from `Signin`, sent as "Bearer <token>" while it is live, passes the
      middleware with the signed-in user's id. */
  lemma RefreshTokenAuthenticates(userID: nat, issuedAt: int,
                                  sign: Token -> Option<string>,
                                  decode: string -> Option<Token>, live: int -> bool)
    requires SignThenDecode(sign, decode)
    requires sign(RefreshTokenFor(userID, issuedAt)).Some?
    requires live(issuedAt + RefreshLifetime)
    requires 0 < userID <= Strconv.MaxUint64
    ensures Authenticate(BearerPrefix + sign(RefreshTokenFor(userID, issuedAt)).value, decode, live)
            == Next(userID)
  {
    var s := sign(RefreshTokenFor(userID, issuedAt)).value;
    var header := BearerPrefix + s;
    assert header[7..] == s;
    AuthenticateAccepts(header, decode, live);
  }

  /** So a client whose access token from `Signin` has expired can still
      refresh: it sends the live refresh token both as the bearer token and as
      the form value, and gets 200 with a new access token for its user. */
  lemma RefreshWorksWithDeadAccessToken(userID: nat, signinAt: int, now: int,
                                        sign: Token -> Option<string>,
                                        decode: string -> Option<Token>, live: int -> bool)
    requires SignThenDecode(sign, decode)
    requires sign(RefreshTokenFor(userID, signinAt)).Some?
    requires !live(signinAt + AccessLifetime) && live(signinAt + RefreshLifetime)
    requires 0 < userID <= Strconv.MaxUint64
    requires sign(Token(HS256, true, None, Some(Number(userID)), now + AccessLifetime)).Some?
    ensures var refresh := sign(RefreshTokenFor(userID, signinAt)).value;
      var r := RefreshRoute(BearerPrefix + refresh, refresh, decode, live, sign, now);
      r.status == OK && r.token.value.userID == Some(Number(userID))
  {
    RefreshTokenAuthenticates(userID, signinAt, sign, decode, live);
    IssuedRefreshTokenRefreshes(userID, signinAt, now, sign, decode, live);
  }
}
