/** The access-token lifecycle of the external application client: log in with the client key, refresh
    a token that is about to expire (falling back to a fresh login), or reuse the stored one. The HTTP
    exchanges are abstract inputs, and the wall clock is the parameter `now` (in ticks). */
module TokenManagement {
  import opened Common

  /** A token is refreshed once it is within one minute of its expiry. */
  const RefreshThreshold: int := 60 * TicksPerSecond

  const LoginPath: string := "api/auth-plugin/auth/login-by-key"
  const RefreshPath: string := "auth/refresh"

  /** The stored token: the access token, the refresh token (possibly empty) and the expiry instant. */
  datatype Token = Token(accessToken: string, refreshToken: string, expiresAt: int)

  /** `IsExpired`: the expiry instant has been reached. */
  predicate IsExpired(t: Token, now: int) {
    now >= t.expiresAt
  }

  /** `ShouldRefresh()`: the expiry instant is at most one minute away, or already past. */
  function ShouldRefresh(t: Token, now: int): (r: bool)
    ensures IsExpired(t, now) ==> r
    ensures r <==> t.expiresAt - now <= RefreshThreshold
  {
    now >= t.expiresAt - RefreshThreshold
  }

  /** A request the manager sends: the login payload or the refresh payload. */
  datatype Request =
    | LoginByKey(clientId: string, clientSecret: string)
    | RefreshWith(refreshToken: string)
  {
    function Path(): string {
      match this
      case LoginByKey(_, _) => LoginPath
      case RefreshWith(_) => RefreshPath
    }
  }

  /** The deserialised body of a login or refresh response (`null` is `None`). */
  datatype TokenBody = TokenBody(accessToken: string, expiresIn: int, refreshToken: Option<string>)

  /** What one POST produced: the request itself threw, or a response arrived with its status code,
      reason phrase, raw content and deserialised body. */
  datatype Exchange =
    | Faulted(message: string)
    | Responded(statusCode: int, reasonPhrase: string, content: string, body: Option<TokenBody>)

  /** `IsSuccessStatusCode`: a status in the 2xx range. */
  predicate IsSuccessStatusCode(code: int) {
    200 <= code <= 299
  }

  /** `DateTimeOffset.AddSeconds(expiresIn)` on the instant `now`. */
  function ExpiryAfter(now: int, expiresIn: int): int {
    now + expiresIn * TicksPerSecond
  }

  /** The token a login exchange yields, or the message of the exception it raises: a thrown request,
      a non-success status, and a missing body or blank access token all fail; otherwise the new token
      has an empty refresh token when the response omits one. */
  function LoginResult(response: Exchange, now: int): Result<Token> {
    match response
    case Faulted(m) => Failure(m)
    case Responded(code, reason, content, body) =>
      if !IsSuccessStatusCode(code) then
        Failure("Login failed: " + IntToString(code) + " " + reason + " " + content)
      else if body.None? || IsBlank(body.value.accessToken) then
        Failure("Login response không hợp lệ.")
      else
        Success(Token(body.value.accessToken, body.value.refreshToken.GetOr(""), ExpiryAfter(now, body.value.expiresIn)))
  }

  /** The token a refresh exchange yields for `current`: as for a login, except that the refresh token
      is kept when the response omits one. */
  function RefreshResult(current: Token, response: Exchange, now: int): Result<Token> {
    match response
    case Faulted(m) => Failure(m)
    case Responded(code, reason, content, body) =>
      if !IsSuccessStatusCode(code) then
        Failure("Refresh failed: " + IntToString(code) + " " + reason + " " + content)
      else if body.None? || IsBlank(body.value.accessToken) then
        Failure("Refresh response không hợp lệ.")
      else
        Success(Token(body.value.accessToken, body.value.refreshToken.GetOr(current.refreshToken),
                      ExpiryAfter(now, body.value.expiresIn)))
  }

  const NoRefreshToken: string := "Không có refresh token để làm mới."

  /** How an internal step ended: normally, or by throwing with a message. */
  datatype Outcome = Completed | Threw(message: string)

  /** The stored token and the outcome after an exchange: a new token replaces the stored one; a
      failure leaves it as it was. */
  function Store(stored: Option<Token>, result: Result<Token>): (Option<Token>, Outcome) {
    match result
    case Success(t) => (Some(t), Completed)
    case Failure(m) => (stored, Threw(m))
  }

  /** One call of `GetAccessTokenAsync`: the stored token afterwards, the access token returned (or the
      exception's message), and the requests sent, in order. */
  datatype Acquisition = Acquisition(stored: Option<Token>, result: Result<string>, sent: seq<Request>)

  /** The decision `GetAccessTokenAsync` makes, over the client key, the stored token, the instant and
      the responses a login and a refresh would get. */
  function Acquire(clientId: string, clientSecret: string, stored: Option<Token>, now: int,
                   login: Exchange, refresh: Exchange): Acquisition
  {
    var loginRequest := LoginByKey(clientId, clientSecret);
    if stored.None? || IsExpired(stored.value, now) then
      match LoginResult(login, now)
      case Success(t) => Acquisition(Some(t), Success(t.accessToken), [loginRequest])
      case Failure(m) => Acquisition(stored, Failure(m), [loginRequest])
    else if ShouldRefresh(stored.value, now) then
      var refreshed :=
        if IsBlank(stored.value.refreshToken) then Failure(NoRefreshToken)
        else RefreshResult(stored.value, refresh, now);
      var refreshSent := if IsBlank(stored.value.refreshToken) then [] else [RefreshWith(stored.value.refreshToken)];
      match refreshed
      case Success(t) => Acquisition(Some(t), Success(t.accessToken), refreshSent)
      case Failure(_) =>
        match LoginResult(login, now)
        case Success(t) => Acquisition(Some(t), Success(t.accessToken), refreshSent + [loginRequest])
        case Failure(m) => Acquisition(None, Failure(m), refreshSent + [loginRequest])
    else
      Acquisition(stored, Success(stored.value.accessToken), [])
  }

  /** A token was issued by a successful exchange: its access token is not blank. */
  predicate Issued(t: Option<Token>) {
    t.Some? ==> !IsBlank(t.value.accessToken)
  }

  /** Without a token, or with an expired one, exactly one login is sent; on success the new token is
      stored and returned, and on failure the stored token is left as it was. */
  lemma LoginWhenMissingOrExpired(clientId: string, clientSecret: string, stored: Option<Token>, now: int,
                                  login: Exchange, refresh: Exchange)
    requires stored.None? || IsExpired(stored.value, now)
    ensures var a := Acquire(clientId, clientSecret, stored, now, login, refresh);
            && a.sent == [LoginByKey(clientId, clientSecret)]
            && (LoginResult(login, now).Success? ==>
                  a.stored == Some(LoginResult(login, now).value) && a.result == Success(a.stored.value.accessToken))
            && (LoginResult(login, now).Failure? ==>
                  a.stored == stored && a.result == Failure(LoginResult(login, now).error))
  {
  }

  /** A token due for refresh but not expired is refreshed; a blank refresh token fails before any
      request; any refresh failure discards the token and falls back to a login. */
  lemma RefreshWhenDue(clientId: string, clientSecret: string, t: Token, now: int, login: Exchange, refresh: Exchange)
    requires !IsExpired(t, now) && ShouldRefresh(t, now)
    ensures var a := Acquire(clientId, clientSecret, Some(t), now, login, refresh);
            var refreshed := if IsBlank(t.refreshToken) then Failure(NoRefreshToken) else RefreshResult(t, refresh, now);
            && (IsBlank(t.refreshToken) ==> a.sent == [LoginByKey(clientId, clientSecret)])
            && (!IsBlank(t.refreshToken) ==> a.sent[0] == RefreshWith(t.refreshToken))
            && (refreshed.Success? ==>
                  a.stored == Some(refreshed.value) && a.result == Success(refreshed.value.accessToken) && |a.sent| == 1)
            && (refreshed.Failure? ==>
                  a.sent[|a.sent| - 1] == LoginByKey(clientId, clientSecret)
                  && (LoginResult(login, now).Failure? ==> a.stored == None && a.result == Failure(LoginResult(login, now).error))
                  && (LoginResult(login, now).Success? ==>
                        a.stored == Some(LoginResult(login, now).value)
                        && a.result == Success(LoginResult(login, now).value.accessToken)))
  {
  }

  /** A token that is neither expired nor due for refresh is returned as it is, and nothing is sent. */
  lemma ReuseWhenFresh(clientId: string, clientSecret: string, t: Token, now: int, login: Exchange, refresh: Exchange)
    requires !ShouldRefresh(t, now)
    ensures Acquire(clientId, clientSecret, Some(t), now, login, refresh) == Acquisition(Some(t), Success(t.accessToken), [])
  {
  }

  /** The value returned is always the access token of the token stored afterwards; it is never blank
      when every stored token was issued by an exchange; and at most one refresh and one login are sent. */
  lemma {:induction false} AcquireReturnsStored(clientId: string, clientSecret: string, stored: Option<Token>, now: int,
                                                login: Exchange, refresh: Exchange)
    requires Issued(stored)
    ensures var a := Acquire(clientId, clientSecret, stored, now, login, refresh);
            && (a.result.Success? ==> a.stored.Some? && a.result.value == a.stored.value.accessToken)
            && (a.result.Success? ==> !IsBlank(a.result.value))
            && Issued(a.stored)
            && |a.sent| <= 2
  {
    IssuedByLogin(login, now);
    if stored.Some? && !IsExpired(stored.value, now) && ShouldRefresh(stored.value, now)
       && !IsBlank(stored.value.refreshToken) {
      IssuedByRefresh(stored.value, refresh, now);
    }
  }

  /** A successful login yields a token with a non-blank access token, expiring `expiresIn` seconds
      from `now`, with an empty refresh token if the response had none. */
  lemma IssuedByLogin(response: Exchange, now: int)
    ensures LoginResult(response, now).Success? ==>
      && response.Responded? && IsSuccessStatusCode(response.statusCode) && response.body.Some?
      && var b := response.body.value;
         LoginResult(response, now).value == Token(b.accessToken, b.refreshToken.GetOr(""), ExpiryAfter(now, b.expiresIn))
         && !IsBlank(b.accessToken)
  {
  }

  /** A successful refresh yields a token with a non-blank access token and keeps the old refresh
      token when the response has none. */
  lemma IssuedByRefresh(current: Token, response: Exchange, now: int)
    ensures RefreshResult(current, response, now).Success? ==>
      && response.Responded? && IsSuccessStatusCode(response.statusCode) && response.body.Some?
      && var b := response.body.value;
         var t := RefreshResult(current, response, now).value;
         && !IsBlank(t.accessToken) && t.accessToken == b.accessToken
         && t.refreshToken == (if b.refreshToken.Some? then b.refreshToken.value else current.refreshToken)
         && t.expiresAt == ExpiryAfter(now, b.expiresIn)
  {
  }

  class ExternalAppTokenManager {
    const clientId: string
    const clientSecret: string
    /** The stored token (`_currentToken`). */
    var currentToken: Option<Token>
    /** Every request sent so far, in order. */
    ghost var requests: seq<Request>

    constructor (clientId: string, clientSecret: string)
      ensures this.clientId == clientId && this.clientSecret == clientSecret
      ensures currentToken == None && requests == []
    {
      this.clientId := clientId;
      this.clientSecret := clientSecret;
      currentToken := None;
      requests := [];
    }

    /** `GetAccessTokenAsync` at instant `now`, with `login` and `refresh` the responses the two
        requests would get: the stored token, the returned access token and the requests sent are
        those `Acquire` decides. */
    method GetAccessToken(now: int, login: Exchange, refresh: Exchange) returns (r: Result<string>)
      modifies this
      ensures var a := Acquire(clientId, clientSecret, old(currentToken), now, login, refresh);
              currentToken == a.stored && r == a.result && requests == old(requests) + a.sent
    {
      if currentToken.None? || IsExpired(currentToken.value, now) {
        var outcome := LoginInternal(now, login);
        if outcome.Threw? {
          return Failure(outcome.message);
        }
      } else if ShouldRefresh(currentToken.value, now) {
        var outcome := RefreshInternal(now, refresh);
        if outcome.Threw? {
          currentToken := None;
          var retried := LoginInternal(now, login);
          if retried.Threw? {
            return Failure(retried.message);
          }
        }
      }

      if currentToken.None? {
        // The `?? throw` at the end: every path that completes has stored a token.
        assert false;
      }
      return Success(currentToken.value.accessToken);
    }

    /** `LoginInternalAsync`: send the login payload; store the token it yields, or throw and leave the
        stored token as it was. */
    method LoginInternal(now: int, response: Exchange) returns (outcome: Outcome)
      modifies this
      ensures requests == old(requests) + [LoginByKey(clientId, clientSecret)]
      ensures (currentToken, outcome) == Store(old(currentToken), LoginResult(response, now))
    {
      requests := requests + [LoginByKey(clientId, clientSecret)];
      match response {
        case Faulted(m) =>
          return Threw(m);
        case Responded(code, reason, content, body) =>
          if !IsSuccessStatusCode(code) {
            return Threw("Login failed: " + IntToString(code) + " " + reason + " " + content);
          }
          if body.None? || IsBlank(body.value.accessToken) {
            return Threw("Login response không hợp lệ.");
          }
          currentToken := Some(Token(body.value.accessToken, body.value.refreshToken.GetOr(""),
                                     ExpiryAfter(now, body.value.expiresIn)));
          return Completed;
      }
    }

    /** `RefreshInternalAsync`: without a stored token or with a blank refresh token, throw before
        sending anything; otherwise send the refresh payload and store the token it yields, or throw
        and leave the stored token as it was. */
    method RefreshInternal(now: int, response: Exchange) returns (outcome: Outcome)
      modifies this
      ensures old(currentToken).None? || IsBlank(old(currentToken).value.refreshToken) ==>
                outcome == Threw(NoRefreshToken) && currentToken == old(currentToken) && requests == old(requests)
      ensures old(currentToken).Some? && !IsBlank(old(currentToken).value.refreshToken) ==>
                && requests == old(requests) + [RefreshWith(old(currentToken).value.refreshToken)]
                && (currentToken, outcome) == Store(old(currentToken), RefreshResult(old(currentToken).value, response, now))
    {
      if currentToken.None? || IsBlank(currentToken.value.refreshToken) {
        return Threw(NoRefreshToken);
      }
      var current := currentToken.value;
      requests := requests + [RefreshWith(current.refreshToken)];
      match response {
        case Faulted(m) =>
          return Threw(m);
        case Responded(code, reason, content, body) =>
          if !IsSuccessStatusCode(code) {
            return Threw("Refresh failed: " + IntToString(code) + " " + reason + " " + content);
          }
          if body.None? || IsBlank(body.value.accessToken) {
            return Threw("Refresh response không hợp lệ.");
          }
          currentToken := Some(Token(body.value.accessToken, body.value.refreshToken.GetOr(current.refreshToken),
                                     ExpiryAfter(now, body.value.expiresIn)));
          return Completed;
      }
    }
  }
}
