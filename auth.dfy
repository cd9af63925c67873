/**
 * The NuvemFiscal OAuth token cache (`NuvemFiscalAuthService.getAccessToken`):
 * a cached token is reused until its expiry instant, otherwise a
 * client-credentials token is requested and cached with a 30-second safety
 * margin. The token endpoint's answer and the two clock readings are parameters.
 */
module NuvemFiscalAuth {
  import opened Wrappers

  /** The configured client credentials; None is an unset variable. */
  datatype Credentials = Credentials(clientId: Option<string>, clientSecret: Option<string>)

  /** The token endpoint's answer: an OK JSON body, or a non-OK status with its text. */
  datatype TokenResponse =
    | TokenOk(accessToken: string, expiresIn: int)
    | TokenRejected(status: int, text: string)

  datatype AuthError = CredentialsNotSet | TokenError(status: int, text: string)

  /** The two private fields of the service. */
  datatype CacheState = CacheState(accessToken: Option<string>, expiresAtMs: int)

  /** What one call leaves in the cache, returns, and whether it sent a token request. */
  datatype CallResult = CallResult(state: CacheState, result: Result<string, AuthError>, requested: bool)

  const SafetyWindowMs := 30000

  /** A truthy string: present and not empty. */
  predicate Truthy(s: Option<string>) {
    s.Some? && s.value != ""
  }

  /** The cache answers a call made at `now` without any request. */
  predicate Serves(st: CacheState, now: int) {
    Truthy(st.accessToken) && now < st.expiresAtMs
  }

  predicate CredentialsSet(cfg: Credentials) {
    Truthy(cfg.clientId) && Truthy(cfg.clientSecret)
  }

  /** `Math.max(0, expires_in * 1000 - safetyWindowMs)` */
  function TtlMs(expiresIn: int): int {
    if expiresIn * 1000 - SafetyWindowMs > 0 then expiresIn * 1000 - SafetyWindowMs else 0
  }

  /**
   * One call: `now` is the first clock reading, `refreshedAt` the reading after the token
   * response; `response` is used only when a request is sent.
   */
  function Call(st: CacheState, now: int, cfg: Credentials, response: TokenResponse, refreshedAt: int): CallResult {
    if Serves(st, now) then CallResult(st, Ok(st.accessToken.value), false)
    else if !CredentialsSet(cfg) then CallResult(st, Err(CredentialsNotSet), false)
    else match response
      case TokenRejected(status, text) => CallResult(st, Err(TokenError(status, text)), true)
      case TokenOk(token, expiresIn) =>
        CallResult(CacheState(Some(token), refreshedAt + TtlMs(expiresIn)), Ok(token), true)
  }

  /** The TTL is never negative and cuts 30 s off the advertised lifetime whenever that leaves any. */
  lemma TtlBounds(expiresIn: int)
    ensures TtlMs(expiresIn) >= 0
    ensures TtlMs(expiresIn) + SafetyWindowMs >= expiresIn * 1000
    ensures expiresIn * 1000 > SafetyWindowMs ==> TtlMs(expiresIn) + SafetyWindowMs == expiresIn * 1000
    ensures expiresIn * 1000 <= SafetyWindowMs ==> TtlMs(expiresIn) == 0
  {
  }

  /** A serving cache answers with its token, sends nothing and stays as it was. */
  lemma CacheHit(st: CacheState, now: int, cfg: Credentials, response: TokenResponse, refreshedAt: int)
    requires Serves(st, now)
    ensures var c := Call(st, now, cfg, response, refreshedAt);
      c.result == Ok(st.accessToken.value) && !c.requested && c.state == st
  {
  }

  /**
   * Every failure leaves the cache as it was; unset credentials fail before any request and a
   * rejected token request fails with its status and text.
   */
  lemma FailuresKeepCache(st: CacheState, now: int, cfg: Credentials, response: TokenResponse, refreshedAt: int)
    ensures var c := Call(st, now, cfg, response, refreshedAt);
      && (c.result.Err? ==> c.state == st)
      && (c.result == Err(CredentialsNotSet) <==> !Serves(st, now) && !CredentialsSet(cfg))
      && (c.result == Err(CredentialsNotSet) ==> !c.requested)
      && (c.result.Err? && c.result.error.TokenError? <==> !Serves(st, now) && CredentialsSet(cfg) && response.TokenRejected?)
  {
  }

  /**
   * A request is sent exactly when the cache does not serve and the credentials are set; a
   * successful one stores the new token with expiry refreshedAt + TTL and returns that token.
   */
  lemma RefreshStoresReturned(st: CacheState, now: int, cfg: Credentials, response: TokenResponse, refreshedAt: int)
    ensures var c := Call(st, now, cfg, response, refreshedAt);
      && (c.requested <==> !Serves(st, now) && CredentialsSet(cfg))
      && (c.requested && response.TokenOk? ==>
            c.state == CacheState(Some(response.accessToken), refreshedAt + TtlMs(response.expiresIn))
            && c.result == Ok(c.state.accessToken.value))
  {
  }

  /**
   * After a refresh that stored a non-empty token, a later call is answered from the cache
   * exactly while its clock reading is below refreshedAt + TTL, that is until 30 s before the
   * advertised expiry; a lifetime of 30 s or less is never reused.
   */
  lemma ServedUntilSafetyWindow(st: CacheState, now: int, cfg: Credentials, token: string, expiresIn: int,
                                refreshedAt: int, later: int, cfg2: Credentials, response2: TokenResponse,
                                refreshedAt2: int)
    requires !Serves(st, now) && CredentialsSet(cfg) && token != ""
    requires later >= refreshedAt
    ensures var c := Call(st, now, cfg, TokenOk(token, expiresIn), refreshedAt);
      var c2 := Call(c.state, later, cfg2, response2, refreshedAt2);
      && (!c2.requested && c2.result == Ok(token) <==> later < refreshedAt + TtlMs(expiresIn))
      && (expiresIn * 1000 <= SafetyWindowMs && CredentialsSet(cfg2) ==> c2.requested)
  {
  }

  /** The service object: the two cache fields and, as ghost state, the count of token requests. */
  class NuvemFiscalAuthService {
    var accessToken: Option<string>
    var expiresAtMs: int
    ghost var requests: nat

    function State(): CacheState
      reads this
    {
      CacheState(accessToken, expiresAtMs)
    }

    constructor()
      ensures State() == CacheState(None, 0) && requests == 0
    {
      accessToken := None;
      expiresAtMs := 0;
      requests := 0;
    }

    method GetAccessToken(now: int, cfg: Credentials, response: TokenResponse, refreshedAt: int)
      returns (r: Result<string, AuthError>)
      modifies this
      ensures var c := Call(old(State()), now, cfg, response, refreshedAt);
        && State() == c.state && r == c.result
        && requests == old(requests) + (if c.requested then 1 else 0)
    {
      if accessToken.Some? && accessToken.value != "" && now < expiresAtMs {
        return Ok(accessToken.value);
      }
      if cfg.clientId.None? || cfg.clientId.value == "" || cfg.clientSecret.None? || cfg.clientSecret.value == "" {
        return Err(CredentialsNotSet);
      }
      requests := requests + 1;
      if response.TokenRejected? {
        return Err(TokenError(response.status, response.text));
      }
      var ttlMs := response.expiresIn * 1000 - SafetyWindowMs;
      if ttlMs < 0 {
        ttlMs := 0;
      }
      accessToken := Some(response.accessToken);
      expiresAtMs := refreshedAt + ttlMs;
      return Ok(accessToken.value);
    }
  }
}
