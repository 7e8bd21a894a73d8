/**
 * The credential gate of azureai.py: an `AzureAI` object caches the bearer
 * token of the completion service together with its expiry, and exchanges
 * client credentials for a new one at the token endpoint only when the cached
 * one may no longer be used.
 *
 * Time is an integer number of seconds passed in by the caller; the token
 * endpoint is an `OAuth2Session` whose answers are a parameter of the model.
 */
module Credentials {
  import opened Wrappers

  /** What the token endpoint answers to one client-credentials exchange. */
  datatype Exchange =
    | Refused(reason: string)                                  // transport or protocol failure
    | Granted(accessToken: string, expiresAt: Option<int>)     // `expires_at` is absent when the answer carries neither `expires_in` nor `expires_at`

  /** The exceptions `GetToken` lets escape. */
  datatype TokenError =
    | ExchangeFailed(reason: string)   // raised by the exchange itself
    | MissingExpiresAt                 // the `KeyError` of reading `expires_at` from the answer

  /** Python truthiness of the cached token: `None` and `""` are both false. */
  predicate Truthy(token: Option<string>): (b: bool)
    ensures b <==> token != None && token != Some("")
  {
    token.Some? && token.value != ""
  }

  /**
   * When the cache is used instead of the endpoint. The leeway is ADDED to
   * the expiry, so a token stays in use for up to `leeway` seconds after it
   * has expired.
   */
  predicate CacheHit(token: Option<string>, expiresAt: int, leeway: int, now: int): (b: bool)
    ensures b ==> Truthy(token)
    ensures Truthy(token) ==> (b <==> now <= expiresAt + leeway - 1)
  {
    Truthy(token) && expiresAt + leeway > now
  }

  /** An empty or absent token is never used, whatever its expiry. */
  lemma EmptyTokenNeverHits(token: Option<string>, expiresAt: int, leeway: int, now: int)
    requires token == None || token == Some("")
    ensures !CacheHit(token, expiresAt, leeway, now)
  {
  }

  /** The leeway extends validity: an expired token is still used within `leeway` seconds of its expiry. */
  lemma LeewayExtendsValidity(token: string, expiresAt: int, leeway: int, now: int)
    requires token != ""
    requires expiresAt <= now < expiresAt + leeway
    ensures CacheHit(Some(token), expiresAt, leeway, now)
  {
  }

  /** A cache hit stays a hit at every earlier time and for every larger leeway. */
  lemma CacheHitMonotone(token: Option<string>, expiresAt: int, leeway: int, now: int, earlier: int, wider: int)
    requires CacheHit(token, expiresAt, leeway, now)
    requires earlier <= now && leeway <= wider
    ensures CacheHit(token, expiresAt, wider, earlier)
  {
  }

  /**
   * With `expires_at` 1000 and leeway 100 the cached token is still used at
   * 850 and at 950, and is replaced from 1100 on.
   */
  lemma LeewayScenario(token: string)
    requires token != ""
    ensures CacheHit(Some(token), 1000, 100, 850)
    ensures CacheHit(Some(token), 1000, 100, 950)
    ensures CacheHit(Some(token), 1000, 100, 1099)
    ensures !CacheHit(Some(token), 1000, 100, 1100)
  {
  }

  /**
   * The OAuth2 session of the token endpoint. `answer(k)` is what its k-th
   * exchange returns; `exchanges` counts the exchanges made so far.
   */
  class OAuth2Session {
    const answer: nat -> Exchange
    var exchanges: nat

    constructor (answer: nat -> Exchange)
      ensures this.answer == answer && exchanges == 0
    {
      this.answer := answer;
      exchanges := 0;
    }

    /** One client-credentials exchange against the token endpoint. */
    method FetchToken() returns (x: Exchange)
      modifies this
      ensures exchanges == old(exchanges) + 1
      ensures x == answer(old(exchanges))
    {
      x := answer(exchanges);
      exchanges := exchanges + 1;
    }
  }

  /** The API handle built from a token. */
  datatype ChatClient = ChatClient(apiKey: string)

  class AzureAI {
    const leeway: int
    const session: OAuth2Session
    var token: Option<string>
    var tokenExpiresAt: int

    /**
     * A new instance holds no token and an expiry of 0, and creates its own
     * session with the token endpoint, which has made no exchange yet.
     */
    constructor (leeway: int, answer: nat -> Exchange)
      ensures this.leeway == leeway
      ensures fresh(session) && session.answer == answer && session.exchanges == 0
      ensures token == None && tokenExpiresAt == 0
      ensures forall now :: !CacheHit(token, tokenExpiresAt, leeway, now)
    {
      this.leeway := leeway;
      session := new OAuth2Session(answer);
      token := None;
      tokenExpiresAt := 0;
    }

    predicate HasUsableToken(now: int)
      reads this
    {
      CacheHit(token, tokenExpiresAt, leeway, now)
    }

    /**
     * What one `GetToken(now)` does, returning `r`:
     *  - with a usable cached token it returns that token, changes nothing and
     *    makes no exchange;
     *  - otherwise it makes exactly one exchange and, according to the answer,
     *    leaves the cache as it was and fails (refused), or stores the new
     *    token and fails (no `expires_at`), or stores the token and its expiry
     *    and returns the new token.
     */
    twostate predicate ServedToken(now: int, new r: Result<string, TokenError>)
      reads this, session
    {
      if old(HasUsableToken(now)) then
        && r == Ok(old(token).value)
        && token == old(token) && tokenExpiresAt == old(tokenExpiresAt)
        && session.exchanges == old(session.exchanges)
      else
        && session.exchanges == old(session.exchanges) + 1
        && match session.answer(old(session.exchanges))
           case Refused(why) =>
             r == Err(ExchangeFailed(why)) && token == old(token) && tokenExpiresAt == old(tokenExpiresAt)
           case Granted(t, None) =>
             r == Err(MissingExpiresAt) && token == Some(t) && tokenExpiresAt == old(tokenExpiresAt)
           case Granted(t, Some(e)) =>
             r == Ok(t) && token == Some(t) && tokenExpiresAt == e
    }

    /** The cached token if it may still be used at `now`, otherwise a new one from the endpoint. */
    method GetToken(now: int) returns (r: Result<string, TokenError>)
      modifies this, session
      ensures ServedToken(now, r)
    {
      if CacheHit(token, tokenExpiresAt, leeway, now) {
        return Ok(token.value);
      }
      var x := session.FetchToken();
      match x
      case Refused(why) =>
        return Err(ExchangeFailed(why));
      case Granted(t, expiry) =>
        token := Some(t);
        if expiry.None? {
          return Err(MissingExpiresAt);
        }
        tokenExpiresAt := expiry.value;
        return Ok(t);
    }

    /** Resolves the token once, with `GetToken`, and uses it as the API key of the handle. */
    method GetClient(now: int) returns (r: Result<ChatClient, TokenError>)
      modifies this, session
      ensures r.Ok? ==> ServedToken(now, Ok(r.value.apiKey))
      ensures r.Err? ==> ServedToken(now, Err(r.error))
    {
      var t := GetToken(now);
      match t
      case Ok(key) => return Ok(ChatClient(key));
      case Err(e) => return Err(e);
    }
  }

  /** The first `GetToken` of a new instance always exchanges credentials. */
  method FirstGetTokenExchanges(leeway: int, answer: nat -> Exchange, now: int) returns (gate: AzureAI, r: Result<string, TokenError>)
    ensures fresh(gate) && fresh(gate.session) && gate.session.answer == answer && gate.session.exchanges == 1
    ensures r.Ok? ==> var x := answer(0);
                        x.Granted? && x.expiresAt.Some? && r == Ok(x.accessToken) && gate.token == Some(x.accessToken)
                        && gate.tokenExpiresAt == x.expiresAt.value
  {
    gate := new AzureAI(leeway, answer);
    r := gate.GetToken(now);
  }

  /**
   * Two calls at the same time return the same token, with one exchange at
   * most over both, when the token was usable already or the endpoint grants
   * a non-empty token with an `expires_at` whose sum with the leeway lies
   * after `now`.
   */
  method GetTokenTwice(gate: AzureAI, now: int) returns (r1: Result<string, TokenError>, r2: Result<string, TokenError>)
    modifies gate, gate.session
    ensures old(gate.HasUsableToken(now)) ==> r1 == r2 == Ok(old(gate.token).value)
    ensures old(gate.HasUsableToken(now)) ==> gate.session.exchanges == old(gate.session.exchanges)
    ensures !old(gate.HasUsableToken(now)) && old(gate.session.answer(gate.session.exchanges)).Granted? ==>
              var x := old(gate.session.answer(gate.session.exchanges));
              x.expiresAt.Some? && x.accessToken != "" && x.expiresAt.value + gate.leeway > now ==>
                r1 == r2 == Ok(x.accessToken) && gate.session.exchanges == old(gate.session.exchanges) + 1
  {
    r1 := gate.GetToken(now);
    r2 := gate.GetToken(now);
  }
}
