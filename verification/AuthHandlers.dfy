/**
  Login, refresh and logout, and the authentication middleware that later checks the access
  tokens.  A signature is ideal: it verifies under exactly the secret it was made with.
 */
module AuthHandlers {
  import opened Arithmetic
  import opened Wrappers
  import opened GoStrings
  import opened KeySets
  import Tokens = RefreshTokens

  /** Lifetimes in seconds. */
  datatype Config = Config(issuer: string, audience: string, jwtTtl: int, refreshTtl: int)

  datatype Access = Access(kid: string, sub: int, issuer: string, audience: string, exp: int, jti: string,
                            signedWith: string)

  datatype Reply =
    | BadJson | RateLimited | TooMany | Unauthorized | InvalidRefresh | ReuseDetected | ServerError
    | LoggedOut
    | TokenPair(access: Access, refresh: string)

  /** `jti` is the drawn token id. */
  function Sign(cfg: Config, provider: EnvProvider, uid: int, now: int, jti: string): Access {
    Access(provider.current, uid, cfg.issuer, cfg.audience, now + cfg.jwtTtl, jti, SigningSecret(provider))
  }

  // ----- The middleware -----

  const EXACT := 0x20_0000_0000_0000

  function Nearest(n: nat, unit: nat): nat
    requires unit > 0
  {
    var q, r := n / unit, n % unit;
    if 2 * r < unit || (2 * r == unit && q % 2 == 0) then q * unit else (q + 1) * unit
  }

  function RoundTo53Bits(n: nat, unit: nat): nat
    requires unit > 0
    decreases n - unit
  {
    if n <= EXACT * unit then Nearest(n, unit) else RoundTo53Bits(n, 2 * unit)
  }

  function Magnitude(n: int): nat { if n < 0 then -n else n }

  /** The integer that a JSON number `n` becomes as a float64, rounded to nearest even. */
  function AsFloat64(n: int): int {
    var magnitude: int := RoundTo53Bits(Magnitude(n), 1);
    if n < 0 then -magnitude else magnitude
  }

  /** The distance of neighbouring float64 values around `n`, doubled from `unit` on. */
  function Spacing(n: nat, unit: nat): (d: nat)
    requires unit > 0
    ensures d > 0
    decreases n - unit
  {
    if n <= EXACT * unit then unit else Spacing(n, 2 * unit)
  }

  /** The ids that are float64 values: every one up to 2^53, every other one up to 2^54, and so on. */
  predicate Representable(n: int) {
    Magnitude(n) % Spacing(Magnitude(n), 1) == 0
  }

  /** The checks of `AuthWith` once its key function returned `key`: the user id, or rejection. */
  function Check(cfg: Config, a: Access, key: string, now: int): Option<int> {
    if a.signedWith != key then None
    else if cfg.issuer != "" && a.issuer != cfg.issuer then None
    else if cfg.audience != "" && a.audience != cfg.audience then None
    else if now >= a.exp then None
    else Some(AsFloat64(a.sub))
  }

  /** Whatever key the middleware picks, its answer is `answer`. */
  ghost predicate MiddlewareAnswers(env: Env, cfg: Config, a: Access, now: int, answer: Option<int>) {
    forall key | MiddlewareMaySelect(VerifierSecrets(env), a.kid, key) :: Check(cfg, a, key, now) == answer
  }

  lemma NearestIsSameIff(n: nat, unit: nat)
    requires unit > 0
    ensures Nearest(n, unit) == n <==> n % unit == 0
    ensures Nearest(n, unit) % unit == 0
    ensures forall m: nat | n <= m * unit :: Nearest(n, unit) <= m * unit
  {
    var q, r := n / unit, n % unit;
    assert n == q * unit + r && (q + 1) * unit == q * unit + unit;
    MultipleOf(q, unit);
    MultipleOf(q + 1, unit);
    forall m: nat | n <= m * unit ensures Nearest(n, unit) <= m * unit {
      if m <= q {
        MulMonotone(unit, m, q);
      } else {
        MulMonotone(unit, q + 1, m);
      }
    }
  }

  lemma {:induction false} RoundingIsSameIff(n: nat, unit: nat)
    requires unit > 0
    ensures RoundTo53Bits(n, unit) == n <==> n % Spacing(n, unit) == 0
    decreases n - unit
  {
    if n <= EXACT * unit {
      NearestIsSameIff(n, unit);
    } else {
      RoundingIsSameIff(n, 2 * unit);
    }
  }

  /** An id survives the middleware exactly if it is a multiple of the spacing around it. */
  lemma ExactIff(n: int)
    ensures AsFloat64(n) == n <==> Representable(n)
  {
    RoundingIsSameIff(Magnitude(n), 1);
  }

  /** Rounding gives a multiple of a spacing, up to which `EXACT` multiples are values. */
  lemma {:induction false} RoundedIsMultiple(n: nat, unit: nat)
    requires unit > 0
    ensures RoundTo53Bits(n, unit) % Spacing(n, unit) == 0
    ensures RoundTo53Bits(n, unit) <= EXACT * Spacing(n, unit)
    decreases n - unit
  {
    if n <= EXACT * unit {
      NearestIsSameIff(n, unit);
    } else {
      RoundedIsMultiple(n, 2 * unit);
    }
  }

  lemma {:induction false} UnitDividesSpacing(n: nat, unit: nat)
    requires unit > 0
    ensures Spacing(n, unit) % unit == 0
    decreases n - unit
  {
    if n > EXACT * unit {
      UnitDividesSpacing(n, 2 * unit);
      MultipleOf(2, unit);
      DividesThrough(unit, 2 * unit, Spacing(n, 2 * unit));
    }
  }

  /** What fits below `EXACT` times a spacing has a spacing that divides it. */
  lemma {:induction false} SmallerSpacingDivides(m: nat, n: nat, unit: nat)
    requires unit > 0 && m <= EXACT * Spacing(n, unit)
    ensures Spacing(n, unit) % Spacing(m, unit) == 0
    decreases n - unit
  {
    if m <= EXACT * unit {
      UnitDividesSpacing(n, unit);
    } else {
      SmallerSpacingDivides(m, n, 2 * unit);
    }
  }

  /** Whatever the id, the middleware reads a representable one. */
  lemma ReadIsRepresentable(n: int)
    ensures Representable(AsFloat64(n))
  {
    var k, d := Magnitude(n), Spacing(Magnitude(n), 1);
    var m := RoundTo53Bits(k, 1);
    RoundedIsMultiple(k, 1);
    SmallerSpacingDivides(m, k, 1);
    DividesThrough(Spacing(m, 1), d, m);
    assert Magnitude(AsFloat64(n)) == m;
  }

  function Distance(a: int, b: int): nat { if a < b then b - a else a - b }

  lemma NearestParts(n: nat, unit: nat) returns (q: nat, r: nat)
    requires unit > 0
    ensures r < unit && n == q * unit + r
    ensures var down := 2 * r < unit || (2 * r == unit && q % 2 == 0);
            && Nearest(n, unit) == (if down then q * unit else q * unit + unit)
            && Nearest(n, unit) / unit == if down then q else q + 1
  {
    q, r := n / unit, n % unit;
    assert (q + 1) * unit == q * unit + unit;
    QuotientOf(q, unit);
    QuotientOf(q + 1, unit);
  }

  lemma TieIsEven(n: nat, unit: nat)
    requires unit > 0
    ensures 2 * Distance(Nearest(n, unit), n) == unit ==> (Nearest(n, unit) / unit) % 2 == 0
  {
    var q, r := NearestParts(n, unit);
  }

  lemma MultiplesApart(q: nat, k: nat, unit: nat)
    ensures k <= q ==> k * unit <= q * unit
    ensures k > q ==> k * unit >= q * unit + unit
  {
    if k <= q {
      MulMonotone(unit, k, q);
    } else {
      MulMonotone(unit, q + 1, k);
    }
  }

  lemma NearestIsCloser(n: nat, unit: nat, base: nat, r: nat, m: nat)
    requires unit > 0 && r < unit && n == base + r && (m <= base || m >= base + unit)
    requires Nearest(n, unit)
             == if 2 * r < unit || (2 * r == unit && Nearest(n, unit) == base) then base else base + unit
    ensures Distance(Nearest(n, unit), n) <= Distance(m, n)
  {
    Closer(base, r, unit, Nearest(n, unit), m);
  }

  lemma NearestMultiple(n: nat, unit: nat, k: nat)
    requires unit > 0
    ensures Distance(Nearest(n, unit), n) <= Distance(k * unit, n)
  {
    var q, r := NearestParts(n, unit);
    MultiplesApart(q, k, unit);
    NearestIsCloser(n, unit, q * unit, r, k * unit);
  }

  lemma Closer(base: nat, r: nat, unit: nat, near: nat, m: nat)
    requires r < unit && (m <= base || m >= base + unit)
    requires (near == base && 2 * r <= unit) || (near == base + unit && 2 * r >= unit)
    ensures Distance(near, base + r) <= Distance(m, base + r)
  {
  }

  /** A value of the lower half fits the doubled spacing only at its upper end. */
  lemma HalfwayIsMultiple(unit: nat)
    requires unit > 0
    ensures EXACT * unit <= EXACT * (2 * unit) && (EXACT * unit) % (2 * unit) == 0
  {
    assert EXACT * unit == (EXACT / 2) * (2 * unit);
    MultipleOf(EXACT / 2, 2 * unit);
  }

  lemma {:induction false} RoundsToNearest(n: nat, unit: nat, m: nat)
    requires unit > 0 && m % Spacing(m, unit) == 0
    ensures Distance(RoundTo53Bits(n, unit), n) <= Distance(m, n)
    ensures 2 * Distance(RoundTo53Bits(n, unit), n) == Spacing(n, unit) ==>
              (RoundTo53Bits(n, unit) / Spacing(n, unit)) % 2 == 0
    decreases n - unit
  {
    if n <= EXACT * unit {
      UnitDividesSpacing(m, unit);
      DividesThrough(unit, Spacing(m, unit), m);
      assert m == m / unit * unit;
      NearestMultiple(n, unit, m / unit);
      TieIsEven(n, unit);
    } else if m > EXACT * unit {
      RoundsToNearest(n, 2 * unit, m);
    } else {
      HalfwayIsMultiple(unit);
      RoundsToNearest(n, 2 * unit, EXACT * unit);
    }
  }

  /** The id that is read is the nearest representable one, and halfway between two the even multiple. */
  lemma ReadIsNearest(n: int, m: int)
    requires Representable(m)
    ensures Distance(AsFloat64(n), n) <= Distance(m, n)
    ensures var d := Spacing(Magnitude(n), 1);
            2 * Distance(AsFloat64(n), n) == d ==> (Magnitude(AsFloat64(n)) / d) % 2 == 0
  {
    RoundsToNearest(Magnitude(n), 1, Magnitude(m));
    RoundsToNearest(Magnitude(n), 1, 0);
  }

  /** An id that does not survive is read as another one, whose own tokens say the same. */
  lemma InexactIdIsConfused(n: int)
    requires !Representable(n)
    ensures AsFloat64(n) != n && AsFloat64(AsFloat64(n)) == AsFloat64(n)
  {
    ExactIff(n);
    ReadIsRepresentable(n);
    ExactIff(AsFloat64(n));
  }

  lemma SmallIdsAreExact(n: int)
    requires -EXACT <= n <= EXACT
    ensures AsFloat64(n) == n && Representable(n)
  {
    ExactIff(n);
  }

  /** The first id that is not exact is read as its neighbour's. */
  lemma LargeIdIsConfused()
    ensures AsFloat64(EXACT + 1) == EXACT && !Representable(EXACT + 1)
  {
    assert EXACT + 1 > EXACT * 1;
    assert RoundTo53Bits(EXACT + 1, 1) == RoundTo53Bits(EXACT + 1, 2) == Nearest(EXACT + 1, 2);
    ExactIff(EXACT + 1);
  }

  lemma SomeKeyIsSelected(secrets: Secrets, kid: string) returns (key: string)
    requires secrets != map[]
    ensures MiddlewareMaySelect(secrets, kid, key)
  {
    if kid != "" && kid in secrets {
      key := secrets[kid];
    } else {
      var k :| k in secrets;
      key := secrets[k];
    }
  }

  /**
    With a usable current key, a freshly signed access token is accepted until it expires and
    rejected from then on, whichever key the middleware picks; while it is accepted it names
    its user exactly if the id is representable.
   */
  lemma SignedTokenIsAccepted(env: Env, cfg: Config, uid: int, at: int, now: int, jti: string)
    requires CurrentKeyUsable(Listed(env.keys), TrimSpace(env.currentKid), env.secret)
    ensures MiddlewareAnswers(env, cfg, Sign(cfg, SignerProvider(env), uid, at, jti), now,
                              if now < at + cfg.jwtTtl then Some(AsFloat64(uid)) else None)
    ensures now < at + cfg.jwtTtl ==>
              (MiddlewareAnswers(env, cfg, Sign(cfg, SignerProvider(env), uid, at, jti), now, Some(uid))
               <==> Representable(uid))
  {
    SignerAndVerifiersAgree(env);
    ExactIff(uid);
    assert Listed(env.keys) == map[] ==> "default" in VerifierSecrets(env);
    var key := SomeKeyIsSelected(VerifierSecrets(env), SignerProvider(env).current);
  }

  // ----- What the middleware accepts, of any token -----

  /** Issuer and audience are as configured, where they are, and the token has not expired. */
  predicate ClaimsInOrder(cfg: Config, a: Access, now: int) {
    && (cfg.issuer == "" || a.issuer == cfg.issuer)
    && (cfg.audience == "" || a.audience == cfg.audience)
    && now < a.exp
  }

  /** For some key that the middleware may pick, it accepts the token as user `id`. */
  ghost predicate MayAccept(env: Env, cfg: Config, a: Access, now: int, id: int) {
    exists key :: MiddlewareMaySelect(VerifierSecrets(env), a.kid, key) && Check(cfg, a, key, now) == Some(id)
  }

  /**
    The middleware can accept a token exactly if its claims are in order and it is signed with
    the listed secret of its key id, or, if that id is empty or not listed, with any listed secret.
   */
  lemma MayAcceptIff(env: Env, cfg: Config, a: Access, now: int, id: int)
    ensures var listed := if Listed(env.keys) == map[] then map["default" := env.secret] else Listed(env.keys);
            MayAccept(env, cfg, a, now, id) <==>
              && ClaimsInOrder(cfg, a, now) && id == AsFloat64(a.sub)
              && if a.kid != "" && a.kid in listed then a.signedWith == listed[a.kid]
                 else exists k :: k in listed && listed[k] == a.signedWith
  {
    var listed := VerifierSecrets(env);
    if ClaimsInOrder(cfg, a, now) && MiddlewareMaySelect(listed, a.kid, a.signedWith) {
      assert Check(cfg, a, a.signedWith, now) == Some(AsFloat64(a.sub));
    }
  }

  /** It is sure to accept one exactly if every secret that it may pick is the one the token is signed with. */
  lemma MustAcceptIff(env: Env, cfg: Config, a: Access, now: int, id: int)
    ensures var listed := if Listed(env.keys) == map[] then map["default" := env.secret] else Listed(env.keys);
            MiddlewareAnswers(env, cfg, a, now, Some(id)) <==>
              && ClaimsInOrder(cfg, a, now) && id == AsFloat64(a.sub)
              && if a.kid != "" && a.kid in listed then a.signedWith == listed[a.kid]
                 else forall k | k in listed :: listed[k] == a.signedWith
  {
    var listed := VerifierSecrets(env);
    assert Listed(env.keys) == map[] ==> "default" in listed;
    var key := SomeKeyIsSelected(listed, a.kid);
    if MiddlewareAnswers(env, cfg, a, now, Some(id)) {
      assert Check(cfg, a, key, now) == Some(id);
      if !(a.kid != "" && a.kid in listed) {
        forall k | k in listed ensures listed[k] == a.signedWith {
          assert MiddlewareMaySelect(listed, a.kid, listed[k]);
        }
      }
    }
  }

  /** A forged, foreign or expired token is rejected, whichever key is picked. */
  lemma ForgedIsRejected(env: Env, cfg: Config, a: Access, now: int)
    requires (forall k | k in VerifierSecrets(env) :: VerifierSecrets(env)[k] != a.signedWith)
             || (cfg.issuer != "" && a.issuer != cfg.issuer)
             || (cfg.audience != "" && a.audience != cfg.audience)
             || a.exp <= now
    ensures MiddlewareAnswers(env, cfg, a, now, None)
  {
    forall key | MiddlewareMaySelect(VerifierSecrets(env), a.kid, key) ensures Check(cfg, a, key, now) == None {
      if id: int :| Check(cfg, a, key, now) == Some(id) {
        assert MayAccept(env, cfg, a, now, id);
        MayAcceptIff(env, cfg, a, now, id);
      }
    }
  }

  /**
    Logout accepts a token exactly while it has not expired and if it is signed with the listed
    secret of its key id or, if that id is empty or not listed, of the current one.
   */
  lemma LogoutAcceptsIff(env: Env, a: Access, now: int)
    ensures var listed, current := Listed(env.keys), TrimSpace(env.currentKid);
            LogoutAccepts(SignerProvider(env), a, now) <==>
              now < a.exp
              && if listed == map[] then env.secret != "" && a.signedWith == env.secret
                 else if a.kid != "" && a.kid in listed then a.signedWith == listed[a.kid]
                 else current in listed && a.signedWith == listed[current]
  {
    ParsersAgree(env.keys);
  }

  // ----- The handlers -----

  predicate LogoutAccepts(provider: EnvProvider, access: Access, now: int) {
    LogoutSelects(provider, access.kid) == Some(access.signedWith) && now < access.exp
  }

  class Auth {
    const cfg: Config
    const provider: EnvProvider
    const tokens: Tokens.RefreshTokens
    const hasJtiStore: bool
    /** The token ids that the JTI store holds, and until when. */
    var revoked: map<string, int>

    constructor (cfg: Config, provider: EnvProvider, tokens: Tokens.RefreshTokens, hasJtiStore: bool)
      ensures this.cfg == cfg && this.provider == provider && this.tokens == tokens && this.hasJtiStore == hasJtiStore
      ensures revoked == map[]
    {
      this.cfg, this.provider, this.tokens, this.hasJtiStore := cfg, provider, tokens, hasJtiStore;
      revoked := map[];
    }

    /**
      `Login`: `decoded` says that the body is JSON, `emailOk` and `bruteOk` are the limiters'
      decisions, and `user` is the id whose password matched.
     */
    method Login(decoded: bool, emailOk: bool, bruteOk: bool, user: Option<int>, now: int, jti: string,
                 drawn: Tokens.Token, ok: bool) returns (reply: Reply)
      modifies tokens
      ensures reply.TokenPair? <==> decoded && emailOk && bruteOk && user.Some? && ok && drawn !in old(tokens.rows)
      ensures reply.TokenPair? ==>
                && reply == TokenPair(Sign(cfg, provider, user.value, now, jti), drawn)
                && reply.access == Access(provider.current, user.value, cfg.issuer, cfg.audience, now + cfg.jwtTtl, jti,
                                          if provider.current in provider.secrets
                                          then provider.secrets[provider.current] else "")
                && tokens.rows == old(tokens.rows)[drawn := Tokens.Row(user.value, now + cfg.refreshTtl, None)]
      ensures !reply.TokenPair? ==>
                && tokens.rows == old(tokens.rows)
                && reply == if !decoded then BadJson else if !emailOk then RateLimited else if !bruteOk then TooMany
                            else if user.None? then Unauthorized else ServerError
    {
      if !decoded { return BadJson; }
      if !emailOk { return RateLimited; }
      if !bruteOk { return TooMany; }
      if user.None? { return Unauthorized; }
      var access := Sign(cfg, provider, user.value, now, jti);
      var refresh, issued := tokens.Issue(user.value, now + cfg.refreshTtl, drawn, ok);
      if !issued { return ServerError; }
      return TokenPair(access, refresh);
    }

    /** `Refresh`: the new access token is for the owner of the presented refresh token. */
    method Refresh(decoded: bool, refresh: Tokens.Token, now: int, jti: string, drawn: Tokens.Token,
                   times: Tokens.Times, fault: Tokens.Fault) returns (reply: Reply)
      modifies tokens
      ensures !decoded ==> reply == BadJson && tokens.rows == old(tokens.rows)
      ensures decoded ==>
                var found := Tokens.Find(old(tokens.rows), refresh, times.select);
                var r := if Tokens.Reaches(fault, found) then Tokens.Result(old(tokens.rows), Tokens.Failed)
                         else Tokens.RotateTx(old(tokens.rows), refresh, drawn, now + cfg.refreshTtl, times);
                && tokens.rows == r.table
                && reply == match r.outcome
                            case NoRows => InvalidRefresh
                            case Failed => ServerError
                            case Reused(_) => ReuseDetected
                            case Granted(uid) => TokenPair(Sign(cfg, provider, uid, now, jti), drawn)
      ensures reply.TokenPair? ==>
                && refresh in old(tokens.rows) && drawn !in old(tokens.rows)
                && old(tokens.rows)[refresh].usedAt.None? && old(tokens.rows)[refresh].expiresAt > times.select
                && var was := old(tokens.rows)[refresh];
                   && tokens.rows == old(tokens.rows)[refresh := was.(usedAt := Some(times.update))]
                                                     [drawn := Tokens.Row(was.uid, now + cfg.refreshTtl, None)]
                   && reply.refresh == drawn
                   && reply.access == Access(provider.current, was.uid, cfg.issuer, cfg.audience, now + cfg.jwtTtl, jti,
                                             if provider.current in provider.secrets
                                             then provider.secrets[provider.current] else "")
    {
      if !decoded { return BadJson; }
      var outcome, newTok := tokens.UseAndRotate(refresh, now + cfg.refreshTtl, drawn, times, fault);
      match outcome {
        case NoRows => return InvalidRefresh;
        case Failed => return ServerError;
        case Reused(_) => return ReuseDetected;
        case Granted(uid) => return TokenPair(Sign(cfg, provider, uid, now, jti), newTok);
      }
    }

    /**
      `Logout`: a valid, unexpired access token lets anyone revoke the refresh token they name.
      The access token's own id is stored until the token expires.  `jtiOk` and `ok` say
      whether the two revocations work; their errors are ignored.
     */
    method Logout(access: Access, refresh: Tokens.Token, now: int, jtiOk: bool, ok: bool) returns (reply: Reply)
      modifies this, tokens
      ensures reply == if LogoutAccepts(provider, access, now) then LoggedOut else Unauthorized
      ensures tokens.rows == if reply.LoggedOut? && refresh != "" && ok then old(tokens.rows) - {refresh}
                             else old(tokens.rows)
      ensures revoked == if reply.LoggedOut? && hasJtiStore && access.jti != "" && jtiOk
                         then old(revoked)[access.jti := access.exp] else old(revoked)
    {
      var key := LogoutSelects(provider, access.kid);
      if key.None? || access.signedWith != key.value || now >= access.exp { return Unauthorized; }
      var ttl := access.exp - now;
      if ttl < 0 { ttl := 0; }
      if hasJtiStore && access.jti != "" && jtiOk {
        revoked := revoked[access.jti := now + ttl];
      }
      if refresh != "" {
        tokens.Revoke(refresh, ok);
      }
      return LoggedOut;
    }
  }

  /** Logout accepts a token it signed exactly until the token expires and if the current key id is among the keys. */
  lemma SignedTokenLogsOut(env: Env, cfg: Config, uid: int, at: int, now: int, jti: string)
    ensures LogoutAccepts(SignerProvider(env), Sign(cfg, SignerProvider(env), uid, at, jti), now)
            <==> now < at + cfg.jwtTtl
                 && (if Listed(env.keys) == map[] then env.secret != ""
                     else TrimSpace(env.currentKid) in Listed(env.keys))
  {
    ParsersAgree(env.keys);
  }
}
