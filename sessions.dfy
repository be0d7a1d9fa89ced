/**
 * Sessions over time: any sequence of register, login, refresh and logout
 * requests keeps the store's invariants, and the life of one user's sessions
 * goes as rotation dictates (one live refresh token, single-use refresh).
 */
module Sessions {
  import opened Entities
  import opened RefreshTokens
  import opened Auth

  /** The operations callers can request. Logout only clears the client's cookie. */
  datatype Request =
    | RegisterRequest(email: Email, password: string)
    | LoginRequest(email: Email, password: string)
    | RefreshRequest(token: string)
    | LogoutRequest

  /** A request together with the clock reading and the generated token value it runs with. */
  datatype Call = Call(request: Request, now: nat, value: string)

  /** The state after handling one call: each endpoint hands its request to the service; logout changes nothing. */
  function Handle(st: AuthState, call: Call, encoder: PasswordEncoder, jwt: User -> string): (after: AuthState)
    ensures forall e :: e in st.users ==> e in after.users && after.users[e] == st.users[e]
    ensures !call.request.RegisterRequest? ==> after.users == st.users
    ensures call.request.RegisterRequest? ==> after.tokens == st.tokens
    ensures call.request.LogoutRequest? ==> after == st
  {
    match call.request
    case RegisterRequest(email, password) => RegisterStep(st, email, password, encoder).state
    case LoginRequest(email, password) => LoginStep(st, email, password, call.now, call.value, encoder, jwt).state
    case RefreshRequest(token) => RefreshStep(st, token, call.now, call.value, jwt).state
    case LogoutRequest => st
  }

  /** The state after handling the calls in order. */
  function Run(st: AuthState, calls: seq<Call>, encoder: PasswordEncoder, jwt: User -> string): AuthState
    decreases |calls|
  {
    if calls == [] then st else Run(Handle(st, calls[0], encoder, jwt), calls[1..], encoder, jwt)
  }

  /** Every stored token is owned by a user the table holds, exactly as the table holds it. */
  ghost predicate OwnersRegistered(st: AuthState) {
    forall t :: t in st.tokens ==>
      var owner := st.tokens[t].user;
      owner.email in st.users && st.users[owner.email] == owner.password
  }

  ghost predicate Consistent(st: AuthState) {
    AtMostOnePerUser(st.tokens) && OwnersRegistered(st)
  }

  lemma HandleKeepsConsistent(st: AuthState, call: Call, encoder: PasswordEncoder, jwt: User -> string)
    requires Consistent(st)
    ensures Consistent(Handle(st, call, encoder, jwt))
  {
  }

  /** However the calls go, no user ever holds two refresh tokens and no token outlives its owner's table entry. */
  lemma {:induction false} RunKeepsConsistent(st: AuthState, calls: seq<Call>, encoder: PasswordEncoder, jwt: User -> string)
    requires Consistent(st)
    ensures Consistent(Run(st, calls, encoder, jwt))
    decreases |calls|
  {
    if calls != [] {
      HandleKeepsConsistent(st, calls[0], encoder, jwt);
      RunKeepsConsistent(Handle(st, calls[0], encoder, jwt), calls[1..], encoder, jwt);
    }
  }

  /** Users are never removed or changed: the table only grows. */
  lemma {:induction false} RunOnlyAddsUsers(st: AuthState, calls: seq<Call>, encoder: PasswordEncoder, jwt: User -> string)
    ensures var after := Run(st, calls, encoder, jwt);
      forall e :: e in st.users ==> e in after.users && after.users[e] == st.users[e]
    decreases |calls|
  {
    if calls != [] {
      RunOnlyAddsUsers(Handle(st, calls[0], encoder, jwt), calls[1..], encoder, jwt);
    }
  }

  /** Logout does not touch the store: a refresh token that worked before logout still works after it. */
  lemma LogoutKeepsTokenRedeemable(st: AuthState, token: string, now: nat, value: string,
                                   encoder: PasswordEncoder, jwt: User -> string)
    requires RefreshStep(st, token, now, value, jwt).result.Success?
    ensures var after := Handle(st, Call(LogoutRequest, now, value), encoder, jwt);
      RefreshStep(after, token, now, value, jwt).result.Success?
  {
  }

  /**
   * One user's life: register, log in (token r0), refresh r0 into r1, try r0
   * again (refused), log in again (token r2), after which r1 is refused
   * too and r2 works.
   */
  lemma UserLifecycle(email: Email, password: string, encoder: PasswordEncoder, jwt: User -> string,
                      now: nat, r0: string, r1: string, r2: string, r3: string)
    requires Sound(encoder)
    requires r0 != r1 && r1 != r2 && r0 != r2
    ensures var s0 := AuthState(map[], map[]);
      var registered := RegisterStep(s0, email, password, encoder);
      var login1 := LoginStep(registered.state, email, password, now, r0, encoder, jwt);
      var refresh1 := RefreshStep(login1.state, r0, now, r1, jwt);
      var replay := RefreshStep(refresh1.state, r0, now, r3, jwt);
      var login2 := LoginStep(replay.state, email, password, now, r2, encoder, jwt);
      var stale := RefreshStep(login2.state, r1, now, r3, jwt);
      var current := RefreshStep(login2.state, r2, now, r3, jwt);
      && registered.result.Success?
      && login1.result.Success? && login1.result.value.refreshToken == r0
      && refresh1.result.Success? && refresh1.result.value.refreshToken == r1
      && replay.result == Failure(InvalidRefreshToken(INVALID_TOKEN_MESSAGE))
      && login2.result.Success? && login2.result.value.refreshToken == r2
      && stale.result == Failure(InvalidRefreshToken(INVALID_TOKEN_MESSAGE))
      && current.result.Success?
  {
  }
}

/** The same life of one user, driven through the service objects. */
module SessionsOnServices {
  import opened Entities
  import opened RefreshTokens
  import opened Auth

  /** An encoder that prefixes a marker; it matches a password against its own encoding. */
  function PrefixEncoder(): (e: PasswordEncoder)
    ensures Sound(e)
  {
    PasswordEncoder(p => "{enc}" + p, (p: string, h: string) => h == "{enc}" + p)
  }

  method UserLifecycleOnServices(jwt: User -> string, now: nat)
  {
    var tokenService := new RefreshTokenService();
    var auth := new AuthService(tokenService, PrefixEncoder(), jwt);
    var registered := auth.Register("a@x.com", "password1");
    assert registered.Success?;
    var again := auth.Register("a@x.com", "password2");
    assert again == Failure(UserAlreadyExists(AlreadyExistsMessage("a@x.com")));
    // The two encodings differ at their last character, so the wrong-password login below fails.
    assert ("{enc}" + "password1")[13] != ("{enc}" + "password2")[13];
    var wrong := auth.Login("a@x.com", "password2", now, "r0");
    assert wrong == Failure(BadCredentials(BAD_CREDENTIALS_MESSAGE));
    var login1 := auth.Login("a@x.com", "password1", now, "r0");
    assert login1.Success? && login1.value.refreshToken == "r0";
    var refresh1 := auth.Refresh("r0", now, "r1");
    assert refresh1.Success? && refresh1.value.refreshToken == "r1";
    var replay := auth.Refresh("r0", now, "r2");
    assert replay == Failure(InvalidRefreshToken(INVALID_TOKEN_MESSAGE));
    var login2 := auth.Login("a@x.com", "password1", now, "r3");
    assert login2.Success?;
    var stale := auth.Refresh("r1", now, "r4");
    assert stale == Failure(InvalidRefreshToken(INVALID_TOKEN_MESSAGE));
    var late := auth.Refresh("r3", now + REFRESH_TOKEN_LIFETIME + 1, "r5");
    assert late == Failure(InvalidRefreshToken(EXPIRED_TOKEN_MESSAGE));
    assert "r3" !in tokenService.tokens;
  }
}
