/**
 * The authentication service: register a user, log in with email and
 * password, and trade a refresh token for a new token pair. Each public
 * operation is one step over the user table and the token store, its
 * updates applied in the order the code writes them.
 *
 * `RegisterStep`, `LoginStep` and `RefreshStep` are the specification, on
 * values; the class `AuthService` drives the user table and a
 * `RefreshTokenService` and is proved to agree with them.
 */
module Auth {
  import opened Entities
  import opened RefreshTokens

  const BAD_CREDENTIALS_MESSAGE: string := "Invalid email or password"

  function AlreadyExistsMessage(email: Email): string {
    "User with email " + email + " already exists"
  }

  /** The user repository: email to encoded password. */
  type UserTable = map<Email, string>

  /** Everything the service can change: the user table and the token store. */
  datatype AuthState = AuthState(users: UserTable, tokens: TokenStore)

  /** What an operation returns (or throws), and the state it leaves behind. */
  datatype Outcome<T> = Outcome(result: Result<T>, state: AuthState)

  /** `register(email, password)`. */
  function RegisterStep(st: AuthState, email: Email, password: string, encoder: PasswordEncoder): (o: Outcome<()>)
    ensures o.result.Failure? <==> email in st.users
    ensures o.result.Failure? ==> o.result.error == UserAlreadyExists(AlreadyExistsMessage(email)) && o.state == st
    ensures o.result.Success? ==> o.state.users.Keys == st.users.Keys + {email}
    ensures o.result.Success? ==> o.state.users[email] == encoder.encode(password)
    ensures forall e :: e in st.users ==> e in o.state.users && o.state.users[e] == st.users[e]
    ensures o.state.tokens == st.tokens
  {
    if email in st.users then
      Outcome(Failure(UserAlreadyExists(AlreadyExistsMessage(email))), st)
    else
      Outcome(Success(()), AuthState(st.users[email := encoder.encode(password)], st.tokens))
  }

  /** `issueTokens(user)`: an access token for `user` and a freshly rotated refresh token. */
  function IssueTokensStep(tokens: TokenStore, user: User, now: nat, value: string, jwt: User -> string): (o: (TokenPair, TokenStore))
    ensures o.0 == TokenPair(jwt(user), value)
    ensures TokensOf(o.1, user) == {value}
    ensures o.1[value].expiresAt == now + REFRESH_TOKEN_LIFETIME
    ensures forall t :: t in TokensOf(tokens, user) && t != value ==> t !in o.1
    ensures value !in tokens ==> forall t :: t in tokens && tokens[t].user != user ==> t in o.1 && o.1[t] == tokens[t]
    ensures o.1 == Issue(tokens, user, value, now)
  {
    (TokenPair(jwt(user), value), Issue(tokens, user, value, now))
  }

  /** `login(email, password)`. */
  function LoginStep(st: AuthState, email: Email, password: string, now: nat, value: string,
                     encoder: PasswordEncoder, jwt: User -> string): (o: Outcome<TokenPair>)
    ensures o.result.Failure? <==> email !in st.users || !encoder.matches(password, st.users[email])
    ensures o.result.Failure? ==> o.result.error == BadCredentials(BAD_CREDENTIALS_MESSAGE) && o.state == st
    ensures o.result.Success? ==>
      var user := User(email, st.users[email]);
      && o.result.value == TokenPair(jwt(user), value)
      && o.state == AuthState(st.users, Issue(st.tokens, user, value, now))
  {
    if email !in st.users then
      Outcome(Failure(BadCredentials(BAD_CREDENTIALS_MESSAGE)), st)
    else
      var user := User(email, st.users[email]);
      if !encoder.matches(password, user.password) then
        Outcome(Failure(BadCredentials(BAD_CREDENTIALS_MESSAGE)), st)
      else
        var (pair, tokens) := IssueTokensStep(st.tokens, user, now, value, jwt);
        Outcome(Success(pair), AuthState(st.users, tokens))
  }

  /** `refresh(token)`. */
  function RefreshStep(st: AuthState, token: string, now: nat, value: string, jwt: User -> string): (o: Outcome<TokenPair>)
    ensures o.result.Success? <==> token in st.tokens && now <= st.tokens[token].expiresAt
    ensures o.result.Failure? ==>
      var redeemed := Redeem(st.tokens, token, now);
      && o.result == Failure(redeemed.result.error)
      && o.state == AuthState(st.users, redeemed.store)
    ensures o.result.Success? ==>
      var user := st.tokens[token].user;
      && o.result.value == TokenPair(jwt(user), value)
      && o.state == AuthState(st.users, Issue(st.tokens, user, value, now))
  {
    var redeemed := Redeem(st.tokens, token, now);
    match redeemed.result
    case Failure(e) => Outcome(Failure(e), AuthState(st.users, redeemed.store))
    case Success(user) =>
      var (pair, tokens) := IssueTokensStep(redeemed.store, user, now, value, jwt);
      Outcome(Success(pair), AuthState(st.users, tokens))
  }

  /** The two ways login can fail throw one and the same error and leave the state as it was. */
  lemma LoginFailuresMerged(st: AuthState, unknown: Email, known: Email, password: string, now: nat,
                            value: string, encoder: PasswordEncoder, jwt: User -> string)
    requires unknown !in st.users
    requires known in st.users && !encoder.matches(password, st.users[known])
    ensures LoginStep(st, unknown, password, now, value, encoder, jwt)
         == LoginStep(st, known, password, now, value, encoder, jwt)
         == Outcome(Failure(BadCredentials(BAD_CREDENTIALS_MESSAGE)), st)
  {
  }

  /** After a successful login the new refresh token is the user's only one; every earlier one is no longer redeemable. */
  lemma LoginRotates(st: AuthState, email: Email, password: string, now: nat, value: string,
                     encoder: PasswordEncoder, jwt: User -> string, earlier: string, later: nat)
    requires email in st.users && encoder.matches(password, st.users[email])
    requires earlier in st.tokens && st.tokens[earlier].user == User(email, st.users[email]) && earlier != value
    ensures var o := LoginStep(st, email, password, now, value, encoder, jwt);
      && o.result.Success?
      && TokensOf(o.state.tokens, User(email, st.users[email])) == {o.result.value.refreshToken}
      && Redeem(o.state.tokens, earlier, later).result.Failure?
  {
  }

  /** A successful register followed by login with the same password succeeds, given a sound encoder. */
  lemma RegisterThenLogin(st: AuthState, email: Email, password: string, now: nat, value: string,
                          encoder: PasswordEncoder, jwt: User -> string)
    requires Sound(encoder)
    requires email !in st.users
    ensures var registered := RegisterStep(st, email, password, encoder).state;
      var o := LoginStep(registered, email, password, now, value, encoder, jwt);
      && o.result.Success?
      && o.result.value.refreshToken == value
      && TokensOf(o.state.tokens, User(email, encoder.encode(password))) == {value}
  {
  }

  /** After registering `password`, logging in with a password the encoder does not match against its encoding fails. */
  lemma RegisterThenWrongLogin(st: AuthState, email: Email, password: string, wrong: string, now: nat, value: string,
                               encoder: PasswordEncoder, jwt: User -> string)
    requires email !in st.users
    requires !encoder.matches(wrong, encoder.encode(password))
    ensures var registered := RegisterStep(st, email, password, encoder).state;
      LoginStep(registered, email, wrong, now, value, encoder, jwt)
        == Outcome(Failure(BadCredentials(BAD_CREDENTIALS_MESSAGE)), registered)
  {
  }

  /**
   * Refresh is single use: after refreshing `t0` into `t1`, refreshing `t0`
   * again fails and changes nothing, while `t1` can be refreshed for the
   * whole of its lifetime and belongs to the same user.
   */
  lemma RefreshIsSingleUse(st: AuthState, t0: string, now: nat, t1: string, jwt: User -> string,
                           later: nat, v2: string, v3: string)
    requires t0 in st.tokens && now <= st.tokens[t0].expiresAt
    requires t1 !in st.tokens
    requires later <= now + REFRESH_TOKEN_LIFETIME
    ensures var o1 := RefreshStep(st, t0, now, t1, jwt);
      && o1.result.Success?
      && o1.result.value.refreshToken == t1
      && o1.state.tokens[t1].user == st.tokens[t0].user
      && t0 !in o1.state.tokens
      && RefreshStep(o1.state, t0, later, v2, jwt) == Outcome(Failure(InvalidRefreshToken(INVALID_TOKEN_MESSAGE)), o1.state)
      && RefreshStep(o1.state, t1, later, v3, jwt).result.Success?
  {
  }

  /** A refresh that fails issues nothing: the users are unchanged and the store only loses the redeemed row. */
  lemma RefreshFailureIssuesNothing(st: AuthState, token: string, now: nat, value: string, jwt: User -> string)
    requires RefreshStep(st, token, now, value, jwt).result.Failure?
    ensures var o := RefreshStep(st, token, now, value, jwt);
      && o.result.error.InvalidRefreshToken?
      && o.state.users == st.users
      && o.state.tokens == st.tokens - {token}
      && (token !in st.tokens ==> o.state == st)
  {
  }

  class AuthService {
    /** The user repository's content. */
    var users: UserTable
    const refreshTokenService: RefreshTokenService
    const passwordEncoder: PasswordEncoder
    /** The access-token signer, reduced to the token it mints for a user. */
    const jwt: User -> string

    ghost predicate Valid()
      reads this, refreshTokenService
    {
      refreshTokenService.Valid()
    }

    ghost function State(): AuthState
      reads this, refreshTokenService
    {
      AuthState(users, refreshTokenService.tokens)
    }

    constructor (refreshTokenService: RefreshTokenService, passwordEncoder: PasswordEncoder, jwt: User -> string)
      requires refreshTokenService.Valid()
      ensures Valid() && users == map[]
      ensures this.refreshTokenService == refreshTokenService
      ensures this.passwordEncoder == passwordEncoder && this.jwt == jwt
    {
      users := map[];
      this.refreshTokenService := refreshTokenService;
      this.passwordEncoder := passwordEncoder;
      this.jwt := jwt;
    }

    /** Refuse a known email; otherwise store the user with the encoded password. */
    method Register(email: Email, password: string) returns (r: Result<()>)
      requires Valid()
      modifies this
      ensures Valid()
      ensures Outcome(r, State()) == RegisterStep(old(State()), email, password, passwordEncoder)
    {
      if email in users {
        return Failure(UserAlreadyExists(AlreadyExistsMessage(email)));
      }
      var user := User(email, passwordEncoder.encode(password));
      users := users[user.email := user.password];
      return Success(());
    }

    /** Find the user, check the password, then issue a token pair; both failures throw the same error. */
    method Login(email: Email, password: string, now: nat, value: string) returns (r: Result<TokenPair>)
      requires Valid()
      modifies refreshTokenService
      ensures Valid()
      ensures Outcome(r, State()) == LoginStep(old(State()), email, password, now, value, passwordEncoder, jwt)
    {
      if email !in users {
        return Failure(BadCredentials(BAD_CREDENTIALS_MESSAGE));
      }
      var user := User(email, users[email]);
      if !passwordEncoder.matches(password, user.password) {
        return Failure(BadCredentials(BAD_CREDENTIALS_MESSAGE));
      }
      var pair := IssueTokens(user, now, value);
      return Success(pair);
    }

    /** Redeem the refresh token, then issue a new pair for its owner; a redeem failure propagates unchanged. */
    method Refresh(token: string, now: nat, value: string) returns (r: Result<TokenPair>)
      requires Valid()
      modifies refreshTokenService
      ensures Valid()
      ensures Outcome(r, State()) == RefreshStep(old(State()), token, now, value, jwt)
    {
      var redeemed := refreshTokenService.GetUserByValidRefreshToken(token, now);
      if redeemed.Failure? {
        return Failure(redeemed.error);
      }
      var pair := IssueTokens(redeemed.value, now, value);
      return Success(pair);
    }

    /** Mint an access token for `user` and rotate its refresh token. */
    method IssueTokens(user: User, now: nat, value: string) returns (pair: TokenPair)
      requires Valid()
      modifies refreshTokenService
      ensures Valid()
      ensures (pair, refreshTokenService.tokens) == IssueTokensStep(old(refreshTokenService.tokens), user, now, value, jwt)
    {
      var accessToken := jwt(user);
      var refreshToken := refreshTokenService.Create(user, now, value);
      pair := TokenPair(accessToken, refreshToken);
    }
  }
}
