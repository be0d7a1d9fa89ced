/**
 * The refresh-token lifecycle: issuing a token rotates out every earlier
 * token of the same user, and redeeming a token either returns its owner,
 * or fails, deleting the row first when it has expired.
 *
 * `Issue` and `Redeem` are the specification, on values; the class
 * `RefreshTokenService` updates its store step by step and is proved to
 * agree with them.
 */
module RefreshTokens {
  import opened Entities

  const REFRESH_TOKEN_DAYS: nat := 30
  const SECONDS_PER_DAY: nat := 86400
  /** Time is counted in seconds throughout (`now: nat`). */
  const REFRESH_TOKEN_LIFETIME: nat := REFRESH_TOKEN_DAYS * SECONDS_PER_DAY

  const INVALID_TOKEN_MESSAGE: string := "Invalid refresh token"
  const EXPIRED_TOKEN_MESSAGE: string := "Refresh token expired"

  /** The refresh-token repository: token value to stored row. */
  type TokenStore = map<string, RefreshToken>

  /** The token values stored for `user`. */
  function TokensOf(store: TokenStore, user: User): set<string> {
    set t | t in store && store[t].user == user
  }

  /** The store's uniqueness invariant: no user owns two rows. */
  ghost predicate AtMostOnePerUser(store: TokenStore) {
    forall t1, t2 :: t1 in store && t2 in store && store[t1].user == store[t2].user ==> t1 == t2
  }

  /** The repository's `deleteByUser`: every row owned by `user` goes, the others stay as they were. */
  function DeleteByUser(store: TokenStore, user: User): (r: TokenStore)
    ensures r.Keys == store.Keys - TokensOf(store, user)
    ensures forall t :: t in r ==> r[t] == store[t]
  {
    map t | t in store && store[t].user != user :: store[t]
  }

  /** The store after `create(user)` at time `now` with the generated value `value`. */
  function Issue(store: TokenStore, user: User, value: string, now: nat): (r: TokenStore)
    ensures TokensOf(r, user) == {value}
    ensures r[value] == RefreshToken(user, now + REFRESH_TOKEN_LIFETIME)
    ensures forall t :: t in TokensOf(store, user) && t != value ==> t !in r
    ensures value !in store ==> r.Keys == store.Keys - TokensOf(store, user) + {value}
    ensures value !in store ==> forall t :: t in store && store[t].user != user ==> t in r && r[t] == store[t]
  {
    DeleteByUser(store, user)[value := RefreshToken(user, now + REFRESH_TOKEN_LIFETIME)]
  }

  /** What redeeming a value returns, and the store it leaves behind. */
  datatype Redemption = Redemption(result: Result<User>, store: TokenStore)

  /** Token expiry as the source tests it: `expiresAt.isBefore(now)`, strictly. */
  predicate Expired(token: RefreshToken, now: nat) {
    token.expiresAt < now
  }

  /** `getUserByValidRefreshToken(value)` at time `now`. */
  function Redeem(store: TokenStore, value: string, now: nat): (o: Redemption)
    ensures o.result.Success? <==> value in store && now <= store[value].expiresAt
    ensures o.result.Success? ==> o.result.value == store[value].user && o.store == store
    ensures o.result.Failure? ==> o.result.error.InvalidRefreshToken? && o.store == store - {value}
    ensures o.store.Keys <= store.Keys
  {
    if value !in store then
      Redemption(Failure(InvalidRefreshToken(INVALID_TOKEN_MESSAGE)), store)
    else if Expired(store[value], now) then
      Redemption(Failure(InvalidRefreshToken(EXPIRED_TOKEN_MESSAGE)), store - {value})
    else
      Redemption(Success(store[value].user), store)
  }

  /**
   * `getUserByValidRefreshToken` as it commits. The method is transactional
   * and both failures leave it by an unchecked exception, which rolls the
   * transaction back, so the delete of an expired row is undone. `Redeem`
   * above is the lazy reap the delete evidently intends, and is what the
   * rest of the model uses.
   */
  function RedeemAsCommitted(store: TokenStore, value: string, now: nat): (o: Redemption)
    ensures o.result == Redeem(store, value, now).result
    ensures o.store == store
  {
    var attempted := Redeem(store, value, now);
    if attempted.result.Failure? then Redemption(attempted.result, store) else attempted
  }

  /**
   * The rollback defeats the reap: as committed, an expired row stays in the
   * store and every later redeem fails again as "expired", where the
   * intended reap removes it so that a replay fails as "not found".
   */
  lemma RollbackKeepsExpiredRow(store: TokenStore, value: string, now: nat, later: nat)
    requires value in store && store[value].expiresAt < now <= later
    ensures var committed := RedeemAsCommitted(store, value, now).store;
      && value in committed
      && RedeemAsCommitted(committed, value, later).result == Failure(InvalidRefreshToken(EXPIRED_TOKEN_MESSAGE))
    ensures var reaped := Redeem(store, value, now).store;
      && value !in reaped
      && Redeem(reaped, value, later).result == Failure(InvalidRefreshToken(INVALID_TOKEN_MESSAGE))
  {
  }

  /** Rotation keeps the store's uniqueness invariant, whatever value is generated. */
  lemma IssueKeepsAtMostOnePerUser(store: TokenStore, user: User, value: string, now: nat)
    requires AtMostOnePerUser(store)
    ensures AtMostOnePerUser(Issue(store, user, value, now))
  {
  }

  /** Rotation undoes nothing it does not own: with a fresh value, other users' tokens are exactly as before. */
  lemma IssueLeavesOtherUsers(store: TokenStore, user: User, value: string, now: nat, other: User)
    requires value !in store && other != user
    ensures TokensOf(Issue(store, user, value, now), other) == TokensOf(store, other)
  {
  }

  /** Redeeming only ever removes the redeemed row, so it keeps the uniqueness invariant. */
  lemma RedeemKeepsAtMostOnePerUser(store: TokenStore, value: string, now: nat)
    requires AtMostOnePerUser(store)
    ensures AtMostOnePerUser(Redeem(store, value, now).store)
  {
  }

  /**
   * Once redeeming a value has failed, the value is gone from the store, so
   * any later redeem of it fails too, with the "not found" message, and
   * changes nothing.
   */
  lemma RedeemFailureIsFinal(store: TokenStore, value: string, now: nat, later: nat)
    requires Redeem(store, value, now).result.Failure?
    ensures var after := Redeem(store, value, now).store;
      Redeem(after, value, later) == Redemption(Failure(InvalidRefreshToken(INVALID_TOKEN_MESSAGE)), after)
  {
  }

  /** An expired row is reaped: exactly that row is deleted and the call fails. */
  lemma RedeemReapsExpired(store: TokenStore, value: string, now: nat)
    requires value in store && store[value].expiresAt < now
    ensures Redeem(store, value, now) == Redemption(Failure(InvalidRefreshToken(EXPIRED_TOKEN_MESSAGE)), store - {value})
  {
  }

  /** The expiry boundary: a token is still accepted at the very instant it expires and refused one second later. */
  lemma ExpiryBoundary(store: TokenStore, value: string)
    requires value in store
    ensures Redeem(store, value, store[value].expiresAt).result == Success(store[value].user)
    ensures Redeem(store, value, store[value].expiresAt + 1).result.Failure?
  {
  }

  /**
   * Both failures are the same kind of error, yet the messages differ, so a
   * caller that sees the message can tell an expired token from an unknown one.
   */
  lemma RedeemFailuresDifferInMessage(store: TokenStore, unknown: string, expired: string, now: nat)
    requires unknown !in store
    requires expired in store && store[expired].expiresAt < now
    ensures Redeem(store, unknown, now).result.error.InvalidRefreshToken?
    ensures Redeem(store, expired, now).result.error.InvalidRefreshToken?
    ensures Redeem(store, unknown, now).result.error.message != Redeem(store, expired, now).result.error.message
  {
  }

  /** The service around the refresh-token repository; `tokens` is the repository's content. */
  class RefreshTokenService {
    var tokens: TokenStore

    ghost predicate Valid()
      reads this
    {
      AtMostOnePerUser(tokens)
    }

    constructor ()
      ensures Valid() && tokens == map[]
    {
      tokens := map[];
    }

    /** Rotate: delete every token of `user`, then save a new one under `value` that expires 30 days after `now`. */
    method Create(user: User, now: nat, value: string) returns (token: string)
      requires Valid()
      modifies this
      ensures Valid()
      ensures token == value && tokens == Issue(old(tokens), user, value, now)
      ensures TokensOf(tokens, user) == {token}
      ensures tokens[token].expiresAt == now + REFRESH_TOKEN_LIFETIME
    {
      IssueKeepsAtMostOnePerUser(tokens, user, value, now);
      tokens := DeleteByUser(tokens, user);
      var row := RefreshToken(user, now + REFRESH_TOKEN_LIFETIME);
      tokens := tokens[value := row];
      token := value;
    }

    /** Look `value` up; fail if it is unknown, delete it and fail if it has expired, otherwise return its owner. */
    method GetUserByValidRefreshToken(value: string, now: nat) returns (r: Result<User>)
      requires Valid()
      modifies this
      ensures Valid()
      ensures Redemption(r, tokens) == Redeem(old(tokens), value, now)
      ensures r.Success? ==> tokens == old(tokens)
    {
      RedeemKeepsAtMostOnePerUser(tokens, value, now);
      if value !in tokens {
        return Failure(InvalidRefreshToken(INVALID_TOKEN_MESSAGE));
      }
      var token := tokens[value];
      if Expired(token, now) {
        tokens := tokens - {value};
        return Failure(InvalidRefreshToken(EXPIRED_TOKEN_MESSAGE));
      }
      return Success(token.user);
    }
  }
}
