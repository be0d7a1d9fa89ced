/**
 * The values the authentication core passes around: users, stored refresh
 * tokens, the token pair handed back to callers, the error kinds it throws,
 * and the pluggable password encoder it is configured with.
 */
module Entities {

  type Email = string

  /** A row of the user table. The email is its key; the password is stored encoded. */
  datatype User = User(email: Email, password: string)

  /** A row of the refresh-token store (the store is keyed by the token value). */
  datatype RefreshToken = RefreshToken(user: User, expiresAt: nat)

  /** The pair returned by login and refresh. */
  datatype TokenPair = TokenPair(accessToken: string, refreshToken: string)

  /** The exceptions the services throw, each with the message it carries. */
  datatype AuthError =
    | UserAlreadyExists(message: string)
    | BadCredentials(message: string)
    | InvalidRefreshToken(message: string)

  /** A service call either returns a value or throws one of the errors above. */
  datatype Result<T> = Success(value: T) | Failure(error: AuthError)

  /**
   * The password encoder, reduced to its two operations. Salting and
   * constant-time comparison are the encoder's business, not the core's.
   */
  datatype PasswordEncoder = PasswordEncoder(encode: string -> string, matches: (string, string) -> bool)

  /** The one property the core relies on: a password matches its own encoding. */
  ghost predicate Sound(encoder: PasswordEncoder) {
    forall p :: encoder.matches(p, encoder.encode(p))
  }
}
