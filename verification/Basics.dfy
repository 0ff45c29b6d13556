/** Vocabulary shared by every module: optional values, the service's exceptions as results,
    opaque library functions (digests, password hashes) and counting over logs. */
module Basics {

  /** UUIDs are drawn from an unbounded supply; only their distinctness matters. */
  type Uuid = nat

  /** Instants and durations, in microseconds: the resolution of a Python datetime. */
  type Time = int

  datatype Option<+T> = None | Some(value: T)

  /** The exceptions of app/core/exceptions.py that the modelled calls raise. */
  datatype Error =
    | InvalidTokenError
    | RevokedTokenError
    | ExpiredTokenError
    | InvalidCredentialsError
    | PasswordResetError
    | AccountLockedError
    | UserDeletedError
    | IntegrationError

  /** What a call returns, or the exception it raises. */
  datatype Result<+T> = Ok(value: T) | Err(error: Error)

  /** A string, classified by whether UUID() accepts it. */
  datatype Text = UuidText(id: Uuid) | Plain(chars: string)

  /** SHA-256 is taken to be injective, so a digest stands for its preimage. */
  datatype Digest<+T> = Sha256(preimage: T)

  /** Argon2: a stored hash verifies against exactly the password it was made from. */
  datatype PasswordHash = Argon2(secret: string)

  function HashPassword(password: string): PasswordHash {
    Argon2(password)
  }

  predicate VerifyPassword(password: string, hash: PasswordHash) {
    hash == Argon2(password)
  }

  /** The sum of `weight` over a log. */
  function Total<T>(log: seq<T>, weight: T -> nat): nat {
    if log == [] then 0 else Total(log[..|log| - 1], weight) + weight(log[|log| - 1])
  }

  lemma TotalAppend<T>(log: seq<T>, entry: T, weight: T -> nat)
    ensures Total(log + [entry], weight) == Total(log, weight) + weight(entry)
  {
    assert (log + [entry])[..|log|] == log;
  }
}
