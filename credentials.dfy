/**
  The one-way password and secret hasher both services call (bcrypt's `hash`
  and `compare`). The library is foreign, so the model takes it as a value: a
  hash function of the plaintext, the cost factor and a salt (the salt bcrypt
  draws at random), and the comparison verdict `matches(plain, hashed)`.
 */
module Credentials {

  /** The random salt bcrypt draws for each hash; opaque to the services. */
  type Salt = nat

  /** The cost factor both services pass to bcrypt's hash. */
  const SaltRounds: nat := 10

  /** Every bcrypt hash string is "$2b$", two cost digits, "$", 22 salt and 31 digest characters. */
  const BcryptHashLength: nat := 60

  datatype Hasher = Hasher(
    hash: (string, nat, Salt) -> string,
    matches: (string, string) -> bool)

  /**
    What the services rely on: every hash has bcrypt's fixed length, and a
    plaintext always matches a hash made from it. Nothing is assumed about
    other plaintexts (bcrypt reads only the first 72 bytes of its input).
   */
  ghost predicate WellFormed(h: Hasher) {
    forall plain, cost, salt ::
      |h.hash(plain, cost, salt)| == BcryptHashLength && h.matches(plain, h.hash(plain, cost, salt))
  }

  /** A hasher with these properties exists, so WellFormed is no vacuous assumption. */
  lemma WellFormedHasherExists()
    ensures exists h :: WellFormed(h)
  {
    var h := Hasher((plain, cost, salt) => seq(BcryptHashLength, _ => '$'), (plain, hashed) => true);
    assert WellFormed(h);
  }

  /** The stored value never equals a plaintext whose length differs from a bcrypt hash's. */
  lemma HashIsNotPlaintext(h: Hasher, plain: string, salt: Salt)
    requires WellFormed(h) && |plain| != BcryptHashLength
    ensures h.hash(plain, SaltRounds, salt) != plain
    ensures h.matches(plain, h.hash(plain, SaltRounds, salt))
  {
  }
}
