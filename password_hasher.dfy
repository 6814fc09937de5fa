/**
 * A symbolic model of the bcrypt password hasher (`CryptContext(schemes=["bcrypt"])`):
 * hashing a password for storage and verifying a candidate against a stored hash.
 *
 * The random salt bcrypt draws on every call is a parameter. A digest is the
 * symbolic term `Bcrypt(salt, key)`: the hasher only ever recomputes it and compares,
 * and never hands the key back. The adaptive cost factor, the `$2b$...` text format
 * and real collisions are not modelled.
 */
module PasswordHasher {

  /** A stored password hash, of a type distinct from the plaintext `string`. */
  datatype Digest = Bcrypt(salt: nat, key: string)

  /** bcrypt's derivation of a digest from a password under a given salt. */
  function Derive(salt: nat, password: string): Digest {
    Bcrypt(salt, password)
  }

  /**
   * Whether `password` is the one `digest` was made from: the digest is derived again
   * from the candidate with the salt stored in the digest, and the two are compared.
   * A digest verifies a password exactly when it is a derivation of that password
   * under some salt, whichever salt that was.
   */
  predicate Verify(password: string, digest: Digest)
    ensures Verify(password, digest) <==> exists salt :: digest == Derive(salt, password)
  {
    Derive(digest.salt, password) == digest
  }

  /** Hashes a password for storage, with the salt bcrypt draws made explicit. */
  function Hash(password: string, salt: nat): (digest: Digest)
    ensures Verify(password, digest)
    ensures forall candidate :: Verify(candidate, digest) ==> candidate == password
  {
    Derive(salt, password)
  }
}
