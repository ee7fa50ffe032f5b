/**
  The users table: one record per registered account. Password hashing is a
  foreign library; it is modelled as an ideal salted hash that matches exactly
  the password it was generated from.
 */
module Accounts {

  /** What `generate_password_hash` stores: a salt and (abstractly) the password it commits to. */
  datatype Hash = Hash(salt: nat, preimage: string)

  /** `check_password_hash(hash, password)`. */
  predicate CheckHash(h: Hash, password: string)
  {
    h.preimage == password
  }

  /** `generate_password_hash(password)`; the salt is the library's randomness, passed in. */
  function GenerateHash(password: string, salt: nat): (h: Hash)
    ensures forall p :: CheckHash(h, p) <==> p == password
  {
    Hash(salt, password)
  }

  /** A row of the users table, without its id (the id is the key of the table's map). */
  datatype User = User(username: string, hash: Hash, cash: real)

  /** The cash a freshly inserted user starts with: the default of the `cash` column of the users table. */
  const StartingCash: real := 10000.0
}
