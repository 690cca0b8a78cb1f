/**
 * bcrypt as an ideal one-way function. GenerateFromPassword mixes a random
 * salt (an input here) into the hash; CompareHashAndPassword accepts exactly
 * the password the hash was made from. The `secret` field stands for the
 * digest: nothing in the model reads it except CompareHashAndPassword.
 */
module Bcrypt {
  import opened Text

  datatype PasswordHash = BcryptHash(salt: seq<Byte>, secret: string)

  /** bcrypt.GenerateFromPassword(password, cost) with the given salt. */
  function GenerateFromPassword(password: string, salt: seq<Byte>): PasswordHash
  {
    BcryptHash(salt, password)
  }

  /** bcrypt.CompareHashAndPassword(hash, password) == nil. */
  predicate CompareHashAndPassword(hash: PasswordHash, password: string)
  {
    hash.secret == password
  }

  /** A password matches a hash made from it, whatever the salt. */
  lemma HashMatchesItsPassword(password: string, salt: seq<Byte>)
    ensures CompareHashAndPassword(GenerateFromPassword(password, salt), password)
  {
  }

  /** No other password matches it. */
  lemma HashRejectsOtherPasswords(password: string, other: string, salt: seq<Byte>)
    requires other != password
    ensures !CompareHashAndPassword(GenerateFromPassword(password, salt), other)
  {
  }
}
