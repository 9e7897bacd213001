/** Password hashing as the user store relies on it (`hashing_pass`, which
    calls `bcrypt.hashpw(password, bcrypt.gensalt())`, and `bcrypt.checkpw`).
    bcrypt itself is replaced by a stand-in that keeps the two facts the store
    depends on: a password checks against its own hash, and a digest records its
    salt so checking needs no other input. Like bcrypt, only the first 72
    bytes of a password take part. */
module Passwords {

  /** The random salt `gensalt()` draws; randomness is a parameter here. */
  type Salt = nat

  /** A stored `hash_and_salt` value: the salt and the checksum. */
  datatype Digest = Digest(salt: Salt, checksum: seq<int>)

  /** bcrypt ignores password bytes after the 72nd. */
  const MaxKeyBytes: nat := 72

  function Key(password: string): (k: string)
    ensures |k| <= MaxKeyBytes
    ensures k <= password
    ensures |password| <= MaxKeyBytes ==> k == password
    ensures |password| > MaxKeyBytes ==> k == password[..MaxKeyBytes]
  {
    if |password| <= MaxKeyBytes then password else password[..MaxKeyBytes]
  }

  /** Stand-in for bcrypt's key derivation: different keys give different
      checksums under one salt. */
  function Checksum(key: string, salt: Salt): seq<int> {
    seq(|key|, i requires 0 <= i < |key| => key[i] as int + salt)
  }

  function HashPw(password: string, salt: Salt): Digest {
    Digest(salt, Checksum(Key(password), salt))
  }

  /** `bcrypt.checkpw`: re-hash with the stored salt and compare. */
  predicate CheckPw(password: string, stored: Digest) {
    HashPw(password, stored.salt) == stored
  }

  lemma {:induction false} ChecksumInjective(a: string, b: string, salt: Salt)
    requires Checksum(a, salt) == Checksum(b, salt)
    ensures a == b
  {
    assert |a| == |Checksum(a, salt)|;
    forall i | 0 <= i < |a|
      ensures a[i] == b[i]
    {
      assert Checksum(a, salt)[i] == a[i] as int + salt;
      assert Checksum(b, salt)[i] == b[i] as int + salt;
    }
  }

  /** A password checks against a digest made from `original` exactly when
      the two agree on their first 72 bytes; in particular every password
      checks against its own hash. */
  lemma CheckPwOfHash(password: string, original: string, salt: Salt)
    ensures CheckPw(password, HashPw(original, salt)) <==> Key(password) == Key(original)
  {
    if CheckPw(password, HashPw(original, salt)) {
      ChecksumInjective(Key(password), Key(original), salt);
    }
  }
}
