/**
 * Password hashing as the blog uses it from werkzeug.security:
 * `generate_password_hash` salts and derives a key, and `check_password_hash`
 * re-derives the key from the stored salt and compares.
 *
 * The key-derivation function is a stand-in that is injective in the password
 * for a fixed salt (an ideal, collision-free hash). One-wayness, the iteration
 * count and the constant-time comparison are not modelled.
 */
module Security {

  /** What the `password` column holds: salt and derived key, never the plaintext. */
  datatype PasswordHash = PasswordHash(salt: string, key: string)

  const Separator: char := '$'

  /** Stand-in for the key-derivation function. */
  function DeriveKey(salt: string, password: string): string
  {
    salt + [Separator] + password
  }

  /** `generate_password_hash(password)` with its random salt passed in. */
  function GeneratePasswordHash(salt: string, password: string): (h: PasswordHash)
    ensures h.salt == salt
  {
    PasswordHash(salt, DeriveKey(salt, password))
  }

  /** `check_password_hash(stored, password)`. */
  predicate CheckPasswordHash(stored: PasswordHash, password: string)
  {
    stored.key == DeriveKey(stored.salt, password)
  }

  /** The hash of a password accepts exactly that password. */
  lemma CheckGeneratedHash(salt: string, password: string, attempt: string)
    ensures CheckPasswordHash(GeneratePasswordHash(salt, password), attempt) <==> attempt == password
  {
    if CheckPasswordHash(GeneratePasswordHash(salt, password), attempt) {
      var n := |salt| + 1;
      assert DeriveKey(salt, attempt)[n..] == attempt;
      assert DeriveKey(salt, password)[n..] == password;
    }
  }
}
