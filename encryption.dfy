/**
 * The vault's cipher, seen from the store and the login screen.
 *
 * `PasswordEncryption` derives a Fernet key from the master password and a
 * salt, and then offers two operations on strings: `encrypt`, and `decrypt`,
 * which swallows every failure (wrong key, tampered or malformed token) and
 * returns `None`.  Key derivation and Fernet itself are not modelled; a session
 * cipher is a pair of total functions, and the one property every Fernet key
 * has, that decryption undoes encryption under the same key, is the predicate
 * `RoundTrips`, assumed wherever it is needed as a precondition.
 */
module Encryption {
  import opened Wrappers

  /** One session's cipher: the key is fixed, so both operations are plain functions. */
  datatype Cipher = Cipher(encrypt: string -> string, decrypt: string -> Option<string>)

  /** Decryption undoes encryption under the same key. */
  ghost predicate RoundTrips(c: Cipher) {
    forall p: string :: c.decrypt(c.encrypt(p)) == Some(p)
  }

  /**
   * A keyed toy cipher with the same outward contract as Fernet: a token
   * carries its key as a tag, and opening a token checks the tag.  It shows
   * that `RoundTrips` can be met, and it is the cipher of the concrete
   * scenarios in the login model, where a vault sealed under one master
   * password is opened with another.
   */
  function Toy(key: string): Cipher {
    Cipher(p => Seal(key, p), token => Open(key, token))
  }

  const Tag: char := '|'

  function Seal(key: string, p: string): string {
    key + [Tag] + p
  }

  function Open(key: string, token: string): Option<string> {
    if |key| < |token| && token[..|key| + 1] == key + [Tag] then Some(token[|key| + 1..]) else None
  }

  /** Every toy key round-trips. */
  lemma ToyRoundTrips(key: string)
    ensures RoundTrips(Toy(key))
  {
    forall p: string
      ensures Toy(key).decrypt(Toy(key).encrypt(p)) == Some(p)
    {
      var token := Seal(key, p);
      assert token[..|key| + 1] == key + [Tag];
      assert token[|key| + 1..] == p;
    }
  }

  /** A token sealed under one key does not open under another key of the same length. */
  lemma ToyRejectsOtherKey(k1: string, k2: string, p: string)
    requires |k1| == |k2| && k1 != k2
    ensures Toy(k2).decrypt(Toy(k1).encrypt(p)) == None
  {
    var token := Seal(k1, p);
    assert token[..|k1| + 1][..|k1|] == k1;
    assert (k2 + [Tag])[..|k2|] == k2;
  }
}
