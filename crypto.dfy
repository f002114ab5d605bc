/**
 * The cryptographic library the mapper relies on, as abstract functions:
 * key derivation, address derivation and the secure-message cipher.
 * Nothing about them is proved; the properties the mapper needs of the
 * cipher are stated once, as `SoundCipher`.
 */
module Crypto {
  import opened Wrappers
  import opened Primitives

  datatype Crypto = Crypto(
    publicKeyOf: PrivateKey -> PublicKey,
    addressOf: PublicKey -> Address,
    /** Encrypts a plaintext with the sender's private key and the recipient's public key. */
    encrypt: (Bytes, PrivateKey, PublicKey) -> Bytes,
    /** Decrypts a ciphertext with the same pair of keys. */
    decrypt: (Bytes, PrivateKey, PublicKey) -> Bytes)

  /**
   * What the secure-message cipher is assumed to guarantee: decryption with
   * the keys used for encryption recovers the plaintext, and a non-empty
   * plaintext never comes out unchanged.
   */
  ghost predicate SoundCipher(c: Crypto) {
    && (forall m, sk, pk :: c.decrypt(c.encrypt(m, sk, pk), sk, pk) == m)
    && (forall m, sk, pk :: |m| > 0 ==> c.encrypt(m, sk, pk) != m)
  }

  /** An account is consistent when its address and public key derive from its keys. */
  ghost predicate Consistent(c: Crypto, a: Account) {
    a.keyPair.Some? ==>
      && a.address == c.addressOf(a.keyPair.value.publicKey)
      && (a.keyPair.value.privateKey.Some? ==>
            a.keyPair.value.publicKey == c.publicKeyOf(a.keyPair.value.privateKey.value))
  }

  /** The account of a private key, with its key pair derived from that key. */
  function AccountOf(c: Crypto, sk: PrivateKey): (a: Account)
    ensures a.HasPrivateKey() && a.keyPair.value.privateKey.value == sk
    ensures Consistent(c, a)
  {
    var pk := c.publicKeyOf(sk);
    Account(c.addressOf(pk), Some(KeyPair(Some(sk), pk)))
  }
}
