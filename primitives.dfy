/**
 * Values shared by the mapper: bytes, keys, addresses, accounts, amounts and
 * time instants.
 */
module Primitives {
  import opened Wrappers

  newtype uint8 = x: int | 0 <= x < 0x100

  type Bytes = seq<uint8>

  /** An account address in its encoded (textual) form. */
  datatype Address = Address(encoded: string)

  datatype PublicKey = PublicKey(raw: Bytes)

  datatype PrivateKey = PrivateKey(raw: nat)

  /** A key pair; it can sign and decrypt only when it holds a private key. */
  datatype KeyPair = KeyPair(privateKey: Option<PrivateKey>, publicKey: PublicKey)

  /**
   * An account. An "address-only" account (keyPair == None) stands for a
   * recipient whose public key has never been seen on the network.
   */
  datatype Account = Account(address: Address, keyPair: Option<KeyPair>) {
    predicate HasPublicKey() {
      keyPair.Some?
    }

    predicate HasPrivateKey() {
      keyPair.Some? && keyPair.value.privateKey.Some?
    }
  }

  /** An amount of the currency, in whole units. */
  type Amount = nat

  const SecondsPerHour: int := 60 * 60

  /** A network time instant, in seconds. */
  datatype TimeInstant = TimeInstant(time: int) {

    /** The instant `hours` hours after this one. */
    function AddHours(hours: int): (r: TimeInstant)
      ensures r.time - time == hours * SecondsPerHour
      ensures r.time > time <==> hours > 0
      ensures r.time == time <==> hours == 0
    {
      TimeInstant(time + hours * SecondsPerHour)
    }
  }
}
