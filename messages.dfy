/**
 * Transfer messages: plain messages carry their payload verbatim, secure
 * messages carry it encrypted for the recipient.
 */
module Messages {
  import opened Wrappers
  import opened Primitives
  import opened Crypto

  datatype Message =
    | PlainMessage(payload: Bytes)
    | SecureMessage(sender: Account, recipient: Account, encoded: Bytes)

  /** The bytes a message carries on the wire. */
  function EncodedPayload(m: Message): Bytes {
    match m
    case PlainMessage(payload) => payload
    case SecureMessage(_, _, encoded) => encoded
  }

  /**
   * The plaintext of a message. A secure message can be decrypted here only
   * when its sender holds a private key and its recipient a public key.
   */
  function DecodedPayload(c: Crypto, m: Message): (r: Option<Bytes>)
    ensures m.PlainMessage? ==> r == Some(EncodedPayload(m))
    ensures r.None? <==> m.SecureMessage? && !(m.sender.HasPrivateKey() && m.recipient.HasPublicKey())
  {
    match m
    case PlainMessage(payload) => Some(payload)
    case SecureMessage(sender, recipient, encoded) =>
      if sender.HasPrivateKey() && recipient.HasPublicKey() then
        Some(c.decrypt(encoded, sender.keyPair.value.privateKey.value, recipient.keyPair.value.publicKey))
      else
        None
  }

  /** A plain message is the identity encoding: what is sent is what is read. */
  function Plain(payload: Bytes): (m: Message)
    ensures EncodedPayload(m) == payload
    ensures forall c :: DecodedPayload(c, m) == Some(payload)
  {
    PlainMessage(payload)
  }

  /**
   * A secure message encrypted from `sender` to `recipient`. Under a sound
   * cipher it decodes back to the payload and, when the payload is not
   * empty, its encoded bytes differ from the payload.
   */
  function Secure(c: Crypto, sender: Account, recipient: Account, payload: Bytes): (m: Message)
    requires sender.HasPrivateKey() && recipient.HasPublicKey()
    ensures m.SecureMessage? && m.sender == sender && m.recipient == recipient
    ensures SoundCipher(c) ==> DecodedPayload(c, m) == Some(payload)
    ensures SoundCipher(c) && |payload| > 0 ==> EncodedPayload(m) != payload
  {
    SecureMessage(sender, recipient,
      c.encrypt(payload, sender.keyPair.value.privateKey.value, recipient.keyPair.value.publicKey))
  }
}
