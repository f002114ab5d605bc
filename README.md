# Transaction mapper of the NEM community client

This project models the transaction mapper of the NEM community client
(`org.nem.ncc.services.TransactionMapper`). The mapper turns user requests into
NEM transactions and estimates fees:

- `toModel(TransferSendRequest)` needs the wallet password. It opens the named
  wallet with the name and password, takes the signer's private key from the
  wallet and looks up the recipient account. It stamps the current time and
  sets the deadline `hoursDue` hours later. It copies amount and fee from the
  request and encodes the optional message, plain or secure.
- `toModel(TransferImportanceRequest, mode)` builds an importance transfer. It
  unlocks the wallet in the same way. The remote account is the account of the
  wallet account's remote-harvesting private key, and the mode is the caller's.
- `toViewModel(PartialTransferInformationRequest)` estimates the fee and says
  whether a message to the recipient could be encrypted. It does not touch any
  wallet.

The mapper's own source file, `TransactionMapper.java`, is not part of this
model. Its behaviour is taken from the assertions of `TransactionMapperTest.java`
and from the collaborators that test sets up. The collaborators are values of
the `Collaborators` datatype:

- the wallet services' `open` is a partial function from a name and password to a wallet;
- the account lookup is a function from an address to an account, which may be address-only;
- the time provider is the current time;
- the cryptographic library is a record of abstract functions;
- the fee schedule's base fee of an amount tier is a function.

The model is pure. Each mapping is a function that returns a `Result` (a
transaction, or one of the errors `MissingPassword`, `WalletUnavailable`,
`UnknownSigner` and `NoPublicKey`). It also returns the list of wallet-open
calls it made, so that "the wallet is opened exactly once with (name, password)"
can be stated. `StringEncoder.getBytes`, which turns message text into payload
bytes, is modelled concretely as UTF-8, with its decoder.

Modules, one file each: `Wrappers`, `Primitives`, `StringEncoder`, `Crypto`,
`Messages`, `Wallets`, `Transactions`, `Requests`, `TransactionMapper` (the
three operations) and `TransactionMapperProperties` (the lemmas that relate
them).

The mapper raises `IllegalArgumentException` for a missing password and for a
wallet that does not open, and an `NccException` with code `NO_PUBLIC_KEY` for a
secure message to a recipient without a public key (the tests expect these at
lines 76, 85 and 142-144 of `TransactionMapperTest.java`). The model names these
errors `MissingPassword`, `WalletUnavailable` and `NoPublicKey`.

The signer of an importance transfer is the account of the wallet's
`getAccountPrivateKey`; only the remote key comes from `tryGetWalletAccount`
(`TransactionMapperTest.java`, lines 49-56 and 369-372).

`StringEncoder.CharBytes` states UTF-8's byte structure (one byte exactly for
ASCII, a lead byte followed only by continuation bytes). That the encoding is
UTF-8 is proved by the round trip through the decoder `StringEncoder.GetString`
(the library's `getString`).

## Model

| member | source | states |
|---|---|---|
| `Primitives.TimeInstant.AddHours` | nem-client-api/src/test/java/org/nem/ncc/services/TransactionMapperTest.java:34-35 | the new instant is exactly hours * 3600 seconds later; it is later iff hours > 0, and equal iff hours = 0 |
| `StringEncoder.CharBytes` | nem-client-api/src/test/java/org/nem/ncc/services/TransactionMapperTest.java:109-114 | one character encodes to 1 to 4 UTF-8 bytes; a single byte iff the character is ASCII; the lead byte is never a continuation byte and every later byte is one |
| `StringEncoder.GetBytes` | nem-client-api/src/test/java/org/nem/ncc/services/TransactionMapperTest.java:109-114 | the message bytes of a text number between its length and four times its length, so a non-empty text gives a non-empty payload |
| `StringEncoder.DecodeCharBytes` | nem-client-api/src/test/java/org/nem/ncc/services/TransactionMapperTest.java:109-114 | decoding the UTF-8 bytes of one character, whatever bytes follow, gives that character and the number of bytes it took |
| `StringEncoder.GetStringGetBytes` | nem-client-api/src/test/java/org/nem/ncc/services/TransactionMapperTest.java:109-114 | round trip: the bytes `GetBytes` makes of any text decode back to exactly that text |
| `Crypto.AccountOf` | nem-client-api/src/test/java/org/nem/ncc/services/TransactionMapperTest.java:369-370 | the account made from a private key holds that private key, and its public key and address are derived from it |
| `Messages.DecodedPayload` | nem-client-api/src/test/java/org/nem/ncc/services/TransactionMapperTest.java:109-132 | a plain message decodes to its encoded payload; decoding fails only for a secure message whose sender has no private key or whose recipient has no public key |
| `Messages.Plain` | nem-client-api/src/test/java/org/nem/ncc/services/TransactionMapperTest.java:99-115 | a plain message's encoded payload and decoded payload both equal the given bytes |
| `Messages.Secure` | nem-client-api/src/test/java/org/nem/ncc/services/TransactionMapperTest.java:117-133 | under a sound cipher a secure message decodes back to the payload, and for a non-empty payload the encoded bytes differ from it |
| `TransactionMapper.OpenWallet` | nem-client-api/src/test/java/org/nem/ncc/services/TransactionMapperTest.java:63-93 | without a password it fails with MissingPassword and opens nothing; with one it opens exactly (name, password) once, and succeeds iff a wallet comes back, else WalletUnavailable |
| `TransactionMapper.CreateMessage` | nem-client-api/src/test/java/org/nem/ncc/services/TransactionMapperTest.java:99-145 | no text gives no message; it fails iff a secure message is asked for a recipient without a public key, with NoPublicKey; a plain message carries the text's bytes; a message is secure iff encryption was asked, and then it is encrypted by the given sender for the given recipient and decodes to the text's bytes under a sound cipher |
| `TransactionMapper.ToModel` | nem-client-api/src/test/java/org/nem/ncc/services/TransactionMapperTest.java:22-93 | the open calls made; each error case (MissingPassword, WalletUnavailable, UnknownSigner, NoPublicKey) and when it occurs; on success the signer is the account of the wallet's key, the recipient is the looked-up account, amount and fee are copied, the time stamp is the clock's and the deadline is hoursDue hours later, a message is present iff requested, and a secure message is from the signer to the recipient |
| `TransactionMapper.ToImportanceTransferModel` | nem-client-api/src/test/java/org/nem/ncc/services/TransactionMapperTest.java:42-59 | the same unlock errors and open calls; it succeeds iff the wallet holds the signer; the remote account holds the wallet account's remote-harvesting private key; the signer is the wallet signer, the mode is the caller's, and the deadline is hoursDue hours after the clock's time |
| `TransactionMapper.ToViewModel` | nem-client-api/src/test/java/org/nem/ncc/services/TransactionMapperTest.java:155-189 | encryption is supported iff a recipient address is given and the looked-up account has a public key; the fee is at least the base fee of the amount's tier |
| `TransactionMapperProperties.TransferDeadlineFollowsTimeStamp` | nem-client-api/src/test/java/org/nem/ncc/services/TransactionMapperTest.java:34-35 | a transfer is stamped with the clock's time and expires hoursDue hours later, so later iff hoursDue > 0 |
| `TransactionMapperProperties.ImportanceTransferDeadlineFollowsTimeStamp` | nem-client-api/src/test/java/org/nem/ncc/services/TransactionMapperTest.java:57-58 | the same for importance transfers |
| `TransactionMapperProperties.TransferConsultsOnlyItsWallet` | nem-client-api/src/test/java/org/nem/ncc/services/TransactionMapperTest.java:63-74 | wallet services that agree on the request's (name, password) give the same outcome; without a password any wallet services do |
| `TransactionMapperProperties.ImportanceTransferConsultsOnlyItsWallet` | nem-client-api/src/test/java/org/nem/ncc/services/TransactionMapperTest.java:42-49 | the same for importance transfers |
| `TransactionMapperProperties.PlainMessageIsIdentity` | nem-client-api/src/test/java/org/nem/ncc/services/TransactionMapperTest.java:99-115 | with encryption off, the transfer's message is plain, and its encoded and decoded payloads equal the text's bytes, which decode back to the text |
| `TransactionMapperProperties.SecureMessageRoundTrip` | nem-client-api/src/test/java/org/nem/ncc/services/TransactionMapperTest.java:117-133 | with encryption on, a successful transfer has a recipient with a public key and a secure message from the transaction's signer to its recipient that decodes to the text's bytes and so to the text, with different encoded bytes for a non-empty text |
| `TransactionMapperProperties.SecureMessageNeedsRecipientPublicKey` | nem-client-api/src/test/java/org/nem/ncc/services/TransactionMapperTest.java:135-145 | a secure message to an address-only recipient never yields a transaction, and once the wallet and signer are found the error is NoPublicKey |
| `TransactionMapperProperties.EncryptionSupportDependsOnlyOnRecipient` | nem-client-api/src/test/java/org/nem/ncc/services/TransactionMapperTest.java:155-251 | encryption support does not change with the message, the secure flag or the amount, and is false without a recipient |
| `TransactionMapperProperties.FeeWithoutMessageIsBaseFee` | nem-client-api/src/test/java/org/nem/ncc/services/TransactionMapperTest.java:175-189 | without a message the fee is the base fee of the amount's tier |
| `TransactionMapperProperties.MessageAddsOneFeeUnit` | nem-client-api/src/test/java/org/nem/ncc/services/TransactionMapperTest.java:253-272 | adding a message, plain or secure, raises the fee by exactly one unit |
| `TransactionMapperProperties.MissingAmountIsLowestTier` | nem-client-api/src/test/java/org/nem/ncc/services/TransactionMapperTest.java:278-306 | a missing amount is estimated exactly as amount zero, the lowest tier, and never fails |
| `TransactionMapperProperties.EstimateIgnoresWalletsAndClock` | nem-client-api/src/test/java/org/nem/ncc/services/TransactionMapperTest.java:181-184 | the estimate is the same whatever the wallet services and the clock |

## Left out

- `WalletController.java`: each endpoint delegates in one line to the wallet services or the wallet mapper and holds no logic of its own.
- Cryptography: public-key derivation, address derivation and the secure-message cipher are abstract functions. That decryption recovers the plaintext and that a non-empty plaintext is never encrypted to itself are assumed (`Crypto.SoundCipher`), not proved.
- The cipher is a deterministic function; the random salt and IV of real secure messages are not modelled.
- A secure message is decoded only on the sender's side (sender private key and recipient public key); decoding by the recipient is not modelled.
- Wallet persistence and password-based decryption: opening a wallet is an abstract partial function from (name, password) to a wallet.
- Fee tiers: the base fee of a tier is an abstract function. The message surcharge is the single unit the tests show; a surcharge that grows with message length is not modelled.
- Amounts are whole units; the micro-NEM representation behind `Amount.fromNem` is not modelled.
- Time instants and `hoursDue` are unbounded integers; 32-bit wrap-around of Java `int` time arithmetic is not modelled.
- Text is a sequence of Unicode scalar values; Java's handling of unpaired UTF-16 surrogates in `StringEncoder.getBytes` is not modelled.
- StringEncoder.GetString returns None for malformed UTF-8, where Java's decoder substitutes replacement characters; only well-formed input, as produced by `GetBytes`, is modelled.
- The number of wallet-open calls is modelled as the list of calls a mapping returns, not as an effect on the wallet services.
- The test's mocked wallet returns keys for `getAccountPrivateKey` and `tryGetWalletAccount` independently. The model derives both from one map of wallet accounts.
- A wallet that does not hold the signer is reported as `UnknownSigner`; the tests do not show what the mapper does in that case.
- The fee of an importance transfer is not shown by the tests and is not modelled.
- Accounts are compared structurally; NEM compares accounts by address.
- TransactionMapper.ToViewModel: its own contract only bounds the fee from below; the exact fee is stated by `FeeWithoutMessageIsBaseFee`, `MessageAddsOneFeeUnit` and `MissingAmountIsLowestTier`.
