/**
 * Properties of the transaction mapper that relate its outputs to one
 * another or to the collaborators: deadlines, the wallet-open discipline,
 * message encoding and the fee estimate.
 */
module TransactionMapperProperties {
  import opened Wrappers
  import opened Primitives
  import opened StringEncoder
  import opened Crypto
  import opened Messages
  import opened Wallets
  import opened Transactions
  import opened Requests
  import opened TransactionMapper

  /** A transfer expires `hoursDue` hours after it is stamped: later exactly when hoursDue is positive. */
  lemma TransferDeadlineFollowsTimeStamp(ctx: Collaborators, request: TransferSendRequest)
    requires ToModel(ctx, request).result.Success?
    ensures var tx := ToModel(ctx, request).result.value;
      && tx.timeStamp == ctx.currentTime
      && tx.deadline == tx.timeStamp.AddHours(request.hoursDue)
      && (tx.deadline.time > tx.timeStamp.time <==> request.hoursDue > 0)
  {
  }

  /** The same holds of importance transfers, with the request's own hoursDue. */
  lemma ImportanceTransferDeadlineFollowsTimeStamp(ctx: Collaborators, request: TransferImportanceRequest,
                                                   mode: ImportanceTransferMode)
    requires ToImportanceTransferModel(ctx, request, mode).result.Success?
    ensures var tx := ToImportanceTransferModel(ctx, request, mode).result.value;
      && tx.timeStamp == ctx.currentTime
      && tx.deadline == tx.timeStamp.AddHours(request.hoursDue)
      && (tx.deadline.time > tx.timeStamp.time <==> request.hoursDue > 0)
  {
  }

  /**
   * Mapping a transfer consults the wallet services only for the request's
   * own name and password (and not at all without a password): wallet
   * services that agree on that pair give the same outcome.
   */
  lemma TransferConsultsOnlyItsWallet(ctx: Collaborators, open: WalletNamePasswordPair -> Option<Wallet>,
                                      request: TransferSendRequest)
    requires request.password.Some? ==>
      var pair := WalletNamePasswordPair(request.walletName, request.password.value);
      open(pair) == ctx.open(pair)
    ensures ToModel(ctx.(open := open), request) == ToModel(ctx, request)
  {
  }

  /** The same holds of importance transfers. */
  lemma ImportanceTransferConsultsOnlyItsWallet(ctx: Collaborators, open: WalletNamePasswordPair -> Option<Wallet>,
                                                request: TransferImportanceRequest, mode: ImportanceTransferMode)
    requires request.password.Some? ==>
      var pair := WalletNamePasswordPair(request.walletName, request.password.value);
      open(pair) == ctx.open(pair)
    ensures ToImportanceTransferModel(ctx.(open := open), request, mode) == ToImportanceTransferModel(ctx, request, mode)
  {
  }

  /**
   * A plain message is carried verbatim: encoded and decoded payloads are
   * both the text's bytes, which decode back to the text.
   */
  lemma PlainMessageIsIdentity(ctx: Collaborators, request: TransferSendRequest)
    requires request.message.Some? && !request.shouldEncrypt
    requires ToModel(ctx, request).result.Success?
    ensures var message := ToModel(ctx, request).result.value.message;
      && message.Some? && message.value.PlainMessage?
      && EncodedPayload(message.value) == GetBytes(request.message.value)
      && DecodedPayload(ctx.crypto, message.value) == Some(GetBytes(request.message.value))
      && GetString(EncodedPayload(message.value)) == Some(request.message.value)
  {
    GetStringGetBytes(request.message.value);
  }

  /**
   * A secure message is encrypted by the transaction's signer for its
   * recipient, who must have a known public key; it decodes back to the
   * text's bytes and so to the text, and for a non-empty text its encoded
   * bytes differ from them.
   */
  lemma SecureMessageRoundTrip(ctx: Collaborators, request: TransferSendRequest)
    requires SoundCipher(ctx.crypto)
    requires request.message.Some? && request.shouldEncrypt
    requires ToModel(ctx, request).result.Success?
    ensures ctx.findByAddress(request.recipientAddress).HasPublicKey()
    ensures var message := ToModel(ctx, request).result.value.message;
      && message.Some? && message.value.SecureMessage?
      && message.value.sender == ToModel(ctx, request).result.value.signer
      && message.value.recipient == ToModel(ctx, request).result.value.recipient
      && DecodedPayload(ctx.crypto, message.value) == Some(GetBytes(request.message.value))
      && GetString(DecodedPayload(ctx.crypto, message.value).value) == Some(request.message.value)
      && (|request.message.value| > 0 ==> EncodedPayload(message.value) != GetBytes(request.message.value))
  {
    GetStringGetBytes(request.message.value);
  }

  /**
   * With an unlocked wallet holding the signer, a secure message to an
   * address-only recipient fails with NoPublicKey rather than falling back to
   * a plain message.
   */
  lemma SecureMessageNeedsRecipientPublicKey(ctx: Collaborators, request: TransferSendRequest)
    requires request.message.Some? && request.shouldEncrypt
    requires !ctx.findByAddress(request.recipientAddress).HasPublicKey()
    ensures ToModel(ctx, request).result.Failure?
    ensures var wallet := OpenWallet(ctx, request.walletName, request.password).result;
      wallet.Success? && request.signerAddress in wallet.value.accounts ==>
        ToModel(ctx, request).result == Failure(NoPublicKey)
  {
  }

  /** Encryption support depends only on the recipient: not on the message, the secure flag or the amount. */
  lemma EncryptionSupportDependsOnlyOnRecipient(ctx: Collaborators, request: PartialTransferInformationRequest,
                                                message: Option<string>, shouldEncrypt: bool, amount: Option<Amount>)
    ensures ToViewModel(ctx, request.(message := message, shouldEncrypt := shouldEncrypt, amount := amount)).isEncryptionSupported
         == ToViewModel(ctx, request).isEncryptionSupported
    ensures request.recipientAddress.None? ==> !ToViewModel(ctx, request).isEncryptionSupported
  {
  }

  /** Without a message the estimate is the base fee of the amount's tier. */
  lemma FeeWithoutMessageIsBaseFee(ctx: Collaborators, request: PartialTransferInformationRequest)
    requires request.message.None?
    ensures ToViewModel(ctx, request).fee == ctx.baseFee(request.amount.GetOr(0))
  {
  }

  /** A message, plain or secure, adds exactly one fee unit to the estimate of the same transfer without it. */
  lemma MessageAddsOneFeeUnit(ctx: Collaborators, request: PartialTransferInformationRequest,
                              text: string, shouldEncrypt: bool)
    requires request.message.None?
    ensures ToViewModel(ctx, request.(message := Some(text), shouldEncrypt := shouldEncrypt)).fee
         == ToViewModel(ctx, request).fee + MessageFee
  {
  }

  /** A missing amount never fails: it is estimated as the lowest tier, amount zero. */
  lemma MissingAmountIsLowestTier(ctx: Collaborators, request: PartialTransferInformationRequest)
    requires request.amount.None?
    ensures ToViewModel(ctx, request) == ToViewModel(ctx, request.(amount := Some(0)))
  {
  }

  /** The estimate touches no wallet and does not read the clock. */
  lemma EstimateIgnoresWalletsAndClock(ctx: Collaborators, open: WalletNamePasswordPair -> Option<Wallet>,
                                       now: TimeInstant, request: PartialTransferInformationRequest)
    ensures ToViewModel(ctx.(open := open, currentTime := now), request) == ToViewModel(ctx, request)
  {
  }
}
