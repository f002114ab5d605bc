/**
 * The transaction mapper: turns transfer and importance-transfer requests
 * into transactions, unlocking the signer's wallet on the way, and estimates
 * the fee of a partially specified transfer without touching any wallet.
 */
module TransactionMapper {
  import opened Wrappers
  import opened Primitives
  import opened StringEncoder
  import opened Crypto
  import opened Messages
  import opened Wallets
  import opened Transactions
  import opened Requests

  datatype Error =
    | MissingPassword    // the request carries no wallet password
    | WalletUnavailable  // the wallet services returned no wallet for the name and password
    | UnknownSigner      // the unlocked wallet holds no account for the signer address
    | NoPublicKey        // a secure message was requested for a recipient without a known public key

  /**
   * The collaborators the mapper is built with, and the library functions it
   * calls: the wallet services (open), the account lookup, the time provider,
   * the cryptographic library and the base fee of an amount's tier.
   */
  datatype Collaborators = Collaborators(
    open: WalletNamePasswordPair -> Option<Wallet>,
    findByAddress: Address -> Account,
    currentTime: TimeInstant,
    crypto: Crypto,
    baseFee: Amount -> Amount)

  /** The fee added to the base fee when a transfer carries a message. */
  const MessageFee: Amount := 1

  /** A mapping's outcome, with the wallet-open calls it made, in order. */
  datatype Mapped<T> = Mapped(result: Result<T, Error>, walletOpens: seq<WalletNamePasswordPair>)

  /**
   * Unlocks a wallet: fails without asking the wallet services when the
   * password is missing; otherwise opens the wallet exactly once with the
   * name and password and fails when no wallet comes back.
   */
  function OpenWallet(ctx: Collaborators, name: string, password: Option<string>): (r: Mapped<Wallet>)
    ensures password.None? ==> r == Mapped(Failure(MissingPassword), [])
    ensures password.Some? ==> r.walletOpens == [WalletNamePasswordPair(name, password.value)]
    ensures password.Some? ==>
      var wallet := ctx.open(WalletNamePasswordPair(name, password.value));
      r.result == if wallet.Some? then Success(wallet.value) else Failure(WalletUnavailable)
  {
    if password.None? then
      Mapped(Failure(MissingPassword), [])
    else
      var pair := WalletNamePasswordPair(name, password.value);
      match ctx.open(pair)
      case None => Mapped(Failure(WalletUnavailable), [pair])
      case Some(wallet) => Mapped(Success(wallet), [pair])
  }

  /**
   * The message of a transfer: none without text; the text's bytes verbatim
   * when encryption is off; otherwise the bytes encrypted for the recipient,
   * which needs the recipient's public key.
   */
  function CreateMessage(c: Crypto, text: Option<string>, shouldEncrypt: bool, sender: Account, recipient: Account)
    : (r: Result<Option<Message>, Error>)
    requires sender.HasPrivateKey()
    ensures r.Failure? <==> text.Some? && shouldEncrypt && !recipient.HasPublicKey()
    ensures r.Failure? ==> r.error == NoPublicKey
    ensures r.Success? ==> (r.value.Some? <==> text.Some?)
    ensures r.Success? && r.value.Some? ==> (r.value.value.SecureMessage? <==> shouldEncrypt)
    ensures r.Success? && r.value.Some? && shouldEncrypt ==>
      r.value.value.sender == sender && r.value.value.recipient == recipient
    ensures r.Success? && r.value.Some? && !shouldEncrypt ==>
      EncodedPayload(r.value.value) == GetBytes(text.value)
    ensures r.Success? && r.value.Some? && (!shouldEncrypt || SoundCipher(c)) ==>
      DecodedPayload(c, r.value.value) == Some(GetBytes(text.value))
    ensures r.Success? && r.value.Some? && shouldEncrypt && SoundCipher(c) && |text.value| > 0 ==>
      EncodedPayload(r.value.value) != GetBytes(text.value)
  {
    if text.None? then
      Success(None)
    else
      var payload := GetBytes(text.value);
      if !shouldEncrypt then
        Success(Some(Plain(payload)))
      else if !recipient.HasPublicKey() then
        Failure(NoPublicKey)
      else
        Success(Some(Secure(c, sender, recipient, payload)))
  }

  /** The transfer built once the signer's wallet is unlocked. */
  function BuildTransfer(ctx: Collaborators, wallet: Wallet, request: TransferSendRequest): Result<Transaction, Error> {
    match wallet.AccountPrivateKey(request.signerAddress)
    case None => Failure(UnknownSigner)
    case Some(signerKey) =>
      var signer := AccountOf(ctx.crypto, signerKey);
      var recipient := ctx.findByAddress(request.recipientAddress);
      var timeStamp := ctx.currentTime;
      match CreateMessage(ctx.crypto, request.message, request.shouldEncrypt, signer, recipient)
      case Failure(e) => Failure(e)
      case Success(message) =>
        Success(TransferTransaction(
          timeStamp, signer, recipient, request.amount, message, request.fee,
          timeStamp.AddHours(request.hoursDue)))
  }

  /**
   * Maps a transfer request to a transfer transaction. It succeeds exactly
   * when a password is given, the wallet opens, the wallet holds the signer,
   * and no secure message is asked for a recipient without a public key; the
   * first of these that fails names the error. The transaction is signed by
   * the account of the signer's private key, goes to the account the lookup
   * returns, copies amount and fee, is stamped with the current time and
   * expires `hoursDue` hours later.
   */
  function ToModel(ctx: Collaborators, request: TransferSendRequest): (r: Mapped<Transaction>)
    ensures r.walletOpens ==
      if request.password.Some? then [WalletNamePasswordPair(request.walletName, request.password.value)] else []
    ensures request.password.None? ==> r.result == Failure(MissingPassword)
    ensures request.password.Some? ==>
      var pair := WalletNamePasswordPair(request.walletName, request.password.value);
      ctx.open(pair).None? ==> r.result == Failure(WalletUnavailable)
    ensures OpenWallet(ctx, request.walletName, request.password).result.Success? ==> (
      var wallet := OpenWallet(ctx, request.walletName, request.password).result.value;
      var recipient := ctx.findByAddress(request.recipientAddress);
      && (request.signerAddress !in wallet.accounts ==> r.result == Failure(UnknownSigner))
      && (request.signerAddress in wallet.accounts ==>
            (r.result.Failure? <==> request.message.Some? && request.shouldEncrypt && !recipient.HasPublicKey()))
      && (r.result.Failure? && request.signerAddress in wallet.accounts ==> r.result.error == NoPublicKey)
      && (r.result.Success? ==>
            var tx := r.result.value;
            && request.signerAddress in wallet.accounts
            && tx.TransferTransaction?
            && tx.signer == AccountOf(ctx.crypto, wallet.accounts[request.signerAddress].privateKey)
            && tx.recipient == recipient
            && tx.amount == request.amount
            && tx.fee == request.fee
            && tx.timeStamp == ctx.currentTime
            && tx.deadline.time - tx.timeStamp.time == request.hoursDue * SecondsPerHour
            && (tx.message.Some? <==> request.message.Some?)
            && (tx.message.Some? && tx.message.value.SecureMessage? ==>
                  tx.message.value.sender == tx.signer && tx.message.value.recipient == tx.recipient)))
  {
    var unlocking := OpenWallet(ctx, request.walletName, request.password);
    var result :=
      (match unlocking.result
       case Failure(e) => Failure(e)
       case Success(wallet) => BuildTransfer(ctx, wallet, request));
    Mapped(result, unlocking.walletOpens)
  }

  /** The importance transfer built once the signer's wallet is unlocked. */
  function BuildImportanceTransfer(ctx: Collaborators, wallet: Wallet, request: TransferImportanceRequest,
                                   mode: ImportanceTransferMode): Result<Transaction, Error> {
    match (wallet.AccountPrivateKey(request.signerAddress), wallet.TryGetWalletAccount(request.signerAddress))
    case (Some(signerKey), Some(walletAccount)) =>
      var timeStamp := ctx.currentTime;
      Success(ImportanceTransferTransaction(
        timeStamp,
        AccountOf(ctx.crypto, signerKey),
        mode,
        AccountOf(ctx.crypto, walletAccount.remoteHarvestingPrivateKey),
        timeStamp.AddHours(request.hoursDue)))
    case _ => Failure(UnknownSigner)
  }

  /**
   * Maps an importance-transfer request to an importance transfer with the
   * caller's mode. Wallet unlocking and time stamping are as for transfers;
   * the remote account is the account of the wallet account's
   * remote-harvesting private key.
   */
  function ToImportanceTransferModel(ctx: Collaborators, request: TransferImportanceRequest, mode: ImportanceTransferMode)
    : (r: Mapped<Transaction>)
    ensures r.walletOpens ==
      if request.password.Some? then [WalletNamePasswordPair(request.walletName, request.password.value)] else []
    ensures request.password.None? ==> r.result == Failure(MissingPassword)
    ensures request.password.Some? ==>
      var pair := WalletNamePasswordPair(request.walletName, request.password.value);
      ctx.open(pair).None? ==> r.result == Failure(WalletUnavailable)
    ensures OpenWallet(ctx, request.walletName, request.password).result.Success? ==> (
      var wallet := OpenWallet(ctx, request.walletName, request.password).result.value;
      && (r.result.Success? <==> request.signerAddress in wallet.accounts)
      && (r.result.Failure? ==> r.result.error == UnknownSigner)
      && (r.result.Success? ==>
            var tx := r.result.value;
            var walletAccount := wallet.accounts[request.signerAddress];
            && tx.ImportanceTransferTransaction?
            && tx.signer == AccountOf(ctx.crypto, walletAccount.privateKey)
            && tx.remote.HasPrivateKey()
            && tx.remote.keyPair.value.privateKey.value == walletAccount.remoteHarvestingPrivateKey
            && Consistent(ctx.crypto, tx.remote)
            && tx.mode == mode
            && tx.timeStamp == ctx.currentTime
            && tx.deadline.time - tx.timeStamp.time == request.hoursDue * SecondsPerHour))
  {
    var unlocking := OpenWallet(ctx, request.walletName, request.password);
    var result :=
      (match unlocking.result
       case Failure(e) => Failure(e)
       case Success(wallet) => BuildImportanceTransfer(ctx, wallet, request, mode));
    Mapped(result, unlocking.walletOpens)
  }

  /**
   * Estimates the fee of a partially specified transfer and reports whether
   * its message could be encrypted: only when a recipient is named and the
   * account lookup knows its public key. A missing amount is priced in the
   * lowest tier (amount zero); a message of either kind adds one fee unit.
   */
  function ToViewModel(ctx: Collaborators, request: PartialTransferInformationRequest)
    : (r: PartialTransferInformationViewModel)
    ensures r.isEncryptionSupported <==>
      request.recipientAddress.Some? && ctx.findByAddress(request.recipientAddress.value).HasPublicKey()
    ensures r.fee >= ctx.baseFee(request.amount.GetOr(0))
  {
    var recipient := if request.recipientAddress.Some? then Some(ctx.findByAddress(request.recipientAddress.value)) else None;
    var isEncryptionSupported := recipient.Some? && recipient.value.HasPublicKey();
    var surcharge := if request.message.Some? then MessageFee else 0;
    PartialTransferInformationViewModel(ctx.baseFee(request.amount.GetOr(0)) + surcharge, isEncryptionSupported)
  }
}
