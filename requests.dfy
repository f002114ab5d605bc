/** The requests the mapper accepts and the view model it returns. */
module Requests {
  import opened Wrappers
  import opened Primitives

  /** A request to send `amount` (paying `fee`) from a wallet account to a recipient. */
  datatype TransferSendRequest = TransferSendRequest(
    walletName: string,
    signerAddress: Address,
    recipientAddress: Address,
    amount: Amount,
    message: Option<string>,
    shouldEncrypt: bool,
    hoursDue: int,
    password: Option<string>,
    fee: Amount)

  /** A request to delegate (or revoke) harvesting from a wallet account to its remote account. */
  datatype TransferImportanceRequest = TransferImportanceRequest(
    signerAddress: Address,
    walletName: string,
    password: Option<string>,
    hoursDue: int)

  /** What is known of a transfer before it is sent, for a fee estimate. */
  datatype PartialTransferInformationRequest = PartialTransferInformationRequest(
    recipientAddress: Option<Address>,
    amount: Option<Amount>,
    message: Option<string>,
    shouldEncrypt: bool)

  datatype PartialTransferInformationViewModel = PartialTransferInformationViewModel(
    fee: Amount,
    isEncryptionSupported: bool)
}
