/**
 * The domain transactions the mapper builds: a value transfer, and an
 * importance transfer that delegates (or revokes) harvesting to a remote
 * account. Both carry a signer, a time stamp and a deadline.
 */
module Transactions {
  import opened Wrappers
  import opened Primitives
  import opened Messages

  datatype ImportanceTransferMode = Activate | Deactivate

  datatype Transaction =
    | TransferTransaction(
        timeStamp: TimeInstant,
        signer: Account,
        recipient: Account,
        amount: Amount,
        message: Option<Message>,
        fee: Amount,
        deadline: TimeInstant)
    | ImportanceTransferTransaction(
        timeStamp: TimeInstant,
        signer: Account,
        mode: ImportanceTransferMode,
        remote: Account,
        deadline: TimeInstant)
}
