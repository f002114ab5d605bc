/**
 * Unlocked wallets, as the mapper sees them: a lookup from an address to the
 * wallet account stored for it.
 */
module Wallets {
  import opened Wrappers
  import opened Primitives

  /** The name and password that together identify and unlock one wallet. */
  datatype WalletNamePasswordPair = WalletNamePasswordPair(name: string, password: string)

  /**
   * One account of a wallet: its own private key and the private key of the
   * remote account it may delegate harvesting to.
   */
  datatype WalletAccount = WalletAccount(privateKey: PrivateKey, remoteHarvestingPrivateKey: PrivateKey)

  datatype Wallet = Wallet(accounts: map<Address, WalletAccount>) {

    /** The private key of the wallet account at `address`, if the wallet holds one. */
    function AccountPrivateKey(address: Address): Option<PrivateKey> {
      if address in accounts then Some(accounts[address].privateKey) else None
    }

    /** The wallet account at `address`, or None when the wallet does not hold it. */
    function TryGetWalletAccount(address: Address): Option<WalletAccount> {
      if address in accounts then Some(accounts[address]) else None
    }
  }
}
