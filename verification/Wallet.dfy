// The wallet: balance arithmetic on u64 and the file that persists it.

module Wallet {
  import opened Words

  // The addition credit performs: unchecked, so it wraps.
  function WrappingAdd(a: u64, b: u64): u64 {
    (a + b) % U64_LIMIT
  }

  class Wallet {
    var balance: u64
    const address: string

    constructor (balance: u64, address: string)
      ensures this.balance == balance && this.address == address
    {
      this.balance, this.address := balance, address;
    }

    method Debit(amount: u64) returns (ok: bool)
      modifies this`balance
      ensures ok == (amount <= old(balance))
      ensures balance == if ok then old(balance) - amount else old(balance)
    {
      if balance < amount {
        return false;
      }
      balance := balance - amount;
      return true;
    }

    method Credit(amount: u64)
      modifies this`balance
      ensures balance == WrappingAdd(old(balance), amount)
    {
      balance := (balance + amount) % U64_LIMIT;
    }
  }
}
