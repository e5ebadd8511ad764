/** The part of go-ethereum's `StateDB` the token code uses: storage slots of
    the token system accounts, named by their human-readable slot name, and
    value-token balances.  A slot or balance never written reads as zero. */
module StateDb {
  import opened Words

  /** The storage slots and balances as values. */
  datatype LedgerState = LedgerState(storage: map<string, nat>, balance: map<Address, nat>)

  /** `GetState` and `GetBalance`: an unwritten slot holds the zero word and
      an account never credited holds nothing. */
  function Get<K>(m: map<K, nat>, key: K): (v: nat)
    ensures key in m ==> v == m[key]
    ensures key !in m ==> v == 0
  {
    if key in m then m[key] else 0
  }

  /** Every slot holds a 32-byte word and every balance is a uint256. */
  predicate WellFormed(s: LedgerState)
  {
    && (forall k :: k in s.storage ==> s.storage[k] < U256)
    && (forall a :: a in s.balance ==> s.balance[a] < U256)
  }

  /** The balance after `AddBalance(a, amount)`: uint256 addition, which wraps. */
  function Credit(balance: map<Address, nat>, a: Address, amount: nat): (r: map<Address, nat>)
    requires amount < U256
    ensures Get(r, a) == (Get(balance, a) + amount) % U256
    ensures forall b :: b != a ==> Get(r, b) == Get(balance, b)
  {
    balance[a := (Get(balance, a) + amount) % U256]
  }

  /** The balance after `SubBalance(a, amount)`: uint256 subtraction, which
      wraps; go-ethereum leaves the check for sufficient funds to the caller. */
  function Debit(balance: map<Address, nat>, a: Address, amount: nat): (r: map<Address, nat>)
    requires amount < U256
    ensures Get(r, a) == (Get(balance, a) - amount) % U256
    ensures amount <= Get(balance, a) < U256 ==> Get(r, a) == Get(balance, a) - amount
    ensures forall b :: b != a ==> Get(r, b) == Get(balance, b)
  {
    balance[a := (Get(balance, a) - amount) % U256]
  }

  class Ledger {
    var storage: map<string, nat>
    var balance: map<Address, nat>

    function State(): LedgerState
      reads this
    {
      LedgerState(storage, balance)
    }

    predicate Valid()
      reads this
    {
      WellFormed(State())
    }

    /** A fresh, empty state. */
    constructor ()
      ensures Valid() && storage == map[] && balance == map[]
    {
      storage := map[];
      balance := map[];
    }

    method GetState(key: string) returns (v: nat)
      ensures v == Get(storage, key)
    {
      v := Get(storage, key);
    }

    method SetState(key: string, v: nat)
      requires Valid() && v < U256
      modifies this
      ensures Valid()
      ensures storage == old(storage)[key := v] && balance == old(balance)
    {
      storage := storage[key := v];
    }

    method GetBalance(a: Address) returns (b: nat)
      ensures b == Get(balance, a)
    {
      b := Get(balance, a);
    }

    method AddBalance(a: Address, amount: nat)
      requires Valid() && amount < U256
      modifies this
      ensures Valid()
      ensures balance == Credit(old(balance), a, amount) && storage == old(storage)
    {
      balance := Credit(balance, a, amount);
    }

    method SubBalance(a: Address, amount: nat)
      requires Valid() && amount < U256
      modifies this
      ensures Valid()
      ensures balance == Debit(old(balance), a, amount) && storage == old(storage)
    {
      balance := Debit(balance, a, amount);
    }
  }
}
