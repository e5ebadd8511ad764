/** The O2UL value token at genesis: its fixed supply, the founder/reserve
    split, and `SetupO2ULToken`, which credits both allocations and records
    the token parameters. */
module O2ULToken {
  import opened Words
  import opened StateDb
  import Slots

  /** 10^18 base units per token. */
  const Unit: nat := 1_000_000_000_000_000_000

  /** 21 million tokens. */
  const MaxSupply: nat := 21_000_000 * Unit

  /** 60% of the supply. */
  const FounderAllocation: nat := 12_600_000 * Unit

  /** 40% of the supply. */
  const ReserveAllocation: nat := 8_400_000 * Unit

  const TokenDecimals: nat := 18

  /** The two allocations are the whole supply, split 60/40, and every
      amount fits a uint256. */
  lemma AllocationSplit()
    ensures FounderAllocation + ReserveAllocation == MaxSupply
    ensures 10 * FounderAllocation == 6 * MaxSupply && 10 * ReserveAllocation == 4 * MaxSupply
    ensures MaxSupply < U256
    ensures !FromBig(FounderAllocation).overflow && FromBig(FounderAllocation).value == FounderAllocation
    ensures !FromBig(ReserveAllocation).overflow && FromBig(ReserveAllocation).value == ReserveAllocation
  {
  }

  /** The state `SetupO2ULToken(statedb, founder, reserve)` leaves: the founder
      is credited 60% and the reserve 40% of the supply, then the supply,
      name, symbol and decimals are written. */
  function O2ULGenesis(s: LedgerState, founder: Address, reserve: Address): (r: LedgerState)
    ensures WellFormed(s) ==> WellFormed(r)
  {
    assert IsByteString("Orbis Omnira Unitas Lex") && IsByteString("O2UL");
    LedgerState(
      s.storage[Slots.O2ULMaxSupply := ToWord(MaxSupply)]
               [Slots.O2ULTokenName := StringWord("Orbis Omnira Unitas Lex")]
               [Slots.O2ULTokenSymbol := StringWord("O2UL")]
               [Slots.O2ULTokenDecimals := TokenDecimals],
      Credit(Credit(s.balance, founder, FromBig(FounderAllocation).value), reserve, FromBig(ReserveAllocation).value))
  }

  /** `SetupO2ULToken`, step by step on the ledger; the two balances it reads
      back are only logged. */
  method SetupO2ULToken(db: Ledger, founder: Address, reserve: Address)
    requires db.Valid()
    modifies db
    ensures db.Valid()
    ensures db.State() == O2ULGenesis(old(db.State()), founder, reserve)
  {
    var founderAmount := FromBig(FounderAllocation).value;
    var reserveAmount := FromBig(ReserveAllocation).value;
    db.AddBalance(founder, founderAmount);
    db.AddBalance(reserve, reserveAmount);
    db.SetState(Slots.O2ULMaxSupply, ToWord(MaxSupply));
    assert IsByteString("Orbis Omnira Unitas Lex") && IsByteString("O2UL");
    db.SetState(Slots.O2ULTokenName, StringWord("Orbis Omnira Unitas Lex"));
    db.SetState(Slots.O2ULTokenSymbol, StringWord("O2UL"));
    db.SetState(Slots.O2ULTokenDecimals, TokenDecimals);
  }

  /** When no credit wraps a uint256 balance, distinct founder and reserve
      each gain exactly their allocation on top of what they held, together
      the whole supply; a single account named as both gains the whole
      supply.  Nobody else gains anything, and the stored maximum supply is
      the 21 million tokens. */
  lemma O2ULGenesisAllocates(s: LedgerState, founder: Address, reserve: Address)
    requires founder != reserve ==>
      Get(s.balance, founder) + FounderAllocation < U256 && Get(s.balance, reserve) + ReserveAllocation < U256
    requires founder == reserve ==> Get(s.balance, founder) + MaxSupply < U256
    ensures var r := O2ULGenesis(s, founder, reserve);
      && (founder != reserve ==>
            && Get(r.balance, founder) == Get(s.balance, founder) + FounderAllocation
            && Get(r.balance, reserve) == Get(s.balance, reserve) + ReserveAllocation
            && (Get(r.balance, founder) - Get(s.balance, founder))
               + (Get(r.balance, reserve) - Get(s.balance, reserve)) == MaxSupply)
      && (founder == reserve ==> Get(r.balance, founder) == Get(s.balance, founder) + MaxSupply)
      && (forall a :: a != founder && a != reserve ==> Get(r.balance, a) == Get(s.balance, a))
      && Get(r.storage, Slots.O2ULMaxSupply) == MaxSupply
      && Get(r.storage, Slots.O2ULTokenDecimals) == TokenDecimals
  {
    AllocationSplit();
    var r := O2ULGenesis(s, founder, reserve);
    var b := Get(s.balance, founder);
    var afterFounder := Credit(s.balance, founder, FounderAllocation);
    assert Get(afterFounder, founder) == (b + FounderAllocation) % U256;
    if founder == reserve {
      assert Get(afterFounder, founder) == b + FounderAllocation;
      assert Get(r.balance, founder) == (b + FounderAllocation + ReserveAllocation) % U256;
    } else {
      assert Get(afterFounder, reserve) == Get(s.balance, reserve);
      assert Get(r.balance, founder) == b + FounderAllocation;
    }
  }
}
