/** `SetupUltraStableToken`: the genesis seeding of the UltraStable token
    system, which allocates the initial supply to the treasury and writes the
    slots the manager later reads. */
module UltraStableGenesis {
  import opened Words
  import opened Seigniorage
  import opened StateDb
  import opened Journal
  import opened SupplyAdjustment
  import opened UltraStable
  import Slots

  /** The two fields of the proprietary stable configuration the genesis
      writes: the initial supply (a `*big.Int`) and the update frequency, as
      the `int64` it is converted to. */
  datatype StableConfig = StableConfig(initialSupply: int, updateFrequency: Int64)

  /** 1.0 token: 10^18 base units. */
  const OneToken: nat := 1_000_000_000_000_000_000

  /** The volatility the market is seeded with, in percent. */
  const InitialVolatility: nat := 25

  const TokenDecimals: nat := 18

  lemma TokenTextsAreBytes()
    ensures IsByteString("UltraStable") && IsByteString("USUL")
  {
  }

  /** The state `SetupUltraStableToken(statedb, treasury)` leaves, for the
      configuration the proprietary module supplies and the genesis clock
      reading `now` (Unix seconds).  An initial supply needing more than 256
      bits aborts the setup before anything is written. */
  function Genesis(s: LedgerState, treasury: Address, config: StableConfig, now: Int64): (r: LedgerState)
    ensures FromBig(config.initialSupply).overflow ==> r == s
    ensures WellFormed(s) ==> WellFormed(r)
  {
    var supply := FromBig(config.initialSupply);
    if supply.overflow then s
    else
      TokenTextsAreBytes();
      LedgerState(
        s.storage[Slots.TokenName := StringWord("UltraStable")]
                 [Slots.TokenSymbol := StringWord("USUL")]
                 [Slots.TokenDecimals := TokenDecimals]
                 [Slots.InitialSupply := ToWord(config.initialSupply)]
                 [Slots.CurrentSupply := ToWord(config.initialSupply)]
                 [Slots.MinimumSupply := OneToken]
                 [Slots.UpdateFrequency := ToWord(config.updateFrequency)]
                 [Slots.InitialValue := OneToken]
                 [Slots.CurrentValue := OneToken]
                 [Slots.TargetValue := OneToken]
                 [Slots.LastUpdateTime := ToWord(now)]
                 [Slots.MarketVolatility := InitialVolatility]
                 [Slots.HistoryCount := 0]
                 [Slots.TreasuryAddress := treasury],
        Credit(s.balance, treasury, supply.value))
  }

  /** `SetupUltraStableToken`, step by step on the ledger. */
  method SetupUltraStableToken(db: Ledger, treasury: Address, config: StableConfig, now: Int64)
    requires db.Valid()
    modifies db
    ensures db.Valid()
    ensures db.State() == Genesis(old(db.State()), treasury, config, now)
  {
    var initialSupply := FromBig(config.initialSupply);
    if initialSupply.overflow {
      return;
    }
    db.AddBalance(treasury, initialSupply.value);
    TokenTextsAreBytes();
    db.SetState(Slots.TokenName, StringWord("UltraStable"));
    db.SetState(Slots.TokenSymbol, StringWord("USUL"));
    db.SetState(Slots.TokenDecimals, TokenDecimals);
    db.SetState(Slots.InitialSupply, ToWord(config.initialSupply));
    db.SetState(Slots.CurrentSupply, ToWord(config.initialSupply));
    db.SetState(Slots.MinimumSupply, OneToken);
    db.SetState(Slots.UpdateFrequency, ToWord(config.updateFrequency));
    db.SetState(Slots.InitialValue, OneToken);
    db.SetState(Slots.CurrentValue, OneToken);
    db.SetState(Slots.TargetValue, OneToken);
    db.SetState(Slots.LastUpdateTime, ToWord(now));
    db.SetState(Slots.MarketVolatility, InitialVolatility);
    db.SetState(Slots.HistoryCount, 0);
    db.SetState(Slots.TreasuryAddress, treasury);
  }

  /** A genesis whose initial supply fits a word and does not wrap the
      treasury's balance: the treasury gains exactly the initial supply on top
      of what it held, the current and initial supply slots hold it, the floor
      is one token, the value slots start at one token and the market
      volatility at 25.  No other account changes. */
  lemma GenesisAllocates(s: LedgerState, treasury: Address, config: StableConfig, now: Int64)
    requires 0 <= config.initialSupply
    requires Get(s.balance, treasury) + config.initialSupply < U256
    ensures var r := Genesis(s, treasury, config, now);
      && Get(r.balance, treasury) == Get(s.balance, treasury) + config.initialSupply
      && (forall a :: a != treasury ==> Get(r.balance, a) == Get(s.balance, a))
      && Supply(r) == config.initialSupply
      && Get(r.storage, Slots.InitialSupply) == config.initialSupply
      && MinSupply(r) == OneToken
      && Get(r.storage, Slots.InitialValue) == OneToken
      && Get(r.storage, Slots.CurrentValue) == OneToken
      && Get(r.storage, Slots.TargetValue) == OneToken
      && Get(r.storage, Slots.TreasuryAddress) == treasury
      && Get(r.storage, Slots.MarketVolatility) == InitialVolatility
      && (Supply(r) >= MinSupply(r) <==> config.initialSupply >= OneToken)
  {
    assert FromBig(config.initialSupply).value == config.initialSupply;
    CreditFits(s.balance, treasury, config.initialSupply);
  }

  /** A credit that does not reach 2^256 adds exactly. */
  lemma CreditFits(balance: map<Address, nat>, a: Address, amount: nat)
    requires Get(balance, a) + amount < U256
    ensures Get(Credit(balance, a, amount), a) == Get(balance, a) + amount
  {
  }

  /** After genesis the journal is empty: every history query returns nothing. */
  lemma GenesisHistoryEmpty(s: LedgerState, treasury: Address, config: StableConfig, now: Int64, n: Int64)
    requires !FromBig(config.initialSupply).overflow
    ensures ReadCount(Genesis(s, treasury, config, now).storage) == 0
    ensures ReadHistory(Genesis(s, treasury, config, now).storage, n) == []
  {
    var r := Genesis(s, treasury, config, now);
    assert HistoryCountOf(r.storage) == 0;
  }

  /** The first update after genesis: the calculator is asked with the
      initial supply's word, the price already stored under the value-token
      slot (or the default), and the seeded volatility of 25. */
  lemma GenesisFeedsFirstUpdate(s: LedgerState, treasury: Address, config: StableConfig, now: Int64, calculate: Calculator)
    requires !FromBig(config.initialSupply).overflow
    ensures CalculatedAdjustment(Genesis(s, treasury, config, now).storage, calculate)
      == calculate(ToWord(config.initialSupply), ValueTokenPrice(Get(s.storage, Slots.ValueTokenPrice)), InitialVolatility)
  {
    var r := Genesis(s, treasury, config, now);
    assert Get(r.storage, Slots.MarketVolatility) == InitialVolatility;
    assert Get(r.storage, Slots.CurrentSupply) == ToWord(config.initialSupply);
    assert Get(r.storage, Slots.ValueTokenPrice) == Get(s.storage, Slots.ValueTokenPrice);
  }

  /** The first adjustment applied after genesis is record 0: any window of
      at least one record then holds exactly that record. */
  lemma FirstAdjustmentIsRecordZero(s: LedgerState, treasury: Address, config: StableConfig, now: Int64,
                                    adj: Adjustment, isPossible: Verdict, n: Int64)
    requires !FromBig(config.initialSupply).overflow
    requires n >= 1
    ensures var g := Genesis(s, treasury, config, now);
      var r := Apply(g, adj, treasury, isPossible);
      r.status == Ok && Proceeds(g, adj, treasury, isPossible) ==> ReadHistory(r.after.storage, n) == [StoredRecord(adj)]
  {
    var g := Genesis(s, treasury, config, now);
    GenesisHistoryEmpty(s, treasury, config, now, n - 1);
    assert HistoryCountOf(g.storage) == 0;
    ApplyExtendsHistory(g, adj, treasury, isPossible, n);
  }
}
