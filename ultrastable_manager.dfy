/** `UltraStableManager`: the update trigger, the update step, the application
    of a supply adjustment and the adjustment-history journal, over one shared
    ledger.  Calls into the proprietary module are parameters: the supply
    calculator and the feasibility verdict as functions, the target and
    current stable values and the clock readings as values. */
module UltraStable {
  import opened Words
  import opened Seigniorage
  import opened StateDb
  import opened Journal
  import opened SupplyAdjustment
  import Slots

  /** The price `ProcessUpdate` assumes when none is stored: 1.0 token. */
  const DefaultValueTokenPrice: nat := 1_000_000_000_000_000_000

  /** The value-token price `ProcessUpdate` passes on: the stored word, or the
      default when the slot holds zero.  It is never zero. */
  function ValueTokenPrice(word: nat): (p: nat)
    ensures p > 0
    ensures word != 0 ==> p == word
    ensures word == 0 ==> p == DefaultValueTokenPrice
  {
    if word == 0 then DefaultValueTokenPrice else word
  }

  /** `uint8(SetBytes(word).Uint64())`: the volatility byte, the lowest 8 bits
      of the stored word, so a stored 300 reads as 44. */
  function Volatility(word: nat): (v: nat)
    ensures v < 256
    ensures v == word % 256
    ensures word < 256 ==> v == word
  {
    (word % U64) % 256
  }

  /** `CalculateSupplyAdjustment(currentSupply, valueTokenPrice, volatility)`. */
  type Calculator = (nat, nat, nat) -> Adjustment

  /** The storage after `ProcessUpdate`: target value, current value and the
      time of the update are written. */
  function UpdatedStorage(storage: map<string, nat>, targetValue: int, currentValue: int, updateUnix: Int64): map<string, nat>
  {
    storage[Slots.TargetValue := ToWord(targetValue)]
           [Slots.CurrentValue := ToWord(currentValue)]
           [Slots.LastUpdateTime := ToWord(updateUnix)]
  }

  /** The adjustment `ProcessUpdate` computes (and sends on the update feed)
      for the stored supply, price and volatility. */
  function CalculatedAdjustment(storage: map<string, nat>, calculate: Calculator): Adjustment
  {
    calculate(Get(storage, Slots.CurrentSupply),
              ValueTokenPrice(Get(storage, Slots.ValueTokenPrice)),
              Volatility(Get(storage, Slots.MarketVolatility)))
  }

  /** What one tick of `checkForUpdates` sends on the update feed: nothing,
      or the adjustment `ProcessUpdate` computed. */
  datatype Feed = Silent | Sent(adjustment: Adjustment)

  class Manager {
    const ledger: Ledger
    var lastUpdateTime: Time

    /** `NewUltraStableManager`: no update seen yet. */
    constructor (ledger: Ledger)
      ensures this.ledger == ledger && lastUpdateTime == ZeroTime
    {
      this.ledger := ledger;
      lastUpdateTime := ZeroTime;
    }

    /** `checkForUpdates`: runs `ProcessUpdate` exactly when the proprietary
        module's last update is strictly after the one last processed; the
        feed then carries the adjustment it computed, and stays silent
        otherwise. */
    method CheckForUpdates(proprietaryUpdate: Time, calculate: Calculator,
                           targetValue: int, currentValue: int, updateUnix: Int64, now: Time)
      returns (feed: Feed)
      requires ledger.Valid()
      modifies this, ledger
      ensures ledger.Valid()
      ensures feed.Sent? <==> After(proprietaryUpdate, old(lastUpdateTime))
      ensures feed == Silent ==> ledger.storage == old(ledger.storage) && lastUpdateTime == old(lastUpdateTime)
      ensures feed.Sent? ==>
        && feed.adjustment == CalculatedAdjustment(old(ledger.storage), calculate)
        && ledger.storage == UpdatedStorage(old(ledger.storage), targetValue, currentValue, updateUnix)
        && lastUpdateTime == now
      ensures ledger.balance == old(ledger.balance)
    {
      var lastUpdate := lastUpdateTime;
      feed := Silent;
      if After(proprietaryUpdate, lastUpdate) {
        var sent := ProcessUpdate(calculate, targetValue, currentValue, updateUnix, now);
        feed := Sent(sent);
      }
    }

    /** `ProcessUpdate`: computes the adjustment from the stored supply, price
        (defaulted when zero) and volatility, returns it as the value sent on
        the update feed, and records the target value, current value and
        update time.  The adjustment itself is not applied here. */
    method ProcessUpdate(calculate: Calculator, targetValue: int, currentValue: int, updateUnix: Int64, now: Time)
      returns (sent: Adjustment)
      requires ledger.Valid()
      modifies this, ledger
      ensures ledger.Valid()
      ensures sent == CalculatedAdjustment(old(ledger.storage), calculate)
      ensures ledger.storage == UpdatedStorage(old(ledger.storage), targetValue, currentValue, updateUnix)
      ensures ledger.balance == old(ledger.balance)
      ensures lastUpdateTime == now
    {
      var currentSupply := ledger.GetState(Slots.CurrentSupply);
      var priceWord := ledger.GetState(Slots.ValueTokenPrice);
      var valueTokenPrice := ValueTokenPrice(priceWord);
      var volatilityWord := ledger.GetState(Slots.MarketVolatility);
      var volatility := Volatility(volatilityWord);
      sent := calculate(currentSupply, valueTokenPrice, volatility);
      ledger.SetState(Slots.TargetValue, ToWord(targetValue));
      ledger.SetState(Slots.CurrentValue, ToWord(currentValue));
      ledger.SetState(Slots.LastUpdateTime, ToWord(updateUnix));
      lastUpdateTime := now;
    }

    /** `ApplySupplyAdjustment`: the error returned and the new ledger state
        are those `SupplyAdjustment.Apply` gives for the old state. */
    method ApplySupplyAdjustment(adj: Adjustment, treasury: Address, isPossible: Verdict) returns (err: Status)
      requires ledger.Valid()
      modifies ledger
      ensures ledger.Valid()
      ensures Applied(err, ledger.State()) == Apply(old(ledger.State()), adj, treasury, isPossible)
    {
      if adj.kind == None {
        return Ok;
      }
      var minSupply := ledger.GetState(Slots.MinimumSupply);
      var treasuryBalance := ledger.GetBalance(treasury);
      var possible := isPossible(adj, treasuryBalance, minSupply);
      if !possible {
        return Ok;
      }
      ghost var before := ledger.State();
      if adj.kind == Expansion {
        var conversion := FromBig(adj.valueTokens);
        if conversion.overflow {
          return Err(OverflowMessage);
        }
        ledger.SubBalance(treasury, conversion.value);
        var currentSupply := ledger.GetState(Slots.CurrentSupply);
        var newSupply := currentSupply + adj.amount;
        ledger.SetState(Slots.CurrentSupply, ToWord(newSupply));
      } else if adj.kind == Contraction {
        var conversion := FromBig(adj.valueTokens);
        if conversion.overflow {
          return Err(OverflowMessage);
        }
        ledger.AddBalance(treasury, conversion.value);
        var currentSupply := ledger.GetState(Slots.CurrentSupply);
        var newSupply := currentSupply - adj.amount;
        ledger.SetState(Slots.CurrentSupply, ToWord(newSupply));
      }
      assert ledger.State() == Move(before, adj, treasury);
      UpdateAdjustmentHistory(adj);
      err := Ok;
    }

    /** `updateAdjustmentHistory`: the storage becomes `AppendRecord` of the
        old storage; balances are untouched. */
    method UpdateAdjustmentHistory(adj: Adjustment)
      requires ledger.Valid()
      modifies ledger
      ensures ledger.Valid()
      ensures ledger.storage == AppendRecord(old(ledger.storage), adj)
      ensures ledger.balance == old(ledger.balance)
    {
      ghost var before := ledger.storage;
      var count := ledger.GetState(Slots.HistoryCount);
      var newCount := count + 1;
      ledger.SetState(Slots.HistoryCount, ToWord(newCount));
      WriteRecord(count, adj);
      AppendIsWrites(before, adj);
    }

    /** The six field writes of `updateAdjustmentHistory`, under index `count`. */
    method WriteRecord(count: nat, adj: Adjustment)
      requires ledger.Valid()
      modifies ledger
      ensures ledger.Valid()
      ensures ledger.storage == WriteFields(old(ledger.storage), count, adj)
      ensures ledger.balance == old(ledger.balance)
    {
      var typeValue := TypeCode(adj.kind);
      ledger.SetState(RecordSlot(count, "type"), typeValue);
      ledger.SetState(RecordSlot(count, "amount"), ToWord(adj.amount));
      ledger.SetState(RecordSlot(count, "value_tokens"), ToWord(adj.valueTokens));
      ledger.SetState(RecordSlot(count, "deviation"), ToWord(adj.deviationBps));
      ledger.SetState(RecordSlot(count, "new_supply"), ToWord(adj.newSupply));
      ledger.SetState(RecordSlot(count, "timestamp"), ToWord(adj.timestamp.unix));
    }

    /** `GetAdjustmentHistory(maxEntries)`: the records at indices
        max(0, count - maxEntries) .. count - 1, oldest first.  The window
        start is computed without the int64 wrap-around of the source (see
        `Journal.WindowStartAsWritten`). */
    method GetAdjustmentHistory(maxEntries: Int64) returns (results: seq<Adjustment>)
      ensures results == ReadHistory(ledger.storage, maxEntries)
    {
      var countWord := ledger.GetState(Slots.HistoryCount);
      var count := Int64Of(countWord);
      results := [];
      var start := count - maxEntries;
      if start < 0 {
        start := 0;
      }
      var i := start;
      while i < count
        invariant start <= i
        invariant i <= count || i == start
        invariant |results| == i - start
        invariant forall k :: 0 <= k < |results| ==> results[k] == ReadRecord(ledger.storage, start + k)
      {
        var typeValue := ledger.GetState(RecordSlot(i, "type"));
        var adjustType := DecodeType(Int64Of(typeValue));
        var amount := ledger.GetState(RecordSlot(i, "amount"));
        var valueTokens := ledger.GetState(RecordSlot(i, "value_tokens"));
        var deviation := ledger.GetState(RecordSlot(i, "deviation"));
        var newSupply := ledger.GetState(RecordSlot(i, "new_supply"));
        var timestamp := ledger.GetState(RecordSlot(i, "timestamp"));
        var result := Adjustment(adjustType, amount, valueTokens, deviation, newSupply, Time(Int64Of(timestamp), 0));
        results := results + [result];
        i := i + 1;
      }
      assert start == WindowStart(ReadCount(ledger.storage), maxEntries);
      ghost var expected := ReadHistory(ledger.storage, maxEntries);
      assert expected == ReadFrom(ledger.storage, start, count);
    }
  }
}
