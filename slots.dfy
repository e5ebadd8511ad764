/** Names of the storage slots the token code reads and writes.  The
    UltraStable names live under the UltraStable system account, the `o2ul_`
    names and `value_token_price` under the O2UL system account; no name is
    used under both, so one name space stands for both accounts. */
module Slots {
  const CurrentSupply := "ultrastable_current_supply"
  const InitialSupply := "ultrastable_initial_supply"
  const MinimumSupply := "ultrastable_minimum_supply"
  const UpdateFrequency := "ultrastable_update_frequency"
  const InitialValue := "ultrastable_initial_value"
  const CurrentValue := "ultrastable_current_value"
  const TargetValue := "ultrastable_target_value"
  const LastUpdateTime := "ultrastable_last_update_time"
  const TokenName := "ultrastable_token_name"
  const TokenSymbol := "ultrastable_token_symbol"
  const TokenDecimals := "ultrastable_token_decimals"
  const MarketVolatility := "market_volatility"
  const HistoryCount := "adjustment_history_count"
  const TreasuryAddress := "treasury_address"
  const ValueTokenPrice := "value_token_price"

  const O2ULMaxSupply := "o2ul_max_supply"
  const O2ULTokenName := "o2ul_token_name"
  const O2ULTokenSymbol := "o2ul_token_symbol"
  const O2ULTokenDecimals := "o2ul_token_decimals"
}
