# O2UL UltraStable ledger bookkeeping, modelled in Dafny

This project models the sequential bookkeeping of the O2UL blockchain's
UltraStable token system. The algorithm that computes supply adjustments is
proprietary and is not shown. Around it sit these pieces:

- **Applying a supply adjustment** (`UltraStableManager.ApplySupplyAdjustment`).
  An expansion burns value tokens from the treasury and raises the stored
  stable supply. A contraction mints value tokens to the treasury and lowers
  the supply. The decision is then appended to the history.
- **The adjustment-history journal.** `updateAdjustmentHistory` appends
  records and `GetAdjustmentHistory` reads them back. The journal is a counter
  slot `adjustment_history_count` and, for record `i`, six slots
  `adjustment_<i>_<field>`. `GetAdjustmentHistory` reads a trailing window of
  it.
- **The update path.** The trigger in `checkForUpdates` checks for newer
  proprietary data. `ProcessUpdate` defaults a zero value-token price to 1.0,
  decodes the volatility byte, asks the calculator for an adjustment and
  records the target value, current value and update time.
- **Genesis.** `SetupUltraStableToken` seeds the treasury and the UltraStable
  slots. `SetupO2ULToken` gives the founder 60% and the reserve 40% of the
  21 million O2UL tokens.
- **The version string** `v<yyyy>.<mm>.<dd>.<hh><mm>-<phase> [<commit8>]`.

## How the model is built

- **The ledger.** go-ethereum's `StateDB` is the class `StateDb.Ledger`. It
  has a `storage` map from slot names to 32-byte words and a `balance` map
  from addresses to uint256 balances. A slot or balance that was never written
  reads as 0.
- **Imperative code.** Each Go function that changes state step by step is a
  method, on `UltraStable.Manager` or on the ledger passed in. Each method's
  postcondition ties the new ledger state to a pure function of the old state:
  - `SupplyAdjustment.Apply`;
  - `Journal.AppendRecord`;
  - `UltraStableGenesis.Genesis`;
  - `O2ULToken.O2ULGenesis`.

  The lemmas are stated about those functions.
- **Foreign inputs are parameters.** These become functions passed in:
  - the proprietary feasibility check (`SupplyAdjustment.Verdict`);
  - the proprietary supply calculator (`UltraStable.Calculator`).

  These become plain values:
  - the clock readings;
  - the target and current stable values;
  - the stable configuration.
- **Go integer semantics are written out** in module `Words`:
  - `BytesToHash(x.Bytes())` keeps the magnitude of `x` modulo 2^256 (`ToWord`);
  - `uint256.FromBig` reduces modulo 2^256 and flags overflow (`FromBig`);
  - `AddBalance` and `SubBalance` on a uint256 balance wrap around (`StateDb.Credit`, `StateDb.Debit`);
  - `big.Int.Int64()` takes the low 64 bits in two's complement (`Int64Of`);
  - int64 subtraction wraps (`Wrap64`).
- **Decimal text** is in module `Decimal`: `big.Int.String()`, and `%0Nd`
  with its rule for negative numbers.

Three things the code does that are easy to misread:

- **The code enforces no minimum-supply floor of its own.** It reads
  `ultrastable_minimum_supply` under the comment "Check minimum supply"
  (core/ultrastable_integration.go:200-204) only to pass it to the verdict; only
  the proprietary verdict can stop a contraction below the floor.
  `SupplyAdjustment.ContractionPastZeroStoresMagnitude` applies an approved
  contraction of 5 tokens to a supply of 2 with a floor of 1.
- **A rejected adjustment is not an error.** When the verdict rejects an
  adjustment, the code returns `nil` like a success
  (core/ultrastable_integration.go:214-217). The model's `Status` is `Ok` there
  too.
- **The overflow check comes after the verdict.** It happens after the verdict
  but before any write, so an overflow leaves the state untouched.

## Model

| member | source | states |
|---|---|---|
| Words.ToWord | core/ultrastable_integration.go:243-247 | the stored word is below 2^256, equals the number for 0 <= x < 2^256, and is the magnitude of a negative x (the sign is lost) |
| Words.FromBig | core/ultrastable_integration.go:226-229 | overflow is flagged exactly when the magnitude needs more than 256 bits; in range the value is the number itself, a negative number becomes 2^256 + x |
| Words.Int64Of | core/ultrastable_integration.go:443 | a word below 2^63 reads back as itself through `Int64()` |
| Words.Wrap64 | core/ultrastable_integration.go:448 | the int64 result equals the mathematical result when that fits and always agrees with it modulo 2^64 |
| Words.StringWord | core/genesis_ultrastable.go:47-55 | `BytesToHash([]byte(s))` of a token name or symbol as a number (the O2UL name and symbol at core/genesis/o2ul_token.go:55-61 too), the big-endian reading of its bytes kept to 32 bytes; its only contract is that the result is below 2^256, a word (`Words.BigEndian` states that the last byte is the lowest) |
| Decimal.Digits | core/ultrastable_integration.go:318 | the decimal text of the index is a non-empty string of digits |
| Decimal.DigitsInjective | core/ultrastable_integration.go:318 | distinct indices have distinct decimal text |
| Decimal.FormatInt | internal/version/o2ul_version.go:41-47 | `%0Nd` of one clock field: the sign for a negative number, then the magnitude's digits left-padded with zeros to the width; its meaning is stated by `Decimal.FormatIntDigits` and `Decimal.FixedWidthRoundTrip` |
| Decimal.FormatIntDigits | internal/version/o2ul_version.go:41-47 | `%0Nd`: a non-negative number becomes all digits that parse back to it, as long as the width or its own digit count, whichever is larger; a negative one is '-' followed by digits that parse back to its magnitude, as long as the width or 1 + its digit count |
| Decimal.FixedWidthRoundTrip | internal/version/o2ul_version.go:41-47 | a number below 10^width is written in exactly width digits, which parse back to it |
| StateDb.Credit | core/ultrastable_integration.go:267 | `AddBalance` adds modulo 2^256 to one account and leaves every other account as it was |
| StateDb.Debit | core/ultrastable_integration.go:235 | `SubBalance` subtracts modulo 2^256, exactly when the balance covers the amount, and leaves every other account as it was |
| Seigniorage.After | core/ultrastable_integration.go:106 | `Time.After`: strictly later, by seconds and then nanoseconds; it has no contract of its own, and `UltraStable.Manager.CheckForUpdates` states that the update runs exactly when it holds |
| Journal.RecordSlotInjective | core/ultrastable_integration.go:318-363 | two (index, field) pairs name the same slot only if they are equal, so records never overwrite each other |
| Journal.RecordSlotIsJournalSlot | core/ultrastable_integration.go:305-318 | every record slot starts with "adjustment_" and none is the counter slot |
| Journal.RecordSlot | core/ultrastable_integration.go:318 | the slot name "adjustment_<i>_<field>"; it has no contract of its own: `Journal.RecordSlotInjective` gives it its meaning (distinct records and fields never share a slot) and `Journal.RecordSlotIsJournalSlot` places it in the journal apart from the counter |
| Journal.TypeCode | core/ultrastable_integration.go:321-329 | Expansion is coded 1, Contraction 2 and None 0 |
| Journal.DecodeType | core/ultrastable_integration.go:463-471 | code 1 reads as Expansion and code 2 as Contraction, each exactly; every other code reads as None |
| Journal.TypeCodeRoundTrip | core/ultrastable_integration.go:321-471 | the type decode inverts the type encode, through the stored word and `Int64()` |
| Journal.AppendRecord | core/ultrastable_integration.go:304-364 | the counter goes from c to c + 1 as a word, no slot other than the counter and the six fields of record c changes, and every slot still holds a 32-byte word |
| Journal.WriteFields | core/ultrastable_integration.go:331-364 | the six field writes of record c; it has no contract of its own: `Journal.WriteFieldsFrame` states that no slot outside the counter and record c's fields changes, and `Journal.AppendThenRead` that the record reads back as the stored decision |
| Journal.AppendedAreJournal | core/ultrastable_integration.go:304-318 | every slot an append writes, the counter included, is named with the "adjustment_" prefix, so an append leaves every slot outside the journal as it was |
| Journal.ReadRecord | core/ultrastable_integration.go:455-511 | record i as the loop rebuilds it from its six slots: the type decoded from `Int64()` of its word, the four quantities as stored, the timestamp as whole seconds; `Journal.AppendThenRead` and `Journal.AppendRoundTrip` show it returns what the append stored |
| Journal.ReadCount | core/ultrastable_integration.go:440-443 | the counter read through `Int64()`; it has no contract of its own: `Words.Int64Of` states that a counter below 2^63 reads as itself, and `Journal.ReadHistory` that a counter at or below 0 gives an empty history |
| Journal.AppendThenRead | core/ultrastable_integration.go:318-364 | record c read back after the append is the stored form of the decision |
| Journal.AppendKeepsOtherRecords | core/ultrastable_integration.go:331-364 | the append leaves every record at another index as it was |
| Journal.AppendKeepsAllOtherRecords | core/ultrastable_integration.go:331-364 | the same, for all other indices at once |
| Journal.AppendRoundTrip | core/ultrastable_integration.go:321-511 | for non-negative quantities below 2^256 and a timestamp within int64, type, amount, value tokens, new supply and whole seconds read back unchanged; the deviation reads back as its magnitude |
| Journal.WindowStart | core/ultrastable_integration.go:447-451 | the corrected window start: max(0, count - maxEntries), computed without wrap-around |
| Journal.WindowStartAsWritten | core/ultrastable_integration.go:448-451 | the window start as written, with int64 wrap-around; equal to the corrected start whenever the subtraction does not overflow |
| Journal.ReadFrom | core/ultrastable_integration.go:454-514 | the records at indices start .. count - 1, in ascending index order |
| Journal.ReadHistory | core/ultrastable_integration.go:439-516 | for a non-negative counter the length is min(max(n, 0), count); element k is record count - length + k; empty when count <= 0 or n <= 0 |
| Journal.ReadHistoryAsWritten | core/ultrastable_integration.go:443-516 | the source's window, still a contiguous run of records ending at count - 1 |
| Journal.AsWrittenWindowWraps | core/ultrastable_integration.go:448 | on a one-record journal, a request for math.MinInt64 entries returns one record as written and none as corrected |
| Journal.HistoryExtends | core/ultrastable_integration.go:439-516 | if a journal gains one record at its end, every window of n records is the window of n - 1 before, followed by the new record |
| Journal.HistoryAfterAppend | core/ultrastable_integration.go:304-516 | after an append, reading n >= 1 records gives the last n - 1 records from before, then the stored decision |
| SupplyAdjustment.Move | core/ultrastable_integration.go:221-285 | an expansion takes the value tokens from the treasury and adds the amount to the supply word; a contraction does the reverse; no other account or slot changes |
| SupplyAdjustment.Proceeds | core/ultrastable_integration.go:189-218 | the adjustment passes both early returns: it is not None and the verdict, given the treasury balance and the stored minimum supply, approves it; it has no contract of its own: `SupplyAdjustment.Apply` states that without it nothing changes and nil is returned |
| SupplyAdjustment.Approved | core/ultrastable_integration.go:220-288 | balances are those of the move; slots outside the journal are those of the move; every slot other than the supply, the counter and the six fields of record c is as before; the counter goes to c + 1; record c is the decision; every other record is unchanged |
| SupplyAdjustment.Apply | core/ultrastable_integration.go:185-294 | None or a rejection gives nil and no change; an overflowing value-token count (on either branch) gives the overflow error and no change; otherwise nil and the approved state |
| SupplyAdjustment.ApprovedSupplyIsMoved | core/ultrastable_integration.go:237-288 | the history append does not touch the supply and minimum-supply slots or any balance |
| SupplyAdjustment.ExpansionExact | core/ultrastable_integration.go:221-247 | an approved expansion the treasury can pay for, whose supply stays within a word, lowers the treasury by exactly the value tokens and raises the supply by exactly the amount |
| SupplyAdjustment.ContractionExact | core/ultrastable_integration.go:253-279 | an approved contraction that the supply covers raises the treasury by exactly the value tokens and lowers the supply by exactly the amount; the floor slot is unchanged and is still met if the result is above it |
| SupplyAdjustment.ContractionPastZeroStoresMagnitude | core/ultrastable_integration.go:275-279 | with no guard in the code, an approved contraction of 5 tokens on a supply of 2 stores 3 tokens, the magnitude of the negative result |
| SupplyAdjustment.ApplyExtendsHistory | core/ultrastable_integration.go:287-288 | an applied adjustment extends every history window by its record; a skipped or failed one leaves every window as it was |
| SupplyAdjustment.RecordKeepsDecision | core/ultrastable_integration.go:320-358 | the record written holds the decision's type and NewSupply verbatim, not the recomputed supply |
| UltraStable.ValueTokenPrice | core/ultrastable_integration.go:130-137 | the price passed on is never zero: it is the stored price, or 1e18 when the stored word is 0 |
| UltraStable.Volatility | core/ultrastable_integration.go:139-143 | the volatility is the low byte of the stored word (a stored 300 reads as 44), so a stored value below 256 passes through unchanged |
| UltraStable.UpdatedStorage | core/ultrastable_integration.go:152-170 | the storage with target value, current value and update time written as words; it has no contract of its own: `UltraStable.Manager.ProcessUpdate` and `UltraStable.Manager.CheckForUpdates` state that the update leaves the ledger's storage in this state |
| UltraStable.CalculatedAdjustment | core/ultrastable_integration.go:124-147 | the calculator's result on the stored supply, `UltraStable.ValueTokenPrice` of the stored price and `UltraStable.Volatility` of the stored volatility; it has no contract of its own: `UltraStable.Manager.ProcessUpdate` states that it is what is sent, and `UltraStableGenesis.GenesisFeedsFirstUpdate` what it receives after genesis |
| UltraStable.Manager.constructor | core/ultrastable_integration.go:47-57 | a new manager has the zero time as its last update |
| UltraStable.Manager.CheckForUpdates | core/ultrastable_integration.go:96-113 | the update runs, and its adjustment is sent, exactly when the proprietary update time is strictly after the last processed one; otherwise nothing is sent and nothing changes |
| UltraStable.Manager.ProcessUpdate | core/ultrastable_integration.go:115-182 | the adjustment sent is the calculator's result on the stored supply, the defaulted price and the volatility byte; target value, current value and update time are stored; no balance changes |
| UltraStable.Manager.ApplySupplyAdjustment | core/ultrastable_integration.go:184-294 | the returned error and the new ledger state are exactly those of `SupplyAdjustment.Apply` on the old state |
| UltraStable.Manager.UpdateAdjustmentHistory | core/ultrastable_integration.go:296-367 | the storage becomes `Journal.AppendRecord` of the old storage; no balance changes |
| UltraStable.Manager.WriteRecord | core/ultrastable_integration.go:318-363 | the six field slots of record `count` receive the type code, the four quantities as words and the whole seconds, exactly as `Journal.WriteFields` writes them; no balance changes |
| UltraStable.Manager.GetAdjustmentHistory | core/ultrastable_integration.go:431-517 | the loop returns exactly `Journal.ReadHistory` of the current storage, the trailing window, oldest first |
| UltraStableGenesis.Genesis | core/genesis_ultrastable.go:23-145 | an initial supply that needs more than 256 bits aborts before any write; every slot still holds a word afterwards |
| UltraStableGenesis.SetupUltraStableToken | core/genesis_ultrastable.go:23-148 | the ledger ends in the `Genesis` state of the old state |
| UltraStableGenesis.GenesisAllocates | core/genesis_ultrastable.go:33-145 | for a non-negative supply that does not wrap the treasury's balance, the treasury gains exactly the initial supply on top of what it held and nobody else changes; initial and current supply hold it; minimum supply and the three value slots are 1e18; the treasury address is stored; the market volatility is seeded with 25; the supply meets the floor exactly when it is at least one token |
| UltraStableGenesis.GenesisHistoryEmpty | core/genesis_ultrastable.go:111-115 | the history counter is 0 and every history query is empty |
| UltraStableGenesis.GenesisFeedsFirstUpdate | core/genesis_ultrastable.go:62-109 | the first update passes the calculator the initial supply, the price already stored or the default, and the seeded volatility 25 |
| UltraStableGenesis.FirstAdjustmentIsRecordZero | core/genesis_ultrastable.go:111-115 | the first adjustment applied after genesis is the only record in every window of at least one record |
| O2ULToken.AllocationSplit | core/genesis/o2ul_token.go:20-38 | founder plus reserve is the maximum supply, split exactly 60/40; all three fit a uint256, so the discarded overflow flags are never set |
| O2ULToken.O2ULGenesis | core/genesis/o2ul_token.go:31-65 | the state after the two credits and the four parameter writes keeps every slot and balance a word |
| O2ULToken.SetupO2ULToken | core/genesis/o2ul_token.go:31-77 | the ledger ends in the `O2ULGenesis` state of the old state |
| O2ULToken.O2ULGenesisAllocates | core/genesis/o2ul_token.go:43-65 | when no credit wraps a balance, distinct founder and reserve gain exactly 60% and 40% on top of what they held (the whole supply together); one account named as both gains the whole supply; nobody else gains; the supply and decimals slots hold 21e24 and 18 |
| Version.VersionBase | internal/version/o2ul_version.go:41-47 | the `Sprintf` "v%04d.%02d.%02d.%02d%02d-%s" of the clock fields and the phase; `Version.VersionFieldsReadBack` gives its layout and shows every field parses back |
| Version.FormatVersion | internal/version/o2ul_version.go:38-56 | the base string is always a prefix; the result is exactly the base when the commit is shorter than 8; otherwise " [" + the commit's first 8 characters + "]" follows it |
| Version.CustomVersionWithCommit | internal/version/o2ul_version.go:31-36 | for a clock with a four-digit year, the phase field after the '-' is "alpha" |
| Version.VersionFieldsReadBack | internal/version/o2ul_version.go:41-47 | for year 0..9999 and the other fields 0..99, the base is 17 characters plus the phase, the separators sit at fixed offsets and every field parses back to its number |
| Version.PhaseField | internal/version/o2ul_version.go:41-53 | the phase follows the '-' at offset 16, with or without a commit suffix |
| Version.FormatVersionCommitTag | internal/version/o2ul_version.go:49-53 | at the same clock and phase, two commits give the same version exactly when both are too short or both share their first 8 characters |

## Left out

- The proprietary module is not part of this model. `CalculateSupplyAdjustment`
  and `IsAdjustmentPossible` become function parameters. `GetLastUpdateTime`,
  `GetTargetStableValue`, `GetCurrentStableValue` and `GetStableConfig` become
  value parameters. `Start`, `Stop`, `QueryAIOracle` and
  `GetVolatilityReduction` (a float) are proprietary calls and are left out.
  `UpdateMarketValue` is left out too: it is a proprietary call plus one write
  of `ultrastable_current_value`. `ForceUpdate` is `QueryAIOracle` followed by
  the modelled `ProcessUpdate`, and is left out for the oracle query.
- Concurrency and timers are left out: the `updateWorker` goroutine, the ticker,
  the `quit` channel, the read-write mutex, the event feeds and the `Subscribe*`
  functions. The adjustment `ProcessUpdate` sends on its feed is returned
  instead.
- Clock reads are parameters and logging is omitted. `time.Now()` in
  `ProcessUpdate`, the genesis and `CustomVersionWithCommit` becomes a
  parameter. `init` and its write of the global version string are left out.
- `UltraStable.Manager.CheckForUpdates` compares wall-clock seconds and
  nanoseconds only (`Seigniorage.After`). Go's `Time.After` compares
  monotonic clock readings when both times carry one, and `lastUpdateTime` is
  set from `time.Now()`, which does. The monotonic reading is not modelled.
- Breaking `time.Time` into calendar fields is not modelled. `FormatVersion`
  takes the year, month, day, hour and minute as integers.
- Slot names are not hashed. Storage is keyed by the human-readable name, while
  the real slot is `common.HexToHash(name)`. The UltraStable and O2UL system
  accounts share one name space in the model, since no name is used under
  both. `HexToHash` decodes the name as
  hex and keeps only the bytes decoded before the first non-hex character
  (after a '0' is prepended to an odd-length name). The names therefore
  collide on a handful of real slots:
  - every `ultrastable_*` name, `market_volatility`, `treasury_address`,
    `value_token_price` and every `o2ul_*` name lands on the zero slot of its
    account;
  - every `adjustment_*` name, the counter included, lands on 0xad
    (even-length names) or 0x0a (odd-length names).

  Every "no other slot changes" and round-trip statement here holds at the
  level of names only, and says nothing about the real slots.
- Snapshots and commits are not modelled. `blockchain.State()` is fetched
  separately in each function, and whether the writes are committed cannot be
  seen. One shared ledger stands for all of them. The early returns taken when
  fetching the state fails are left out.
- The weight, timeframe and smoothing-window loops of the UltraStable genesis
  are left out (core/genesis_ultrastable.go:117-139). They iterate over
  proprietary configuration maps in an unspecified order.
- `UltraStableGenesis.Genesis`: the write to
  `ultrastable_update_frequency` takes the configuration's frequency after its
  `int64` conversion. The configuration's own type is not known.
- Strings have one character per byte, as the slot names, token texts and git
  commits are ASCII.
- `UltraStable.Manager.GetAdjustmentHistory` computes the window start without
  the int64 wrap-around that the source has (see Findings). It is proved
  against the corrected `Journal.ReadHistory`.

## Findings

| source | as written | input that shows it | evidently intended | confidence | as-written member | corrected member |
|---|---|---|---|---|---|---|
| core/ultrastable_integration.go:448 | the window start `count - int64(maxEntries)` is an int64 subtraction, which wraps for a request near the most negative int | a journal with one record and `GetAdjustmentHistory(math.MinInt64)`: the start wraps to -2^63 + 1, is clamped to 0, and record 0 is returned | a request for zero or fewer entries returns no records | low; not executed | Journal.WindowStartAsWritten | Journal.WindowStart |
