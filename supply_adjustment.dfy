/** What `ApplySupplyAdjustment` does to the ledger, as a function of the state
    before the call.  The feasibility check of the proprietary module is an
    uninterpreted verdict passed in. */
module SupplyAdjustment {
  import opened Words
  import opened Seigniorage
  import opened StateDb
  import opened Journal
  import Slots

  /** `IsAdjustmentPossible(adjustment, treasuryBalance, minSupply)`; the
      reason string it also returns is only logged. */
  type Verdict = (Adjustment, nat, nat) -> bool

  /** The `error` result: nil, or the one error this path raises. */
  datatype Status = Ok | Err(message: string)

  const OverflowMessage := "value token amount overflow"

  datatype Applied = Applied(status: Status, after: LedgerState)

  function Supply(s: LedgerState): nat
  {
    Get(s.storage, Slots.CurrentSupply)
  }

  function MinSupply(s: LedgerState): nat
  {
    Get(s.storage, Slots.MinimumSupply)
  }

  /** The adjustment gets past both early returns: it is not None and the
      verdict, asked with the treasury balance and the stored minimum supply,
      approves it. */
  predicate Proceeds(s: LedgerState, adj: Adjustment, treasury: Address, isPossible: Verdict)
  {
    adj.kind != None && isPossible(adj, Get(s.balance, treasury), MinSupply(s))
  }

  /** The value-token count does not fit a uint256. */
  predicate Overflows(valueTokens: int)
  {
    FromBig(valueTokens).overflow
  }

  /** The balance and supply moves of an approved adjustment: an expansion
      burns the value tokens from the treasury and adds the amount to the
      supply, a contraction mints them to the treasury and subtracts it. */
  function Move(s: LedgerState, adj: Adjustment, treasury: Address): (r: LedgerState)
    requires adj.kind != None && !Overflows(adj.valueTokens)
    ensures adj.kind == Expansion ==>
      && Get(r.balance, treasury) == (Get(s.balance, treasury) - FromBig(adj.valueTokens).value) % U256
      && Supply(r) == ToWord(Supply(s) + adj.amount)
    ensures adj.kind == Contraction ==>
      && Get(r.balance, treasury) == (Get(s.balance, treasury) + FromBig(adj.valueTokens).value) % U256
      && Supply(r) == ToWord(Supply(s) - adj.amount)
    ensures forall a :: a != treasury ==> Get(r.balance, a) == Get(s.balance, a)
    ensures forall key {:trigger Get(r.storage, key)} :: key != Slots.CurrentSupply ==> Get(r.storage, key) == Get(s.storage, key)
    ensures WellFormed(s) ==> WellFormed(r)
  {
    var v := FromBig(adj.valueTokens).value;
    if adj.kind == Expansion then
      LedgerState(s.storage[Slots.CurrentSupply := ToWord(Supply(s) + adj.amount)], Debit(s.balance, treasury, v))
    else
      LedgerState(s.storage[Slots.CurrentSupply := ToWord(Supply(s) - adj.amount)], Credit(s.balance, treasury, v))
  }

  /** The state an approved adjustment leaves: the moves, then the journal
      record. */
  function Approved(s: LedgerState, adj: Adjustment, treasury: Address): (r: LedgerState)
    requires adj.kind != None && !Overflows(adj.valueTokens)
    ensures r.balance == Move(s, adj, treasury).balance
    ensures forall key {:trigger Get(r.storage, key)} :: !IsJournalSlot(key) ==>
      Get(r.storage, key) == Get(Move(s, adj, treasury).storage, key)
    ensures forall key {:trigger Get(r.storage, key)} ::
      key != Slots.CurrentSupply && key !in AppendedSlots(HistoryCountOf(s.storage)) ==>
      Get(r.storage, key) == Get(s.storage, key)
    ensures var c := HistoryCountOf(s.storage);
      && HistoryCountOf(r.storage) == ToWord(c + 1)
      && ReadRecord(r.storage, c) == StoredRecord(adj)
      && (forall i: nat :: i != c ==> ReadRecord(r.storage, i) == ReadRecord(s.storage, i))
    ensures WellFormed(s) ==> WellFormed(r)
  {
    var moved := Move(s, adj, treasury);
    MoveKeepsJournal(s, adj, treasury);
    AppendedAreJournal(HistoryCountOf(s.storage));
    AppendThenRead(moved.storage, adj);
    AppendKeepsAllOtherRecords(moved.storage, adj);
    moved.(storage := AppendRecord(moved.storage, adj))
  }

  /** The moves write only the supply slot, which is outside the journal:
      the counter and every record are as they were. */
  lemma MoveKeepsJournal(s: LedgerState, adj: Adjustment, treasury: Address)
    requires adj.kind != None && !Overflows(adj.valueTokens)
    ensures var moved := Move(s, adj, treasury);
      && HistoryCountOf(moved.storage) == HistoryCountOf(s.storage)
      && forall i: nat :: ReadRecord(moved.storage, i) == ReadRecord(s.storage, i)
  {
    var moved := Move(s, adj, treasury);
    OutsideJournal(Slots.CurrentSupply);
    forall i: nat ensures ReadRecord(moved.storage, i) == ReadRecord(s.storage, i) {
      RecordSlotIsJournalSlot(i, "type");
      RecordSlotIsJournalSlot(i, "amount");
      RecordSlotIsJournalSlot(i, "value_tokens");
      RecordSlotIsJournalSlot(i, "deviation");
      RecordSlotIsJournalSlot(i, "new_supply");
      RecordSlotIsJournalSlot(i, "timestamp");
    }
  }

  /** `ApplySupplyAdjustment(adj, treasury)` on state s: the error it returns
      and the state it leaves. */
  function Apply(s: LedgerState, adj: Adjustment, treasury: Address, isPossible: Verdict): (r: Applied)
    // None, or a rejected verdict: nil, and nothing changes
    ensures !Proceeds(s, adj, treasury, isPossible) ==> r == Applied(Ok, s)
    // a value-token count needing more than 256 bits: an error, and nothing changes
    ensures r.status.Err? <==> Proceeds(s, adj, treasury, isPossible) && Overflows(adj.valueTokens)
    ensures r.status.Err? ==> r.status.message == OverflowMessage && r.after == s
    // otherwise: the treasury and the supply move, and one record is appended
    ensures r.status == Ok && Proceeds(s, adj, treasury, isPossible) ==> r.after == Approved(s, adj, treasury)
    ensures WellFormed(s) ==> WellFormed(r.after)
  {
    if !Proceeds(s, adj, treasury, isPossible) then Applied(Ok, s)
    else if Overflows(adj.valueTokens) then Applied(Err(OverflowMessage), s)
    else Applied(Ok, Approved(s, adj, treasury))
  }

  /** The journal record does not touch the supply slots: an approved
      adjustment leaves them, and the balances, as the moves set them. */
  lemma ApprovedSupplyIsMoved(s: LedgerState, adj: Adjustment, treasury: Address)
    requires adj.kind != None && !Overflows(adj.valueTokens)
    ensures var r, m := Approved(s, adj, treasury), Move(s, adj, treasury);
      Supply(r) == Supply(m) && MinSupply(r) == MinSupply(m) && r.balance == m.balance
  {
    OutsideJournal(Slots.CurrentSupply);
    OutsideJournal(Slots.MinimumSupply);
  }

  /** The arithmetic of an approved expansion, on the moved state, before the journal record. */
  lemma ExpansionMoves(s: LedgerState, adj: Adjustment, treasury: Address)
    requires WellFormed(s)
    requires adj.kind == Expansion
    requires 0 <= adj.valueTokens <= Get(s.balance, treasury)
    requires 0 <= adj.amount && Supply(s) + adj.amount < U256
    ensures var r := Move(s, adj, treasury);
      && Get(r.balance, treasury) == Get(s.balance, treasury) - adj.valueTokens
      && Supply(r) == Supply(s) + adj.amount
  {
    var m := Move(s, adj, treasury);
    var b := Get(s.balance, treasury);
    assert Supply(m) == ToWord(Supply(s) + adj.amount);
    assert FromBig(adj.valueTokens).value == adj.valueTokens;
    assert b < U256;
    assert Get(m.balance, treasury) == (b - adj.valueTokens) % U256;
  }

  /** An approved expansion the treasury can pay for, whose new supply fits a
      word: the treasury loses exactly the value tokens and the supply grows
      by exactly the amount.  The solvency bound is what the verdict has to
      guarantee; the code does not check it. */
  lemma ExpansionExact(s: LedgerState, adj: Adjustment, treasury: Address, isPossible: Verdict)
    requires WellFormed(s)
    requires adj.kind == Expansion && isPossible(adj, Get(s.balance, treasury), MinSupply(s))
    requires 0 <= adj.valueTokens <= Get(s.balance, treasury)
    requires 0 <= adj.amount && Supply(s) + adj.amount < U256
    ensures var r := Apply(s, adj, treasury, isPossible);
      && r.status == Ok
      && Get(r.after.balance, treasury) == Get(s.balance, treasury) - adj.valueTokens
      && Supply(r.after) == Supply(s) + adj.amount
  {
    assert !Overflows(adj.valueTokens);
    assert Apply(s, adj, treasury, isPossible) == Applied(Ok, Approved(s, adj, treasury));
    ApprovedSupplyIsMoved(s, adj, treasury);
    ExpansionMoves(s, adj, treasury);
  }

  /** The arithmetic of an approved contraction, on the moved state, before the journal record. */
  lemma ContractionMoves(s: LedgerState, adj: Adjustment, treasury: Address)
    requires WellFormed(s)
    requires adj.kind == Contraction
    requires 0 <= adj.valueTokens && Get(s.balance, treasury) + adj.valueTokens < U256
    requires 0 <= adj.amount <= Supply(s)
    ensures var r := Move(s, adj, treasury);
      && Get(r.balance, treasury) == Get(s.balance, treasury) + adj.valueTokens
      && Supply(r) == Supply(s) - adj.amount
      && MinSupply(r) == MinSupply(s)
  {
    var m := Move(s, adj, treasury);
    var b := Get(s.balance, treasury);
    assert Supply(m) == ToWord(Supply(s) - adj.amount);
    assert MinSupply(m) == MinSupply(s);
    assert FromBig(adj.valueTokens).value == adj.valueTokens;
    assert Get(m.balance, treasury) == (b + adj.valueTokens) % U256;
  }

  /** An approved contraction whose amount the supply covers and whose minted
      value tokens fit the treasury's uint256 balance: the treasury gains
      exactly the value tokens and the supply shrinks by exactly the amount;
      when the verdict also keeps the result at or above the stored minimum,
      so does the new state. */
  lemma ContractionExact(s: LedgerState, adj: Adjustment, treasury: Address, isPossible: Verdict)
    requires WellFormed(s)
    requires adj.kind == Contraction && isPossible(adj, Get(s.balance, treasury), MinSupply(s))
    requires 0 <= adj.valueTokens && Get(s.balance, treasury) + adj.valueTokens < U256
    requires 0 <= adj.amount <= Supply(s)
    ensures var r := Apply(s, adj, treasury, isPossible);
      && r.status == Ok
      && Get(r.after.balance, treasury) == Get(s.balance, treasury) + adj.valueTokens
      && Supply(r.after) == Supply(s) - adj.amount
      && MinSupply(r.after) == MinSupply(s)
      && (Supply(s) - adj.amount >= MinSupply(s) ==> Supply(r.after) >= MinSupply(r.after))
  {
    assert Get(s.balance, treasury) < U256 && 0 <= adj.valueTokens < U256;
    assert !Overflows(adj.valueTokens);
    assert Apply(s, adj, treasury, isPossible) == Applied(Ok, Approved(s, adj, treasury));
    ApprovedSupplyIsMoved(s, adj, treasury);
    ContractionMoves(s, adj, treasury);
  }

  /** The code has no floor or zero check of its own: should the verdict
      approve a contraction of 5 tokens on a supply of 2, the supply slot ends
      up holding 3 tokens, the magnitude of the negative result. */
  lemma ContractionPastZeroStoresMagnitude(s: LedgerState, adj: Adjustment, treasury: Address, isPossible: Verdict)
    requires Supply(s) == 2 * 1_000_000_000_000_000_000 && MinSupply(s) == 1_000_000_000_000_000_000
    requires adj.kind == Contraction && adj.amount == 5 * 1_000_000_000_000_000_000 && 0 <= adj.valueTokens < U256
    requires isPossible(adj, Get(s.balance, treasury), MinSupply(s))
    ensures Supply(Apply(s, adj, treasury, isPossible).after) == 3 * 1_000_000_000_000_000_000
  {
    var r := Apply(s, adj, treasury, isPossible);
    assert r.after == Approved(s, adj, treasury);
    ApprovedSupplyIsMoved(s, adj, treasury);
    assert Supply(r.after) == Supply(Move(s, adj, treasury)) == ToWord(Supply(s) - adj.amount);
  }

  /** An applied adjustment extends every history window by its record; a
      rejected or failed one leaves every window as it was. */
  lemma ApplyExtendsHistory(s: LedgerState, adj: Adjustment, treasury: Address, isPossible: Verdict, n: Int64)
    requires HistoryCountOf(s.storage) < I64Bound - 1
    ensures var r := Apply(s, adj, treasury, isPossible);
      if r.status == Ok && Proceeds(s, adj, treasury, isPossible) then
        n >= 1 ==> ReadHistory(r.after.storage, n) == ReadHistory(s.storage, n - 1) + [StoredRecord(adj)]
      else
        ReadHistory(r.after.storage, n) == ReadHistory(s.storage, n)
  {
    var r := Apply(s, adj, treasury, isPossible);
    if r.status == Ok && Proceeds(s, adj, treasury, isPossible) && n >= 1 {
      var c := HistoryCountOf(s.storage);
      assert r.after == Approved(s, adj, treasury);
      assert ReadCount(r.after.storage) == c + 1;
      HistoryExtends(s.storage, r.after.storage, StoredRecord(adj), n);
    }
  }

  /** The journal records the decision, not the ledger: the stored type and
      new supply are those of the adjustment, whatever supply the move
      actually produced. */
  lemma RecordKeepsDecision(s: LedgerState, adj: Adjustment, treasury: Address, isPossible: Verdict)
    requires 0 <= adj.newSupply < U256
    ensures var r := Apply(s, adj, treasury, isPossible);
      var rec := ReadRecord(r.after.storage, HistoryCountOf(s.storage));
      r.status == Ok && Proceeds(s, adj, treasury, isPossible) ==>
        rec.kind == adj.kind && rec.newSupply == adj.newSupply
  {
    var r := Apply(s, adj, treasury, isPossible);
    if r.status == Ok && Proceeds(s, adj, treasury, isPossible) {
      assert r.after == Approved(s, adj, treasury);
      assert ReadRecord(r.after.storage, HistoryCountOf(s.storage)) == StoredRecord(adj);
    }
  }
}
