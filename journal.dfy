/** The adjustment-history journal: a counter slot and, for record i, six slots
    named "adjustment_<i>_<field>".  `AppendRecord` is what
    `updateAdjustmentHistory` writes, `ReadRecord` and `ReadHistory` what
    `GetAdjustmentHistory` reads back. */
module Journal {
  import opened Words
  import opened Decimal
  import opened Seigniorage
  import opened StateDb
  import Slots

  const RecordPrefix := "adjustment_"

  /** The slot holding `field` of record i. */
  function RecordSlot(i: nat, field: string): string
  {
    RecordPrefix + Digits(i) + "_" + field
  }

  /** Slots whose names start with "adjustment_": the journal's, counter included. */
  predicate IsJournalSlot(key: string)
  {
    |key| >= |RecordPrefix| && key[..|RecordPrefix|] == RecordPrefix
  }

  /** Two names "<digits>_<rest>" are equal only if digits and rest are. */
  lemma {:induction false} SplitAtSeparator(a: string, b: string, f: string, g: string)
    requires AllDigits(a) && AllDigits(b)
    requires a + "_" + f == b + "_" + g
    ensures a == b && f == g
  {
    var x, y := a + "_" + f, b + "_" + g;
    assert x[|a|] == '_' && y[|b|] == '_';
    assert forall j :: 0 <= j < |a| ==> x[j] == a[j];
    assert forall j :: 0 <= j < |b| ==> y[j] == b[j];
    assert |a| == |b|;
    assert a == x[..|a|] == b;
    assert f == x[|a| + 1..] == g;
  }

  /** A slot whose name does not start with 'a' is outside the journal. */
  lemma OutsideJournal(key: string)
    requires |key| >= 1 && key[0] != 'a'
    ensures !IsJournalSlot(key)
  {
    if |key| >= |RecordPrefix| {
      assert key[..|RecordPrefix|][0] == key[0];
    }
  }

  /** Record slots are journal slots, and none of them is the counter. */
  lemma RecordSlotIsJournalSlot(i: nat, field: string)
    ensures IsJournalSlot(RecordSlot(i, field))
    ensures RecordSlot(i, field) != Slots.HistoryCount
  {
    var key := RecordSlot(i, field);
    assert key[..|RecordPrefix|] == RecordPrefix;
    assert key[|RecordPrefix|] == Digits(i)[0];
    assert Slots.HistoryCount[|RecordPrefix|] == 'h';
  }

  /** Distinct (record, field) pairs name distinct slots. */
  lemma RecordSlotInjective(i: nat, j: nat, f: string, g: string)
    ensures RecordSlot(i, f) == RecordSlot(j, g) ==> i == j && f == g
  {
    if RecordSlot(i, f) == RecordSlot(j, g) {
      var n := |RecordPrefix|;
      assert RecordSlot(i, f)[n..] == Digits(i) + "_" + f;
      assert RecordSlot(j, g)[n..] == Digits(j) + "_" + g;
      SplitAtSeparator(Digits(i), Digits(j), f, g);
      DigitsInjective(i, j);
    }
  }

  /** The type code written to "adjustment_<i>_type". */
  function TypeCode(k: AdjustmentType): (c: nat)
    ensures k == Expansion ==> c == 1
    ensures k == Contraction ==> c == 2
    ensures k == None ==> c == 0
  {
    match k
    case Expansion => 1
    case Contraction => 2
    case None => 0
  }

  /** The type read back from a type code: 1 and 2 name the two adjustments,
      every other value means none. */
  function DecodeType(c: int): (k: AdjustmentType)
    ensures k == Expansion <==> c == 1
    ensures k == Contraction <==> c == 2
  {
    if c == 1 then Expansion else if c == 2 then Contraction else None
  }

  lemma TypeCodeRoundTrip(k: AdjustmentType)
    ensures DecodeType(Int64Of(TypeCode(k))) == k
  {
  }

  function HistoryCountOf(storage: map<string, nat>): nat
  {
    Get(storage, Slots.HistoryCount)
  }

  /** The slots an append under count c writes: the counter and the six
      fields of record c. */
  function AppendedSlots(c: nat): set<string>
  {
    {Slots.HistoryCount, RecordSlot(c, "type"), RecordSlot(c, "amount"), RecordSlot(c, "value_tokens"),
     RecordSlot(c, "deviation"), RecordSlot(c, "new_supply"), RecordSlot(c, "timestamp")}
  }

  /** The field writes do not touch the counter. */
  lemma WriteFieldsKeepCounter(storage: map<string, nat>, c: nat, adj: Adjustment)
    ensures HistoryCountOf(WriteFields(storage, c, adj)) == HistoryCountOf(storage)
  {
    RecordSlotIsJournalSlot(c, "type");
    RecordSlotIsJournalSlot(c, "amount");
    RecordSlotIsJournalSlot(c, "value_tokens");
    RecordSlotIsJournalSlot(c, "deviation");
    RecordSlotIsJournalSlot(c, "new_supply");
    RecordSlotIsJournalSlot(c, "timestamp");
  }

  /** Every slot an append writes is a journal slot, so an append leaves
      every slot outside the journal as it was. */
  lemma AppendedAreJournal(c: nat)
    ensures forall key :: key in AppendedSlots(c) ==> IsJournalSlot(key)
  {
    RecordSlotIsJournalSlot(c, "type");
    RecordSlotIsJournalSlot(c, "amount");
    RecordSlotIsJournalSlot(c, "value_tokens");
    RecordSlotIsJournalSlot(c, "deviation");
    RecordSlotIsJournalSlot(c, "new_supply");
    RecordSlotIsJournalSlot(c, "timestamp");
    assert Slots.HistoryCount[..|RecordPrefix|] == RecordPrefix;
  }

  /** The storage after `updateAdjustmentHistory(adj)`: the counter goes from c
      to c + 1 (as a 32-byte word) and the six fields are written under index c. */
  function AppendRecord(storage: map<string, nat>, adj: Adjustment): (r: map<string, nat>)
    ensures HistoryCountOf(r) == ToWord(HistoryCountOf(storage) + 1)
    ensures forall key {:trigger Get(r, key)} :: key !in AppendedSlots(HistoryCountOf(storage)) ==> Get(r, key) == Get(storage, key)
    ensures (forall k :: k in storage ==> storage[k] < U256) ==> (forall k :: k in r ==> r[k] < U256)
  {
    var c := HistoryCountOf(storage);
    WriteFieldsFrame(storage[Slots.HistoryCount := ToWord(c + 1)], c, adj);
    WriteFieldsKeepCounter(storage[Slots.HistoryCount := ToWord(c + 1)], c, adj);
    WriteFields(storage[Slots.HistoryCount := ToWord(c + 1)], c, adj)
  }

  /** The field writes of record c leave every slot outside `AppendedSlots(c)`
      as it was. */
  lemma WriteFieldsFrame(storage: map<string, nat>, c: nat, adj: Adjustment)
    ensures forall key {:trigger Get(WriteFields(storage, c, adj), key)} ::
      key !in AppendedSlots(c) ==> Get(WriteFields(storage, c, adj), key) == Get(storage, key)
  {
  }

  /** An append is the counter write followed by the field writes under the
      old count. */
  lemma AppendIsWrites(storage: map<string, nat>, adj: Adjustment)
    ensures var c := HistoryCountOf(storage);
      AppendRecord(storage, adj) == WriteFields(storage[Slots.HistoryCount := ToWord(c + 1)], c, adj)
  {
  }

  /** The six field writes of record c. */
  function WriteFields(storage: map<string, nat>, c: nat, adj: Adjustment): map<string, nat>
  {
    storage[RecordSlot(c, "type") := TypeCode(adj.kind)]
           [RecordSlot(c, "amount") := ToWord(adj.amount)]
           [RecordSlot(c, "value_tokens") := ToWord(adj.valueTokens)]
           [RecordSlot(c, "deviation") := ToWord(adj.deviationBps)]
           [RecordSlot(c, "new_supply") := ToWord(adj.newSupply)]
           [RecordSlot(c, "timestamp") := ToWord(adj.timestamp.unix)]
  }

  /** Record i as `GetAdjustmentHistory` rebuilds it from its six slots. */
  function ReadRecord(storage: map<string, nat>, i: nat): Adjustment
  {
    Adjustment(
      DecodeType(Int64Of(Get(storage, RecordSlot(i, "type")))),
      Get(storage, RecordSlot(i, "amount")),
      Get(storage, RecordSlot(i, "value_tokens")),
      Get(storage, RecordSlot(i, "deviation")),
      Get(storage, RecordSlot(i, "new_supply")),
      Time(Int64Of(Get(storage, RecordSlot(i, "timestamp"))), 0))
  }

  /** What an appended decision reads back as: each quantity as the 32-byte
      word it was stored in, the timestamp cut to whole seconds. */
  function StoredRecord(adj: Adjustment): Adjustment
  {
    Adjustment(adj.kind, ToWord(adj.amount), ToWord(adj.valueTokens), ToWord(adj.deviationBps),
      ToWord(adj.newSupply), Time(Int64Of(ToWord(adj.timestamp.unix)), 0))
  }

  /** The record appended under index c reads back as the stored decision. */
  lemma AppendThenRead(storage: map<string, nat>, adj: Adjustment)
    ensures ReadRecord(AppendRecord(storage, adj), HistoryCountOf(storage)) == StoredRecord(adj)
  {
    FieldSlotsDistinct(HistoryCountOf(storage));
  }

  /** The six field slots of one record are six different slots. */
  lemma FieldSlotsDistinct(c: nat)
    ensures RecordSlot(c, "type") != RecordSlot(c, "amount")
    ensures RecordSlot(c, "type") != RecordSlot(c, "value_tokens")
    ensures RecordSlot(c, "type") != RecordSlot(c, "deviation")
    ensures RecordSlot(c, "type") != RecordSlot(c, "new_supply")
    ensures RecordSlot(c, "type") != RecordSlot(c, "timestamp")
    ensures RecordSlot(c, "amount") != RecordSlot(c, "value_tokens")
    ensures RecordSlot(c, "amount") != RecordSlot(c, "deviation")
    ensures RecordSlot(c, "amount") != RecordSlot(c, "new_supply")
    ensures RecordSlot(c, "amount") != RecordSlot(c, "timestamp")
    ensures RecordSlot(c, "value_tokens") != RecordSlot(c, "deviation")
    ensures RecordSlot(c, "value_tokens") != RecordSlot(c, "new_supply")
    ensures RecordSlot(c, "value_tokens") != RecordSlot(c, "timestamp")
    ensures RecordSlot(c, "deviation") != RecordSlot(c, "new_supply")
    ensures RecordSlot(c, "deviation") != RecordSlot(c, "timestamp")
    ensures RecordSlot(c, "new_supply") != RecordSlot(c, "timestamp")
  {
    forall f: string, g: string | f != g ensures RecordSlot(c, f) != RecordSlot(c, g) {
      RecordSlotInjective(c, c, f, g);
    }
  }

  /** Appending leaves every slot of another record as it was. */
  lemma AppendKeepsSlot(storage: map<string, nat>, adj: Adjustment, i: nat, f: string)
    requires i != HistoryCountOf(storage)
    ensures Get(AppendRecord(storage, adj), RecordSlot(i, f)) == Get(storage, RecordSlot(i, f))
  {
    var c := HistoryCountOf(storage);
    RecordSlotIsJournalSlot(i, f);
    RecordSlotInjective(i, c, f, "type");
    RecordSlotInjective(i, c, f, "amount");
    RecordSlotInjective(i, c, f, "value_tokens");
    RecordSlotInjective(i, c, f, "deviation");
    RecordSlotInjective(i, c, f, "new_supply");
    RecordSlotInjective(i, c, f, "timestamp");
  }

  /** Appending touches no other record. */
  lemma AppendKeepsOtherRecords(storage: map<string, nat>, adj: Adjustment, i: nat)
    requires i != HistoryCountOf(storage)
    ensures ReadRecord(AppendRecord(storage, adj), i) == ReadRecord(storage, i)
  {
    AppendKeepsSlot(storage, adj, i, "type");
    AppendKeepsSlot(storage, adj, i, "amount");
    AppendKeepsSlot(storage, adj, i, "value_tokens");
    AppendKeepsSlot(storage, adj, i, "deviation");
    AppendKeepsSlot(storage, adj, i, "new_supply");
    AppendKeepsSlot(storage, adj, i, "timestamp");
  }

  /** Appending touches no record other than the new one. */
  lemma AppendKeepsAllOtherRecords(storage: map<string, nat>, adj: Adjustment)
    ensures forall i: nat :: i != HistoryCountOf(storage) ==>
      ReadRecord(AppendRecord(storage, adj), i) == ReadRecord(storage, i)
  {
    forall i: nat | i != HistoryCountOf(storage)
      ensures ReadRecord(AppendRecord(storage, adj), i) == ReadRecord(storage, i)
    {
      AppendKeepsOtherRecords(storage, adj, i);
    }
  }

  /** For non-negative quantities below 2^256 and a timestamp within int64,
      the record reads back with the same type, amount, value tokens, new
      supply and whole seconds; the deviation reads back as its magnitude. */
  lemma AppendRoundTrip(storage: map<string, nat>, adj: Adjustment)
    requires 0 <= adj.amount < U256 && 0 <= adj.valueTokens < U256 && 0 <= adj.newSupply < U256
    requires 0 <= adj.timestamp.unix < I64Bound
    ensures var r := ReadRecord(AppendRecord(storage, adj), HistoryCountOf(storage));
      && r.kind == adj.kind && r.amount == adj.amount && r.valueTokens == adj.valueTokens
      && r.newSupply == adj.newSupply && r.timestamp == Time(adj.timestamp.unix, 0)
      && r.deviationBps == ToWord(adj.deviationBps)
      && (0 <= adj.deviationBps < U256 ==> r.deviationBps == adj.deviationBps)
  {
    AppendThenRead(storage, adj);
  }

  /** The first index `GetAdjustmentHistory` fetches, computed without
      wrap-around: the window is the last maxEntries records. */
  function WindowStart(count: Int64, maxEntries: Int64): (start: nat)
    ensures start >= count - maxEntries && start >= 0
    ensures start == count - maxEntries || start == 0
  {
    if count - maxEntries < 0 then 0 else count - maxEntries
  }

  /** The first index as the source computes it: `count - int64(maxEntries)`
      is an int64 subtraction and wraps around. */
  function WindowStartAsWritten(count: Int64, maxEntries: Int64): (start: nat)
    ensures -I64Bound <= count - maxEntries < I64Bound ==> start == WindowStart(count, maxEntries)
  {
    var s := Wrap64(count - maxEntries);
    if s < 0 then 0 else s
  }

  /** The records at indices start .. count - 1, in index order. */
  function ReadFrom(storage: map<string, nat>, start: nat, count: int): (r: seq<Adjustment>)
    ensures |r| == if start < count then count - start else 0
    ensures forall k :: 0 <= k < |r| ==> r[k] == ReadRecord(storage, start + k)
  {
    if start < count then seq(count - start, k requires 0 <= k < count - start => ReadRecord(storage, start + k))
    else []
  }

  /** The counter as `GetAdjustmentHistory` reads it (`Int64()` of the word). */
  function ReadCount(storage: map<string, nat>): Int64
  {
    Int64Of(HistoryCountOf(storage))
  }

  /** `GetAdjustmentHistory(maxEntries)`: the trailing window of at most
      maxEntries records, oldest first. */
  function ReadHistory(storage: map<string, nat>, maxEntries: Int64): (r: seq<Adjustment>)
    ensures var count := ReadCount(storage);
      count >= 0 ==> |r| == (if maxEntries <= 0 then 0 else if maxEntries < count then maxEntries else count)
    ensures forall k :: 0 <= k < |r| ==> ReadCount(storage) - |r| + k >= 0 && r[k] == ReadRecord(storage, ReadCount(storage) - |r| + k)
    ensures ReadCount(storage) <= 0 || maxEntries <= 0 ==> r == []
  {
    var count := ReadCount(storage);
    ReadFrom(storage, WindowStart(count, maxEntries), count)
  }

  /** The same, with the window start as the source computes it. */
  function ReadHistoryAsWritten(storage: map<string, nat>, maxEntries: Int64): (r: seq<Adjustment>)
    ensures forall k :: 0 <= k < |r| ==> ReadCount(storage) - |r| + k >= 0 && r[k] == ReadRecord(storage, ReadCount(storage) - |r| + k)
  {
    var count := ReadCount(storage);
    ReadFrom(storage, WindowStartAsWritten(count, maxEntries), count)
  }

  /** The as-written window start wraps for a request near the most negative
      int64: on a one-record journal, `GetAdjustmentHistory(math.MinInt64)`
      returns that record, although no record was asked for. */
  lemma AsWrittenWindowWraps(storage: map<string, nat>)
    requires HistoryCountOf(storage) == 1
    ensures |ReadHistoryAsWritten(storage, -I64Bound)| == 1
    ensures ReadHistory(storage, -I64Bound) == []
  {
    assert ReadCount(storage) == 1;
    assert Wrap64(1 + I64Bound) == 1 - I64Bound;
  }

  /** A journal that gained one record at its end: every window of n
      records is the window of n - 1 records before, then the new record. */
  lemma HistoryExtends(before: map<string, nat>, after: map<string, nat>, rec: Adjustment, n: Int64)
    requires 0 <= ReadCount(before) && ReadCount(after) == ReadCount(before) + 1
    requires forall i: nat :: i < ReadCount(before) ==> ReadRecord(after, i) == ReadRecord(before, i)
    requires ReadRecord(after, ReadCount(before)) == rec
    requires n >= 1
    ensures ReadHistory(after, n) == ReadHistory(before, n - 1) + [rec]
  {
    var c := ReadCount(before);
    var old_ := ReadHistory(before, n - 1);
    var new_ := ReadHistory(after, n);
    assert |old_| == (if n - 1 < c then n - 1 else c);
    assert |new_| == |old_| + 1;
    forall k | 0 <= k < |new_| ensures new_[k] == (old_ + [rec])[k] {
      assert new_[k] == ReadRecord(after, c - |old_| + k);
      if k < |old_| {
        assert old_[k] == ReadRecord(before, c - |old_| + k);
      } else {
        assert c - |old_| + k == c;
      }
    }
  }

  /** Appending a record extends every window by that record: reading n
      records afterwards gives the n - 1 last records from before, then the
      new one. */
  lemma HistoryAfterAppend(storage: map<string, nat>, adj: Adjustment, n: Int64)
    requires HistoryCountOf(storage) < I64Bound - 1
    requires n >= 1
    ensures ReadHistory(AppendRecord(storage, adj), n) == ReadHistory(storage, n - 1) + [StoredRecord(adj)]
  {
    var c := HistoryCountOf(storage);
    var after := AppendRecord(storage, adj);
    assert ReadCount(after) == c + 1;
    forall i: nat | i < c ensures ReadRecord(after, i) == ReadRecord(storage, i) {
      AppendKeepsOtherRecords(storage, adj, i);
    }
    AppendThenRead(storage, adj);
    HistoryExtends(storage, after, StoredRecord(adj), n);
  }
}
